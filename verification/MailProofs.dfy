/** Steps that connect the row-by-row code of the store to its specification. */
module MailProofs {
  import opened Common
  import opened MailTables
  import opened MailInvariants

  lemma FoundMailbox(t: Tables, user: Id, name: string, m: Id)
    requires Inv(t) && Names(t, m, user, name)
    ensures FindMailbox(t, user, name) == Some(m)
  {
    hide ForeignKeys, UsedIds, Uids, DraftsNeverHidden, Indexed, QueueKeys;
    var n := FindMailbox(t, user, name).value;
    assert Names(t, n, user, name);
  }

  lemma {:induction false} CopiesSnoc(deliveries: seq<Delivery>, i: nat)
    requires i < |deliveries|
    ensures forall u :: Copies(deliveries[..i + 1], u) ==
                        Copies(deliveries[..i], u) + if deliveries[i].user == u then 1 else 0
    decreases i
  {
    if i > 0 {
      CopiesSnoc(deliveries[1..], i - 1);
      assert deliveries[..i + 1][1..] == deliveries[1..][..i];
      assert deliveries[..i][1..] == deliveries[1..][..i - 1];
    } else {
      assert deliveries[..1][1..] == [] && deliveries[..0] == [];
    }
  }

  /** Deleting the owner's entries of a draft and the draft is a purge. */
  lemma ReplacedDraft(t: Tables, user: Id, ref: Id, message: Id)
    requires exists e :: ReplacesNewest(t, user, ref, e) && t.entries[e].message == message
    ensures Orphans(t, EntriesOf(t, message)) == {message}
    ensures var rest := map e | e in t.entries
            && !(t.entries[e].message == message && t.entries[e].user == user) :: t.entries[e];
            Purge(t, EntriesOf(t, message)) == DeleteMessages(t.(entries := rest), {message})
  {
    var e :| Replaces(t, user, ref, e) && t.entries[e].message == message;
    assert e in EntriesOf(t, message);
    assert Orphans(t, EntriesOf(t, message)) == {message};
    var rest := map e | e in t.entries
      && !(t.entries[e].message == message && t.entries[e].user == user) :: t.entries[e];
    assert rest == t.entries - EntriesOf(t, message);
  }

  lemma SameQueueSameReferences(t: Tables, u: Tables, messages: set<Id>)
    requires u.queue == t.queue
    ensures Referenced(t, messages) == Referenced(u, messages)
  {
  }

  lemma SaveReplacing(t: Tables, draft: Id, m: Message, deliveries: seq<Delivery>, recipients: seq<string>,
                      full: bool, date: Time, now: Time)
    ensures Save(t, Some(draft), m, deliveries, recipients, full, date, now) ==
            if Referenced(t, Orphans(t, EntriesOf(t, draft))) then None
            else Save(Purge(t, EntriesOf(t, draft)), None, m, deliveries, recipients, full, date, now)
  {
    hide Purge, Orphans, Referenced, QuotaAllows, DeliverAll, QueueAll;
  }

  lemma OneOrphan(t: Tables, e: Id)
    requires e in t.entries && IsDraft(t, t.entries[e].message)
    ensures var message := t.entries[e].message;
            var left := exists x :: x in t.entries - {e} && t.entries[x].message == message;
            && Orphans(t, {e}) == (if left then {} else {message})
            && Purge(t, {e}) == (if left then t.(entries := t.entries - {e})
                                 else DeleteMessages(t.(entries := t.entries - {e}), {message}))
  {
    var message := t.entries[e].message;
    if exists x :: x in t.entries - {e} && t.entries[x].message == message {
      var x :| x in t.entries - {e} && t.entries[x].message == message;
      assert x in t.entries && x !in {e};
      PurgeOfCopied(t, {e}, x);
    } else {
      assert e in {e};
      assert Orphans(t, {e}) == {message};
    }
  }

  lemma SetTransportStatusPerforms(t: Tables, message: Id, status: string)
    ensures Performs(t, OpSetTransportStatus(message, status), true, SetTransportStatus(t, message, status))
    ensures Apply(t, OpSetTransportStatus(message, status)) == SetTransportStatus(t, message, status)
  {
  }

  // ---------------------------------------------------------------- EXPUNGE

  /** The state of EXPUNGE after the entries in `done` were handled. */
  ghost function Expunged(t: Tables, done: set<Id>, now: Time): Tables {
    var drafts := DraftEntries(t, done);
    SoftExpunge(Purge(t, drafts), done - drafts, now)
  }

  lemma ExpungedAll(t: Tables, user: Id, mailbox: Id, now: Time)
    ensures ExpungeDeleted(t, user, mailbox, now) ==
            var condemned := Condemned(t, user, mailbox);
            if Referenced(t, Orphans(t, DraftEntries(t, condemned))) then None else Some(Expunged(t, condemned, now))
  {
    hide Orphans, Purge, SoftExpunge, Condemned, DraftEntries, Referenced;
  }

  lemma PurgeNothing(t: Tables)
    ensures Orphans(t, {}) == {} && Purge(t, {}) == t
  {
    assert Orphans(t, {}) == {};
    assert t.entries - {} == t.entries && t.messages - {} == t.messages;
    assert (map r | r in t.index && t.index[r].message !in {} :: t.index[r]) == t.index;
  }

  lemma SoftExpungeNothing(t: Tables, now: Time)
    ensures SoftExpunge(t, {}, now) == t
  {
    assert SoftExpunge(t, {}, now).entries == t.entries;
  }

  lemma ExpungeStart(t: Tables, now: Time)
    ensures Expunged(t, {}, now) == t && !Referenced(t, Orphans(t, DraftEntries(t, {})))
  {
    assert DraftEntries(t, {}) == {} && {} - DraftEntries(t, {}) == {};
    hide Purge, Orphans, SoftExpunge, DraftEntries;
    PurgeNothing(t);
    SoftExpungeNothing(t, now);
  }

  lemma MoveStepMailboxes(t: Tables, destination: Id, e: Id, now: Time)
    requires destination in t.mailboxes && e in t.entries
    ensures MoveStep(t, destination, e, now).mailboxes ==
            t.mailboxes[destination := t.mailboxes[destination].(uidNext := t.mailboxes[destination].uidNext + 1)]
  {
  }

  lemma MoveAllNext(t: Tables, user: Id, source: Id, destination: Id, selected: seq<Id>, i: nat, now: Time)
    requires destination in t.mailboxes && i < |selected|
    ensures MoveAll(t, user, source, destination, selected[i..], now) ==
            if Movable(t, user, source, selected[i])
            then MoveAll(MoveStep(t, destination, selected[i], now), user, source, destination, selected[i + 1..], now)
            else MoveAll(t, user, source, destination, selected[i + 1..], now)
  {
    hide MoveStep;
    assert selected[i..][0] == selected[i] && selected[i..][1..] == selected[i + 1..];
  }

  lemma FitsExactlyWhen(t: Tables, user: Id, additional: nat)
    requires user in t.users
    ensures Fits(t, user, additional) <==>
              !(t.users[user].quota > 0 && Used(t, user) + additional > t.users[user].quota)
  {
    hide Used;
  }

  lemma OrphansGrow(t: Tables, some: set<Id>, all: set<Id>)
    requires some <= all
    ensures Orphans(t, DraftEntries(t, some)) <= Orphans(t, DraftEntries(t, all))
    ensures Referenced(t, Orphans(t, DraftEntries(t, some))) ==> Referenced(t, Orphans(t, DraftEntries(t, all)))
  {
    forall m | m in Orphans(t, DraftEntries(t, some)) ensures m in Orphans(t, DraftEntries(t, all)) {
      var e :| e in DraftEntries(t, some) && e in t.entries && t.entries[e].message == m && IsDraft(t, m)
               && forall x :: x in t.entries && x !in DraftEntries(t, some) ==> t.entries[x].message != m;
      assert e in DraftEntries(t, all);
    }
  }

  lemma CondemnedEntry(t: Tables, user: Id, mailbox: Id, e: Id, done: set<Id>, now: Time)
    requires e in Condemned(t, user, mailbox) && e !in done
    ensures var u := Expunged(t, done, now);
            e in t.entries && e in u.entries && u.entries[e] == t.entries[e]
            && (IsDraft(u, t.entries[e].message) <==> IsDraft(t, t.entries[e].message))
  {
    var drafts := DraftEntries(t, done);
    assert t.entries[e].message !in Orphans(t, drafts);
  }

  lemma ExpungeNextKept(t: Tables, done: set<Id>, e: Id, now: Time)
    requires e in t.entries && e !in done && !IsDraft(t, t.entries[e].message)
    ensures Expunged(t, done + {e}, now) == SoftExpunge(Expunged(t, done, now), {e}, now)
    ensures DraftEntries(t, done + {e}) == DraftEntries(t, done)
  {
    assert DraftEntries(t, done + {e}) == DraftEntries(t, done);
    hide Purge;
    var p := Purge(t, DraftEntries(t, done));
    SoftExpungeTwice(p, done - DraftEntries(t, done), e, now);
    assert done + {e} - DraftEntries(t, done) == (done - DraftEntries(t, done)) + {e};
  }

  lemma SoftExpungeTwice(t: Tables, which: set<Id>, e: Id, now: Time)
    requires e !in which
    ensures SoftExpunge(t, which + {e}, now) == SoftExpunge(SoftExpunge(t, which, now), {e}, now)
  {
    assert SoftExpunge(t, which + {e}, now).entries == SoftExpunge(SoftExpunge(t, which, now), {e}, now).entries;
  }

  lemma PurgeAgain(t: Tables, gone: set<Id>, e: Id, kept: set<Id>, now: Time)
    requires var u := SoftExpunge(Purge(t, gone), kept, now);
             Orphans(t, gone + {e}) == Orphans(t, gone) + Orphans(u, {e})
    ensures Purge(SoftExpunge(Purge(t, gone), kept, now), {e}) == SoftExpunge(Purge(t, gone + {e}), kept, now)
  {
    hide Orphans;
    var v := Purge(SoftExpunge(Purge(t, gone), kept, now), {e});
    var w := SoftExpunge(Purge(t, gone + {e}), kept, now);
    assert v.entries == w.entries;
    assert v.messages == w.messages;
    assert v.index == w.index;
  }

  /** Purging one more draft entry after others, then the soft expunges. */
  lemma PurgeMore(t: Tables, gone: set<Id>, e: Id, kept: set<Id>, now: Time)
    requires e in t.entries && e !in gone && e !in kept && IsDraft(t, t.entries[e].message)
    ensures var u := SoftExpunge(Purge(t, gone), kept, now);
            && Orphans(t, gone + {e}) == Orphans(t, gone) + Orphans(u, {e})
            && Purge(u, {e}) == SoftExpunge(Purge(t, gone + {e}), kept, now)
  {
    hide Orphans, Purge, SoftExpunge;
    OrphansMore(t, gone, e, kept, now);
    PurgeAgain(t, gone, e, kept, now);
  }

  lemma OrphansMore(t: Tables, gone: set<Id>, e: Id, kept: set<Id>, now: Time)
    requires e in t.entries && e !in gone && e !in kept && IsDraft(t, t.entries[e].message)
    ensures Orphans(t, gone + {e}) ==
            Orphans(t, gone) + Orphans(SoftExpunge(Purge(t, gone), kept, now), {e})
  {
    var u := SoftExpunge(Purge(t, gone), kept, now);
    var m := t.entries[e].message;
    assert m !in Orphans(t, gone);
    assert IsDraft(u, m);
    assert forall x :: x in u.entries <==> x in t.entries && x !in gone;
    assert forall x :: x in u.entries ==> u.entries[x].message == t.entries[x].message;
    forall n | n in Orphans(t, gone + {e}) ensures n in Orphans(t, gone) + Orphans(u, {e}) {
      var x :| x in gone + {e} && x in t.entries && t.entries[x].message == n && IsDraft(t, n)
               && forall y :: y in t.entries && y !in gone + {e} ==> t.entries[y].message != n;
      if n != m {
        assert x in gone;
        assert n in Orphans(t, gone);
      } else {
        assert e in {e};
        assert n in Orphans(u, {e});
      }
    }
    forall n | n in Orphans(t, gone) ensures n in Orphans(t, gone + {e}) {
      var x :| x in gone && x in t.entries && t.entries[x].message == n && IsDraft(t, n)
               && forall y :: y in t.entries && y !in gone ==> t.entries[y].message != n;
      assert x in gone + {e};
    }
    forall n | n in Orphans(u, {e}) ensures n in Orphans(t, gone + {e}) {
      assert n == m;
      assert e in gone + {e};
    }
  }

  lemma ExpungeNextDraft(t: Tables, done: set<Id>, e: Id, now: Time)
    requires e in t.entries && e !in done && IsDraft(t, t.entries[e].message)
    requires e in Expunged(t, done, now).entries
    requires !Referenced(t, Orphans(t, DraftEntries(t, done)))
    ensures var u := Expunged(t, done, now);
            && Purge(u, {e}) == Expunged(t, done + {e}, now)
            && (Referenced(u, Orphans(u, {e})) <==> Referenced(t, Orphans(t, DraftEntries(t, done + {e}))))
  {
    var drafts := DraftEntries(t, done);
    assert DraftEntries(t, done + {e}) == drafts + {e};
    assert done + {e} - (drafts + {e}) == done - drafts;
    var u := Expunged(t, done, now);
    assert u.queue == t.queue;
    hide Purge, Orphans, SoftExpunge;
    PurgeMore(t, drafts, e, done - drafts, now);
  }

  // ---------------------------------------------------------- DELETE mailbox

  lemma PurgeMailboxes(t: Tables, gone: set<Id>)
    ensures Purge(t, gone).mailboxes == t.mailboxes
  {
  }

  /** The drafts among the messages of some entries. */
  function DraftIDs(t: Tables, gone: set<Id>): set<Id> {
    set e | e in gone && e in t.entries && IsDraft(t, t.entries[e].message) :: t.entries[e].message
  }

  lemma NothingDeleted(t: Tables, gone: set<Id>)
    ensures var drafts := DraftIDs(t, gone);
            && Orphans(t, gone) - drafts == {} && !Referenced(t, Orphans(t, gone) - drafts)
            && DeleteMessages(t.(entries := t.entries - gone), {}) == t.(entries := t.entries - gone)
  {
    assert t.messages - {} == t.messages;
    assert (map r | r in t.index && t.index[r].message !in {} :: t.index[r]) == t.index;
  }

  lemma OrphanOrNot(t: Tables, gone: set<Id>, message: Id)
    requires message in DraftIDs(t, gone)
    ensures message in Orphans(t, gone) <==>
            !exists x :: x in t.entries - gone && (t.entries - gone)[x].message == message
  {
    var e :| e in gone && e in t.entries && IsDraft(t, t.entries[e].message) && t.entries[e].message == message;
    if !exists x :: x in t.entries - gone && (t.entries - gone)[x].message == message {
      forall x | x in t.entries && x !in gone ensures t.entries[x].message != message {
        assert x in t.entries - gone;
      }
    }
  }

  // --------------------------------------------------------- CREATE account

  /** The system mailboxes after the first `count` were inserted. */
  function SystemPrefix(user: Id, first: Id, now: Time, count: nat): map<Id, Mailbox>
    requires count <= |SYSTEM_MAILBOXES|
  {
    map m | first <= m < first + count :: SystemRow(user, first, now, m)
  }

  lemma SystemPrefixGrows(user: Id, first: Id, now: Time, count: nat)
    requires count < |SYSTEM_MAILBOXES|
    ensures SystemPrefix(user, first, now, count + 1) ==
            SystemPrefix(user, first, now, count)
              [first + count := Mailbox(user, SYSTEM_MAILBOXES[count], now + count, 1, true)]
  {
    assert SystemRow(user, first, now, first + count) == Mailbox(user, SYSTEM_MAILBOXES[count], now + count, 1, true);
  }

  lemma SystemPrefixEnds(user: Id, first: Id, now: Time)
    ensures SystemPrefix(user, first, now, 0) == map[]
    ensures SystemPrefix(user, first, now, |SYSTEM_MAILBOXES|) == SystemRows(user, first, now)
  {
  }

  lemma DeleteOneMore(t: Tables, gone: set<Id>, rest: set<Id>, message: Id)
    requires message in rest && message in Orphans(t, gone)
    ensures var some := Orphans(t, gone) - rest;
            var base := t.(entries := t.entries - gone);
            && Orphans(t, gone) - (rest - {message}) == some + {message}
            && DeleteMessages(DeleteMessages(base, some), {message}) == DeleteMessages(base, some + {message})
            && (Referenced(t, some + {message})
               <==> Referenced(t, some) || Referenced(DeleteMessages(base, some), {message}))
            && (Referenced(t, some + {message}) ==> Referenced(t, Orphans(t, gone)))
  {
    hide Orphans;
    var some := Orphans(t, gone) - rest;
    var base := t.(entries := t.entries - gone);
    assert DeleteMessages(DeleteMessages(base, some), {message}).messages
      == DeleteMessages(base, some + {message}).messages;
    assert DeleteMessages(DeleteMessages(base, some), {message}).index == DeleteMessages(base, some + {message}).index;
  }
}
