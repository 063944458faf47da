/** What every committed transaction keeps (`Inv`), how the tables may change
    between two moments (`Evolves`), and what follows over whole runs. */
module MailInvariants {
  import opened Common
  import opened MailTables

  // ------------------------------------------------------------- invariants

  ghost predicate ForeignKeys(t: Tables) {
    && (forall m :: m in t.mailboxes ==> t.mailboxes[m].user in t.users)
    && (forall e :: e in t.entries ==>
          && t.entries[e].mailbox in t.mailboxes
          && t.entries[e].message in t.messages
          && t.mailboxes[t.entries[e].mailbox].user == t.entries[e].user)
    && (forall q :: q in t.queue ==> t.queue[q].message in t.messages)
  }

  ghost predicate UsedIds(t: Tables) {
    && (forall u :: u in t.users ==> u < t.nextId)
    && (forall m :: m in t.mailboxes ==> m < t.nextId)
    && (forall m :: m in t.messages ==> m < t.nextId)
    && (forall e :: e in t.entries ==> e < t.nextId)
    && (forall q :: q in t.queue ==> q < t.nextId)
    && (forall r :: r in t.index ==> r < t.nextId)
  }

  /** Every entry, visible or expunged, has its own UID in [1, uid_next). */
  ghost predicate Uids(t: Tables) {
    && (forall m :: m in t.mailboxes ==> 1 <= t.mailboxes[m].uidNext)
    && (forall e :: e in t.entries && t.entries[e].mailbox in t.mailboxes ==>
          1 <= t.entries[e].uid < t.mailboxes[t.entries[e].mailbox].uidNext)
    && (forall e, x ::
          (e in t.entries && x in t.entries && t.entries[e].mailbox == t.entries[x].mailbox
           && t.entries[e].uid == t.entries[x].uid) ==> e == x)
  }

  ghost predicate DraftsNeverHidden(t: Tables) {
    forall e :: e in t.entries && IsDraft(t, t.entries[e].message) ==> Visible(t.entries[e])
  }

  /** Names and UIDVALIDITY values are distinct among the mailboxes of a user. */
  ghost predicate MailboxKeys(t: Tables) {
    forall m, n :: m in t.mailboxes && n in t.mailboxes && m != n && t.mailboxes[m].user == t.mailboxes[n].user ==>
      && !EqualFold(t.mailboxes[m].name, t.mailboxes[n].name)
      && t.mailboxes[m].uidValidity != t.mailboxes[n].uidValidity
  }

  ghost predicate HasIndexRow(t: Tables, message: Id) {
    exists r :: r in t.index && t.index[r].message == message
  }

  /** Exactly one index row per message, equal to its projection. */
  ghost predicate Indexed(t: Tables) {
    && (forall r :: r in t.index ==>
       t.index[r].message in t.messages && t.index[r].text == t.messages[t.index[r].message].text)
    && (forall r, s :: r in t.index && s in t.index && t.index[r].message == t.index[s].message ==> r == s)
    && (forall m :: m in t.messages ==> HasIndexRow(t, m))
  }

  ghost predicate QueueKeys(t: Tables) {
    forall q, p :: q in t.queue && p in t.queue && t.queue[q] == t.queue[p] ==> q == p
  }

  ghost predicate Inv(t: Tables) {
    ForeignKeys(t) && UsedIds(t) && Uids(t) && DraftsNeverHidden(t) && MailboxKeys(t) && Indexed(t) && QueueKeys(t)
  }

  ghost predicate HasEntry(t: Tables, message: Id) {
    exists e :: e in t.entries && t.entries[e].message == message
  }

  // -------------------------------------------------------------- evolution

  /** Identifiers are never reused: what is gone stays gone. */
  ghost predicate NoRevival(t: Tables, u: Tables) {
    && t.nextId <= u.nextId
    && t.users.Keys <= u.users.Keys
    && (forall m :: m in u.mailboxes && m < t.nextId ==> m in t.mailboxes)
    && (forall m :: m in u.messages && m < t.nextId ==> m in t.messages)
    && (forall e :: e in u.entries && e < t.nextId ==> e in t.entries)
  }

  /** A mailbox keeps owner and UIDVALIDITY, its counter never goes back, and a
      UID below the old counter still names the entry and message it named. */
  ghost predicate MailboxesStable(t: Tables, u: Tables) {
    forall m :: m in t.mailboxes && m in u.mailboxes ==>
      && t.mailboxes[m].uidNext <= u.mailboxes[m].uidNext
      && t.mailboxes[m].user == u.mailboxes[m].user
      && t.mailboxes[m].uidValidity == u.mailboxes[m].uidValidity
  }

  /** `e` has a UID that its mailbox had already given out in `t`. */
  predicate HasOldUid(t: Tables, u: Tables, e: Id)
    requires e in u.entries
  {
    u.entries[e].mailbox in t.mailboxes && u.entries[e].uid < t.mailboxes[u.entries[e].mailbox].uidNext
  }

  predicate SamePlace(t: Tables, u: Tables, e: Id)
    requires e in u.entries
  {
    e in t.entries && t.entries[e].mailbox == u.entries[e].mailbox && t.entries[e].uid == u.entries[e].uid
  }

  ghost predicate UidsStable(t: Tables, u: Tables) {
    && MailboxesStable(t, u)
    && (forall e :: e in u.entries && HasOldUid(t, u, e) ==> SamePlace(t, u, e))
  }

  /** Entries never change owner or message, and an expunged one stays expunged. */
  ghost predicate EntriesStable(t: Tables, u: Tables) {
    forall e :: e in t.entries && e in u.entries ==>
      && t.entries[e].message == u.entries[e].message
      && t.entries[e].user == u.entries[e].user
      && (Visible(u.entries[e]) ==> Visible(t.entries[e]))
  }

  /** Non-drafts stay; no message that is still there changed its content. */
  ghost predicate Retained(t: Tables, u: Tables) {
    forall m :: m in t.messages ==>
      && (t.messages[m].direction != Draft ==> m in u.messages)
      && (m in u.messages ==> u.messages[m] == t.messages[m].(transportStatus := u.messages[m].transportStatus))
  }

  /** A draft that had an entry and still exists still has one. */
  ghost predicate DraftsHeld(t: Tables, u: Tables) {
    forall m :: IsDraft(t, m) && HasEntry(t, m) && m in u.messages ==> HasEntry(u, m)
  }

  ghost predicate Evolves(t: Tables, u: Tables) {
    NoRevival(t, u) && UidsStable(t, u) && EntriesStable(t, u) && Retained(t, u) && DraftsHeld(t, u)
  }

  lemma MailboxesStableTransitive(t: Tables, u: Tables, v: Tables)
    requires MailboxesStable(t, u) && MailboxesStable(u, v)
    requires forall m :: m in t.mailboxes && m in v.mailboxes ==> m in u.mailboxes
    ensures MailboxesStable(t, v)
  {
  }

  lemma UidsStableTransitive(t: Tables, u: Tables, v: Tables)
    requires UidsStable(t, u) && UidsStable(u, v)
    requires forall m :: m in t.mailboxes && m in v.mailboxes ==> m in u.mailboxes
    requires forall e :: e in v.entries ==> v.entries[e].mailbox in v.mailboxes
    ensures UidsStable(t, v)
  {
    MailboxesStableTransitive(t, u, v);
    forall e | e in v.entries && HasOldUid(t, v, e)
      ensures SamePlace(t, v, e)
    {
      assert t.mailboxes[v.entries[e].mailbox].uidNext <= u.mailboxes[v.entries[e].mailbox].uidNext;
      assert SamePlace(u, v, e);
      assert SamePlace(t, u, e);
    }
  }

  lemma MessagesTransitive(t: Tables, u: Tables, v: Tables)
    requires Retained(t, u) && Retained(u, v) && DraftsHeld(t, u) && DraftsHeld(u, v)
    requires forall m :: m in t.messages && m in v.messages ==> m in u.messages
    ensures Retained(t, v) && DraftsHeld(t, v)
  {
  }

  lemma EntriesStableTransitive(t: Tables, u: Tables, v: Tables)
    requires EntriesStable(t, u) && EntriesStable(u, v)
    requires forall e :: e in t.entries && e in v.entries ==> e in u.entries
    ensures EntriesStable(t, v)
  {
  }

  lemma NoRevivalTransitive(t: Tables, u: Tables, v: Tables)
    requires UsedIds(t) && NoRevival(t, u) && NoRevival(u, v)
    ensures NoRevival(t, v)
    ensures forall m :: m in t.mailboxes && m in v.mailboxes ==> m in u.mailboxes
    ensures forall m :: m in t.messages && m in v.messages ==> m in u.messages
    ensures forall e :: e in t.entries && e in v.entries ==> e in u.entries
  {
  }

  lemma EvolvesTransitive(t: Tables, u: Tables, v: Tables)
    requires Inv(t) && Inv(u) && Inv(v)
    requires Evolves(t, u) && Evolves(u, v)
    ensures Evolves(t, v)
  {
    hide UidsStable, EntriesStable, Retained, DraftsHeld, NoRevival, UsedIds, Uids, MailboxKeys, Indexed, QueueKeys,
         DraftsNeverHidden;
    assert forall e :: e in v.entries ==> v.entries[e].mailbox in v.mailboxes;
    hide ForeignKeys;
    NoRevivalTransitive(t, u, v);
    UidsStableTransitive(t, u, v);
    EntriesStableTransitive(t, u, v);
    MessagesTransitive(t, u, v);
  }

  // --------------------------------------------------------- row operations

  lemma IndexUntouched(t: Tables, u: Tables)
    requires Indexed(t) && u.index == t.index && u.messages == t.messages
    ensures Indexed(u)
  {
    assert forall m :: HasIndexRow(t, m) ==> HasIndexRow(u, m);
  }

  lemma EntriesStayAround(t: Tables, u: Tables)
    requires forall e :: e in t.entries ==> e in u.entries && u.entries[e].message == t.entries[e].message
    ensures DraftsHeld(t, u)
  {
    forall m | HasEntry(t, m) ensures HasEntry(u, m) {
      var e :| e in t.entries && t.entries[e].message == m;
      assert e in u.entries && u.entries[e].message == m;
    }
  }

  lemma MessagesUntouched(t: Tables, u: Tables)
    requires u.messages == t.messages
    ensures Retained(t, u)
  {
  }

  lemma DraftsUntouched(t: Tables, u: Tables)
    requires DraftsNeverHidden(t) && u.entries == t.entries && u.messages == t.messages
    ensures DraftsNeverHidden(u)
  {
  }

  lemma QueueUntouched(t: Tables, u: Tables)
    requires QueueKeys(t) && u.queue == t.queue
    ensures QueueKeys(u)
  {
  }

  /** What a caller of a row operation needs to know about one entry. */
  lemma EntryIsHome(t: Tables, e: Id)
    requires ForeignKeys(t) && UsedIds(t) && e in t.entries
    ensures t.entries[e].message in t.messages && t.entries[e].mailbox in t.mailboxes && t.nextId !in t.entries
    ensures t.mailboxes[t.entries[e].mailbox].user == t.entries[e].user
  {
  }

  lemma InsertEntryRows(t: Tables, mailbox: Id, message: Id, flags: set<Flag>, date: Time, now: Time)
    requires UsedIds(t) && ForeignKeys(t) && mailbox in t.mailboxes && message in t.messages
    ensures var u := InsertEntry(t, mailbox, message, flags, date, now);
            UsedIds(u) && ForeignKeys(u) && NoRevival(t, u)
  {
  }

  lemma InsertEntryUids(t: Tables, mailbox: Id, message: Id, flags: set<Flag>, date: Time, now: Time)
    requires Uids(t) && UsedIds(t) && mailbox in t.mailboxes
    ensures var u := InsertEntry(t, mailbox, message, flags, date, now);
            Uids(u) && UidsStable(t, u)
  {
  }

  lemma InsertEntryFields(t: Tables, mailbox: Id, message: Id, flags: set<Flag>, date: Time, now: Time)
    requires UsedIds(t) && DraftsNeverHidden(t) && MailboxKeys(t) && QueueKeys(t) && mailbox in t.mailboxes
    ensures var u := InsertEntry(t, mailbox, message, flags, date, now);
            DraftsNeverHidden(u) && MailboxKeys(u) && QueueKeys(u) && EntriesStable(t, u)
  {
    hide EqualFold;
  }

  lemma InsertEntryKeeps(t: Tables, mailbox: Id, message: Id, flags: set<Flag>, date: Time, now: Time)
    requires Inv(t) && mailbox in t.mailboxes && message in t.messages
    ensures var u := InsertEntry(t, mailbox, message, flags, date, now);
            Inv(u) && Evolves(t, u) && HasEntry(u, message)
  {
    var u := InsertEntry(t, mailbox, message, flags, date, now);
    assert u.entries[t.nextId].message == message;
    assert t.nextId !in t.entries;
    hide ForeignKeys, UsedIds, Uids, DraftsNeverHidden, MailboxKeys, Indexed, QueueKeys;
    hide NoRevival, UidsStable, EntriesStable, Retained, DraftsHeld;
    InsertEntryRows(t, mailbox, message, flags, date, now);
    InsertEntryUids(t, mailbox, message, flags, date, now);
    InsertEntryFields(t, mailbox, message, flags, date, now);
    IndexUntouched(t, u);
    MessagesUntouched(t, u);
    EntriesStayAround(t, u);
  }

  lemma PurgeDrafts(t: Tables, gone: set<Id>)
    ensures DraftsHeld(t, Purge(t, gone))
  {
    var u := Purge(t, gone);
    forall m | IsDraft(t, m) && HasEntry(t, m) && m in u.messages ensures HasEntry(u, m) {
      var e :| e in t.entries && t.entries[e].message == m;
      if e in gone {
        assert m !in Orphans(t, gone);
        var x :| x in t.entries && x !in gone && t.entries[x].message == m;
        assert x in u.entries;
      } else {
        assert e in u.entries;
      }
    }
  }

  lemma PurgeIndex(t: Tables, gone: set<Id>)
    requires Indexed(t)
    ensures Indexed(Purge(t, gone))
  {
    var u := Purge(t, gone);
    forall m | m in u.messages ensures HasIndexRow(u, m) {
      var r :| r in t.index && t.index[r].message == m;
      assert r in u.index;
    }
  }

  lemma PurgeRows(t: Tables, gone: set<Id>)
    requires ForeignKeys(t) && UsedIds(t) && !Referenced(t, Orphans(t, gone))
    ensures var u := Purge(t, gone); ForeignKeys(u) && UsedIds(u) && NoRevival(t, u)
  {
  }

  lemma PurgeUids(t: Tables, gone: set<Id>)
    requires Uids(t)
    ensures Uids(Purge(t, gone)) && UidsStable(t, Purge(t, gone))
  {
  }

  lemma PurgeFields(t: Tables, gone: set<Id>)
    requires DraftsNeverHidden(t) && MailboxKeys(t) && QueueKeys(t)
    ensures var u := Purge(t, gone);
            DraftsNeverHidden(u) && MailboxKeys(u) && QueueKeys(u) && EntriesStable(t, u) && Retained(t, u)
  {
    hide EqualFold;
  }

  lemma PurgeKeeps(t: Tables, gone: set<Id>)
    requires Inv(t) && !Referenced(t, Orphans(t, gone))
    ensures Inv(Purge(t, gone)) && Evolves(t, Purge(t, gone))
  {
    hide ForeignKeys, UsedIds, Uids, DraftsNeverHidden, MailboxKeys, Indexed, QueueKeys;
    hide NoRevival, UidsStable, EntriesStable, Retained, DraftsHeld;
    PurgeRows(t, gone);
    PurgeUids(t, gone);
    PurgeFields(t, gone);
    PurgeIndex(t, gone);
    PurgeDrafts(t, gone);
  }

  /** Rewriting entries in place without touching mailbox, UID, owner, message. */
  ghost predicate SameIdentity(e: Entry, f: Entry) {
    e.mailbox == f.mailbox && e.uid == f.uid && e.user == f.user && e.message == f.message
  }

  lemma RewriteIds(t: Tables, u: Tables)
    requires ForeignKeys(t) && UsedIds(t) && u == t.(entries := u.entries) && u.entries.Keys == t.entries.Keys
    requires forall e :: e in t.entries ==> SameIdentity(t.entries[e], u.entries[e])
    ensures ForeignKeys(u) && UsedIds(u) && NoRevival(t, u)
  {
    assert forall e :: e in u.entries ==> SameIdentity(t.entries[e], u.entries[e]);
  }

  lemma RewriteMailboxes(t: Tables, u: Tables)
    requires MailboxKeys(t) && u.mailboxes == t.mailboxes
    ensures MailboxKeys(u)
  {
    hide EqualFold;
  }

  lemma RewriteVisible(t: Tables, u: Tables)
    requires u.entries.Keys == t.entries.Keys && u.messages == t.messages
    requires forall e :: e in t.entries ==> SameIdentity(t.entries[e], u.entries[e])
    requires forall e :: e in t.entries && Visible(u.entries[e]) ==> Visible(t.entries[e])
    requires forall e :: e in t.entries && IsDraft(t, t.entries[e].message) ==> Visible(u.entries[e])
    ensures DraftsNeverHidden(u) && EntriesStable(t, u)
  {
    assert forall e :: e in u.entries ==> SameIdentity(t.entries[e], u.entries[e]);
  }

  lemma RewriteRows(t: Tables, u: Tables)
    requires ForeignKeys(t) && UsedIds(t) && MailboxKeys(t)
    requires u == t.(entries := u.entries) && u.entries.Keys == t.entries.Keys
    requires forall e :: e in t.entries ==> SameIdentity(t.entries[e], u.entries[e])
    requires forall e :: e in t.entries && Visible(u.entries[e]) ==> Visible(t.entries[e])
    requires forall e :: e in t.entries && IsDraft(t, t.entries[e].message) ==> Visible(u.entries[e])
    ensures ForeignKeys(u) && UsedIds(u) && MailboxKeys(u) && DraftsNeverHidden(u) && NoRevival(t, u)
            && EntriesStable(t, u)
  {
    hide *;
    RewriteIds(t, u);
    RewriteMailboxes(t, u);
    RewriteVisible(t, u);
  }

  lemma RewriteUids(t: Tables, u: Tables)
    requires Uids(t) && u.mailboxes == t.mailboxes && u.entries.Keys == t.entries.Keys
    requires forall e :: e in t.entries ==> SameIdentity(t.entries[e], u.entries[e])
    ensures Uids(u) && UidsStable(t, u)
  {
    assert forall e :: e in u.entries ==> SameIdentity(t.entries[e], u.entries[e]);
  }

  lemma RewriteKeeps(t: Tables, u: Tables)
    requires Inv(t) && u == t.(entries := u.entries) && u.entries.Keys == t.entries.Keys
    requires forall e :: e in t.entries ==> SameIdentity(t.entries[e], u.entries[e])
    requires forall e :: e in t.entries && Visible(u.entries[e]) ==> Visible(t.entries[e])
    requires forall e :: e in t.entries && IsDraft(t, t.entries[e].message) ==> Visible(u.entries[e])
    ensures Inv(u) && Evolves(t, u)
  {
    hide ForeignKeys, UsedIds, Uids, DraftsNeverHidden, MailboxKeys, Indexed, QueueKeys;
    hide NoRevival, UidsStable, EntriesStable, Retained, DraftsHeld;
    RewriteRows(t, u);
    RewriteUids(t, u);
    QueueUntouched(t, u);
    IndexUntouched(t, u);
    MessagesUntouched(t, u);
    EntriesStayAround(t, u);
  }

  lemma SoftExpungeKeeps(t: Tables, which: set<Id>, now: Time)
    requires Inv(t)
    requires forall e :: e in which && e in t.entries ==> !IsDraft(t, t.entries[e].message)
    ensures Inv(SoftExpunge(t, which, now)) && Evolves(t, SoftExpunge(t, which, now))
  {
    hide ForeignKeys, UsedIds, Uids, MailboxKeys, Indexed, QueueKeys, Evolves;
    RewriteKeeps(t, SoftExpunge(t, which, now));
  }

  lemma RehomeUids(t: Tables, e: Id, target: Id, mailbox: string, now: Time)
    requires Uids(t) && e in t.entries && target in t.mailboxes && t.entries[e].mailbox != target
    ensures var u := Rehome(t, e, target, mailbox, now); Uids(u) && UidsStable(t, u)
  {
  }

  lemma RehomeForeignKeys(t: Tables, e: Id, target: Id, mailbox: string, now: Time)
    requires ForeignKeys(t) && e in t.entries && target in t.mailboxes
    requires t.mailboxes[target].user == t.entries[e].user
    ensures ForeignKeys(Rehome(t, e, target, mailbox, now))
  {
  }

  lemma RehomeIds(t: Tables, e: Id, target: Id, mailbox: string, now: Time)
    requires UsedIds(t) && e in t.entries && target in t.mailboxes
    ensures var u := Rehome(t, e, target, mailbox, now); UsedIds(u) && NoRevival(t, u)
  {
  }

  /** What a rehoming leaves of entries, mailboxes and queue rows. */
  lemma RehomeTables(t: Tables, e: Id, target: Id, mailbox: string, now: Time)
    requires e in t.entries && target in t.mailboxes
    ensures var u := Rehome(t, e, target, mailbox, now);
            && u.messages == t.messages && u.queue == t.queue && u.index == t.index && u.entries.Keys == t.entries.Keys
            && (forall x :: x in t.entries ==>
                  && u.entries[x].user == t.entries[x].user && u.entries[x].message == t.entries[x].message
                  && u.entries[x].expungedAt == t.entries[x].expungedAt)
  {
  }

  lemma RehomeMailboxKeys(t: Tables, e: Id, target: Id, mailbox: string, now: Time)
    requires MailboxKeys(t) && e in t.entries && target in t.mailboxes
    ensures MailboxKeys(Rehome(t, e, target, mailbox, now))
  {
    hide EqualFold;
  }

  lemma RehomeEntries(t: Tables, e: Id, target: Id, mailbox: string, now: Time)
    requires DraftsNeverHidden(t) && QueueKeys(t) && Indexed(t) && e in t.entries && target in t.mailboxes
    ensures var u := Rehome(t, e, target, mailbox, now);
            DraftsNeverHidden(u) && QueueKeys(u) && Indexed(u)
            && EntriesStable(t, u) && Retained(t, u) && DraftsHeld(t, u)
  {
    var u := Rehome(t, e, target, mailbox, now);
    RehomeTables(t, e, target, mailbox, now);
    hide Rehome, Indexed, Retained, DraftsHeld;
    IndexUntouched(t, u);
    MessagesUntouched(t, u);
    EntriesStayAround(t, u);
  }

  lemma RehomeElsewhere(t: Tables, e: Id, target: Id, mailbox: string, now: Time)
    requires Inv(t) && e in t.entries && target in t.mailboxes && t.entries[e].mailbox != target
    requires t.mailboxes[target].user == t.entries[e].user
    ensures Inv(Rehome(t, e, target, mailbox, now)) && Evolves(t, Rehome(t, e, target, mailbox, now))
  {
    hide ForeignKeys, UsedIds, Uids, DraftsNeverHidden, MailboxKeys, Indexed, QueueKeys;
    hide NoRevival, UidsStable, EntriesStable, Retained, DraftsHeld, Rehome;
    RehomeUids(t, e, target, mailbox, now);
    RehomeForeignKeys(t, e, target, mailbox, now);
    RehomeIds(t, e, target, mailbox, now);
    RehomeMailboxKeys(t, e, target, mailbox, now);
    RehomeEntries(t, e, target, mailbox, now);
  }

  lemma RehomeKeeps(t: Tables, e: Id, target: Id, mailbox: string, now: Time)
    requires Inv(t) && e in t.entries && target in t.mailboxes
    requires t.mailboxes[target].user == t.entries[e].user
    ensures Inv(Rehome(t, e, target, mailbox, now)) && Evolves(t, Rehome(t, e, target, mailbox, now))
  {
    if t.entries[e].mailbox == target {
      hide ForeignKeys, UsedIds, Uids, MailboxKeys, Indexed, QueueKeys, Evolves;
      RewriteKeeps(t, Rehome(t, e, target, mailbox, now));
    } else {
      hide Inv, Evolves, Rehome;
      RehomeElsewhere(t, e, target, mailbox, now);
    }
  }

  /** A step that leaves every table but messages and the index alone. */
  ghost predicate OnlyMessages(t: Tables, u: Tables) {
    && u == t.(messages := u.messages, index := u.index, nextId := u.nextId)
    && t.messages.Keys <= u.messages.Keys && t.nextId <= u.nextId
    && (forall m :: m in t.messages ==>
       u.messages[m] == t.messages[m].(transportStatus := u.messages[m].transportStatus))
    && (forall m :: m in u.messages && m !in t.messages ==> t.nextId <= m < u.nextId)
    && (forall r :: r in u.index ==> r < u.nextId)
  }

  lemma OnlyMessagesRows(t: Tables, u: Tables)
    requires ForeignKeys(t) && UsedIds(t) && OnlyMessages(t, u)
    ensures ForeignKeys(u) && UsedIds(u) && NoRevival(t, u) && Retained(t, u)
  {
  }

  lemma OnlyMessagesFields(t: Tables, u: Tables)
    requires ForeignKeys(t) && DraftsNeverHidden(t) && OnlyMessages(t, u)
    ensures DraftsNeverHidden(u) && EntriesStable(t, u)
  {
  }

  lemma MailboxesUntouched(t: Tables, u: Tables)
    requires MailboxKeys(t) && Uids(t) && u.mailboxes == t.mailboxes && u.entries == t.entries
    ensures MailboxKeys(u) && Uids(u) && UidsStable(t, u)
  {
    hide EqualFold;
    assert MailboxesStable(t, u);
  }

  lemma OnlyMessagesKeep(t: Tables, u: Tables)
    requires Inv(t) && OnlyMessages(t, u) && Indexed(u)
    ensures Inv(u) && Evolves(t, u)
  {
    hide ForeignKeys, UsedIds, Uids, DraftsNeverHidden, MailboxKeys, Indexed, QueueKeys;
    hide NoRevival, UidsStable, EntriesStable, Retained, DraftsHeld;
    OnlyMessagesRows(t, u);
    OnlyMessagesFields(t, u);
    MailboxesUntouched(t, u);
    QueueUntouched(t, u);
    EntriesStayAround(t, u);
  }

  lemma InsertMessageIndex(t: Tables, m: Message)
    requires Indexed(t) && UsedIds(t)
    ensures Indexed(InsertMessage(t, m))
  {
    var u := InsertMessage(t, m);
    assert u.index[t.nextId + 1].message == t.nextId;
    forall n | n in u.messages && n != t.nextId ensures HasIndexRow(u, n) {
      assert HasIndexRow(t, n);
      var r :| r in t.index && t.index[r].message == n;
      assert r in u.index && u.index[r].message == n;
    }
  }

  lemma InsertMessageRows(t: Tables, m: Message)
    requires UsedIds(t)
    ensures OnlyMessages(t, InsertMessage(t, m))
  {
  }

  lemma InsertMessageKeeps(t: Tables, m: Message)
    requires Inv(t)
    ensures var u := InsertMessage(t, m);
            Inv(u) && Evolves(t, u) && t.nextId in u.messages && u.messages[t.nextId] == m
  {
    var u := InsertMessage(t, m);
    hide ForeignKeys, UsedIds, Uids, DraftsNeverHidden, MailboxKeys, Indexed, QueueKeys;
    hide Evolves, OnlyMessages;
    InsertMessageIndex(t, m);
    InsertMessageRows(t, m);
    OnlyMessagesKeep(t, u);
  }

  /** The index after the row of a message has been written anew. */
  lemma Reindexed(t: Tables, u: Tables, message: Id, r: Id)
    requires Indexed(t) && message in t.messages && u.messages.Keys == t.messages.Keys && r !in t.index
    requires forall n :: n in t.messages ==> u.messages[n].text == t.messages[n].text
    requires u.index == (map x | x in t.index && t.index[x].message != message :: t.index[x])
                        [r := SearchRow(message, t.messages[message].text)]
    ensures Indexed(u)
  {
    assert u.index[r].message == message;
    forall n | n in u.messages && n != message ensures HasIndexRow(u, n) {
      assert HasIndexRow(t, n);
      var x :| x in t.index && t.index[x].message == n;
      assert x in u.index && u.index[x].message == n;
    }
  }

  lemma SetTransportStatusIndex(t: Tables, message: Id, status: string)
    requires Indexed(t) && UsedIds(t) && message in t.messages
    ensures Indexed(SetTransportStatus(t, message, status))
  {
    hide Indexed;
    Reindexed(t, SetTransportStatus(t, message, status), message, t.nextId);
  }

  lemma SetTransportStatusRows(t: Tables, message: Id, status: string)
    requires UsedIds(t)
    ensures OnlyMessages(t, SetTransportStatus(t, message, status))
  {
    if message in t.messages {
      assert SetTransportStatus(t, message, status).messages.Keys == t.messages.Keys;
    }
  }

  lemma SetTransportStatusKeeps(t: Tables, message: Id, status: string)
    requires Inv(t)
    ensures Inv(SetTransportStatus(t, message, status)) && Evolves(t, SetTransportStatus(t, message, status))
  {
    hide ForeignKeys, UsedIds, Uids, DraftsNeverHidden, MailboxKeys, Indexed, QueueKeys;
    hide Evolves, OnlyMessages;
    SetTransportStatusRows(t, message, status);
    if message in t.messages {
      SetTransportStatusIndex(t, message, status);
    }
    OnlyMessagesKeep(t, SetTransportStatus(t, message, status));
  }

  /** Users, mailbox rows and queue rows may be added; mailbox rows keep their UID data. */
  ghost predicate OtherTables(t: Tables, u: Tables) {
    && u == t.(users := u.users, mailboxes := u.mailboxes, queue := u.queue, nextId := u.nextId)
    && t.nextId <= u.nextId && t.users.Keys <= u.users.Keys && t.mailboxes.Keys <= u.mailboxes.Keys
    && (forall m :: m in u.mailboxes && m !in t.mailboxes ==> t.nextId <= m < u.nextId && 1 <= u.mailboxes[m].uidNext)
    && (forall m :: m in t.mailboxes ==>
          u.mailboxes[m] == t.mailboxes[m].(name := u.mailboxes[m].name, subscribed := u.mailboxes[m].subscribed))
    && (forall m :: m in u.mailboxes ==> u.mailboxes[m].user in u.users)
    && (forall k :: k in u.users ==> k < u.nextId)
    && (forall q :: q in u.queue ==> q < u.nextId && u.queue[q].message in u.messages)
  }

  lemma OtherTablesRows(t: Tables, u: Tables)
    requires ForeignKeys(t) && UsedIds(t) && OtherTables(t, u)
    ensures ForeignKeys(u) && UsedIds(u) && NoRevival(t, u) && EntriesStable(t, u)
  {
  }

  lemma OtherTablesStable(t: Tables, u: Tables)
    requires ForeignKeys(t) && OtherTables(t, u)
    ensures u.entries == t.entries && UidsStable(t, u)
    ensures forall m :: m in t.mailboxes ==> m in u.mailboxes && u.mailboxes[m].uidNext == t.mailboxes[m].uidNext
  {
  }

  lemma OtherTablesUids(t: Tables, u: Tables)
    requires Uids(t) && ForeignKeys(t) && OtherTables(t, u)
    ensures Uids(u) && UidsStable(t, u)
  {
    OtherTablesStable(t, u);
    assert forall m :: m in u.mailboxes ==> 1 <= u.mailboxes[m].uidNext;
    assert forall e :: e in t.entries ==> t.entries[e].mailbox in t.mailboxes;
    hide OtherTables, ForeignKeys, UidsStable;
  }

  lemma OtherTablesKeep(t: Tables, u: Tables)
    requires Inv(t) && OtherTables(t, u) && MailboxKeys(u) && QueueKeys(u)
    ensures Inv(u) && Evolves(t, u)
  {
    hide ForeignKeys, UsedIds, Uids, DraftsNeverHidden, MailboxKeys, Indexed, QueueKeys;
    hide NoRevival, UidsStable, EntriesStable, Retained, DraftsHeld;
    DraftsUntouched(t, u);
    OtherTablesRows(t, u);
    OtherTablesUids(t, u);
    IndexUntouched(t, u);
    MessagesUntouched(t, u);
    EntriesStayAround(t, u);
  }

  // ----------------------------------------------------------- transactions

  lemma DeliverAllKeeps(t: Tables, message: Id, deliveries: seq<Delivery>, date: Time, now: Time)
    requires Inv(t) && message in t.messages
    ensures var u := DeliverAll(t, message, deliveries, date, now);
            u.Some? ==> Inv(u.value) && Evolves(t, u.value) && message in u.value.messages
    decreases deliveries
  {
    hide Inv, Evolves;
    if deliveries != [] {
      var d := deliveries[0];
      var box := FindMailbox(t, d.user, if d.mailbox == "" then INBOX else d.mailbox);
      if box.Some? {
        var v := InsertEntry(t, box.value, message, d.flags, date, now);
        InsertEntryKeeps(t, box.value, message, d.flags, date, now);
        DeliverAllKeeps(v, message, deliveries[1..], date, now);
        var u := DeliverAll(v, message, deliveries[1..], date, now);
        if u.Some? {
          EvolvesTransitive(t, v, u.value);
        }
      }
    } else {
      EvolvesReflexive(t);
    }
  }

  lemma EvolvesReflexive(t: Tables)
    requires Inv(t)
    ensures Evolves(t, t)
  {
  }

  lemma MailboxKeysUntouched(t: Tables, u: Tables)
    requires MailboxKeys(t) && u.mailboxes == t.mailboxes
    ensures MailboxKeys(u)
  {
    hide EqualFold;
  }

  lemma InsertQueueKeeps(t: Tables, message: Id, row: QueueRow)
    requires Inv(t) && message in t.messages && row.message == message && row !in t.queue.Values
    ensures var u := t.(queue := t.queue[t.nextId := row], nextId := t.nextId + 1); Inv(u) && Evolves(t, u)
  {
    hide Uids, DraftsNeverHidden, Indexed, Evolves, MailboxKeys;
    var u := t.(queue := t.queue[t.nextId := row], nextId := t.nextId + 1);
    assert forall q :: q in t.queue ==> t.queue[q] != row;
    assert QueueKeys(u);
    assert OtherTables(t, u);
    hide ForeignKeys, UsedIds, QueueKeys, OtherTables;
    MailboxKeysUntouched(t, u);
    OtherTablesKeep(t, u);
  }

  lemma QueueAllKeeps(t: Tables, message: Id, recipients: seq<string>)
    requires Inv(t) && message in t.messages
    ensures var u := QueueAll(t, message, recipients);
            u.Some? ==> Inv(u.value) && Evolves(t, u.value)
    decreases recipients
  {
    hide Inv, Evolves;
    if recipients == [] {
      EvolvesReflexive(t);
    } else {
      var row := QueueKey(message, recipients[0]);
      if row !in t.queue.Values {
        var v := t.(queue := t.queue[t.nextId := row], nextId := t.nextId + 1);
        InsertQueueKeeps(t, message, row);
        QueueAllKeeps(v, message, recipients[1..]);
        var u := QueueAll(v, message, recipients[1..]);
        if u.Some? {
          EvolvesTransitive(t, v, u.value);
        }
      }
    }
  }

  lemma SaveKeeps(t: Tables, replaced: Option<Id>, m: Message, deliveries: seq<Delivery>, recipients: seq<string>,
                  archiveFull: bool, date: Time, now: Time)
    requires Inv(t)
    ensures var u := Save(t, replaced, m, deliveries, recipients, archiveFull, date, now);
            u.Some? ==> Inv(u.value) && Evolves(t, u.value)
  {
    hide Inv, Evolves, Purge, Orphans, InsertMessage, DeliverAll, QueueAll, QuotaAllows, Referenced;
    var u := Save(t, replaced, m, deliveries, recipients, archiveFull, date, now);
    if u.Some? {
      var t1 := if replaced.Some? then Purge(t, EntriesOf(t, replaced.value)) else t;
      if replaced.Some? {
        PurgeKeeps(t, EntriesOf(t, replaced.value));
      } else {
        EvolvesReflexive(t);
      }
      var t2 := InsertMessage(t1, WithDefaults(m));
      InsertMessageKeeps(t1, WithDefaults(m));
      EvolvesTransitive(t, t1, t2);
      DeliverAllKeeps(t2, t1.nextId, deliveries, date, now);
      var t3 := DeliverAll(t2, t1.nextId, deliveries, date, now).value;
      EvolvesTransitive(t, t2, t3);
      QueueAllKeeps(t3, t1.nextId, recipients);
      EvolvesTransitive(t, t3, u.value);
    }
  }

  lemma CopyAllKeeps(t: Tables, mailbox: Id, listed: seq<Listed>, now: Time)
    requires Inv(t) && mailbox in t.mailboxes
    ensures var u := CopyAll(t, mailbox, listed, now);
            u.Some? ==> Inv(u.value) && Evolves(t, u.value)
    decreases listed
  {
    hide Inv, Evolves;
    if listed == [] {
      EvolvesReflexive(t);
    } else if listed[0].message in t.messages {
      var x := listed[0];
      var v := InsertEntry(t, mailbox, x.message, x.flags + {Recent}, x.internalDate, now);
      InsertEntryKeeps(t, mailbox, x.message, x.flags + {Recent}, x.internalDate, now);
      CopyAllKeeps(v, mailbox, listed[1..], now);
      var u := CopyAll(v, mailbox, listed[1..], now);
      if u.Some? {
        EvolvesTransitive(t, v, u.value);
      }
    }
  }

  /** Removing an entry whose message keeps another one deletes no message. */
  lemma PurgeOfCopied(t: Tables, gone: set<Id>, other: Id)
    requires other in t.entries && other !in gone
    requires forall e :: e in gone && e in t.entries ==> t.entries[e].message == t.entries[other].message
    ensures Orphans(t, gone) == {}
    ensures Purge(t, gone) == t.(entries := t.entries - gone)
  {
    assert Orphans(t, gone) == {};
    assert t.messages - {} == t.messages;
    assert (map r | r in t.index && t.index[r].message !in {} :: t.index[r]) == t.index;
  }

  lemma MoveStepKeeps(t: Tables, destination: Id, e: Id, now: Time)
    requires Inv(t) && destination in t.mailboxes && e in t.entries
    requires t.mailboxes[destination].user == t.entries[e].user
    ensures Inv(MoveStep(t, destination, e, now)) && Evolves(t, MoveStep(t, destination, e, now))
  {
    hide ForeignKeys, UsedIds, Uids, DraftsNeverHidden, MailboxKeys, Indexed, QueueKeys;
    EntryIsHome(t, e);
    hide Inv, Evolves, Orphans, Purge;
    var row := t.entries[e];
    var v := InsertEntry(t, destination, row.message, row.flags + {Recent}, row.internalDate, now);
    InsertEntryKeeps(t, destination, row.message, row.flags + {Recent}, row.internalDate, now);
    var u := MoveStep(t, destination, e, now);
    if IsDraft(t, row.message) {
      assert t.nextId in v.entries && t.nextId !in {e} && v.entries[t.nextId].message == row.message;
      PurgeOfCopied(v, {e}, t.nextId);
      PurgeKeeps(v, {e});
    } else {
      SoftExpungeKeeps(v, {e}, now);
    }
    EvolvesTransitive(t, v, u);
  }

  lemma MoveAllKeeps(t: Tables, user: Id, source: Id, destination: Id, selected: seq<Id>, now: Time)
    requires Inv(t) && destination in t.mailboxes && t.mailboxes[destination].user == user
    ensures var u := MoveAll(t, user, source, destination, selected, now);
            Inv(u) && Evolves(t, u)
    decreases selected
  {
    if selected == [] {
      EvolvesReflexive(t);
    } else if !Movable(t, user, source, selected[0]) {
      MoveAllKeeps(t, user, source, destination, selected[1..], now);
    } else {
      var v := MoveStep(t, destination, selected[0], now);
      MoveStepKeeps(t, destination, selected[0], now);
      MoveAllKeeps(v, user, source, destination, selected[1..], now);
      EvolvesTransitive(t, v, MoveAll(v, user, source, destination, selected[1..], now));
    }
  }

  lemma ExpungeDeletedKeeps(t: Tables, user: Id, mailbox: Id, now: Time)
    requires Inv(t)
    ensures var u := ExpungeDeleted(t, user, mailbox, now);
            u.Some? ==> Inv(u.value) && Evolves(t, u.value)
  {
    var u := ExpungeDeleted(t, user, mailbox, now);
    if u.Some? {
      var condemned := Condemned(t, user, mailbox);
      var drafts := DraftEntries(t, condemned);
      PurgeKeeps(t, drafts);
      SoftExpungeKeeps(Purge(t, drafts), condemned - drafts, now);
      EvolvesTransitive(t, Purge(t, drafts), u.value);
    }
  }

  lemma DropMailboxUids(t: Tables, mailbox: Id)
    requires Uids(t) && ForeignKeys(t)
    requires forall e :: e in t.entries ==> t.entries[e].mailbox != mailbox
    ensures var u := t.(mailboxes := t.mailboxes - {mailbox}); Uids(u) && ForeignKeys(u) && UidsStable(t, u)
  {
  }

  lemma DropMailboxRows(t: Tables, mailbox: Id)
    requires UsedIds(t) && MailboxKeys(t) && DraftsNeverHidden(t)
    ensures var u := t.(mailboxes := t.mailboxes - {mailbox});
            UsedIds(u) && NoRevival(t, u) && MailboxKeys(u) && DraftsNeverHidden(u) && EntriesStable(t, u)
  {
    hide EqualFold;
  }

  /** A mailbox row without entries may go. */
  lemma DropMailboxKeeps(t: Tables, mailbox: Id)
    requires Inv(t)
    requires forall e :: e in t.entries ==> t.entries[e].mailbox != mailbox
    ensures var u := t.(mailboxes := t.mailboxes - {mailbox}); Inv(u) && Evolves(t, u)
  {
    var u := t.(mailboxes := t.mailboxes - {mailbox});
    hide ForeignKeys, UsedIds, Uids, DraftsNeverHidden, MailboxKeys, Indexed, QueueKeys;
    hide NoRevival, UidsStable, EntriesStable, Retained, DraftsHeld;
    DropMailboxRows(t, mailbox);
    QueueUntouched(t, u);
    DropMailboxUids(t, mailbox);
    IndexUntouched(t, u);
    MessagesUntouched(t, u);
    EntriesStayAround(t, u);
  }

  lemma DeleteMailboxKeeps(t: Tables, user: Id, name: string)
    requires Inv(t)
    ensures var u := DeleteMailbox(t, user, name);
            u.Some? ==> Inv(u.value) && Evolves(t, u.value)
  {
    var u := DeleteMailbox(t, user, name);
    if u.Some? {
      var box := FindMailbox(t, user, name).value;
      var v := Purge(t, EntriesIn(t, box));
      hide Inv, Evolves;
      PurgeKeeps(t, EntriesIn(t, box));
      DropMailboxKeeps(v, box);
      EvolvesTransitive(t, v, u.value);
    }
  }

  lemma MaxValidityIsMaximum(t: Tables, boxes: set<Id>)
    requires boxes != {} && boxes <= t.mailboxes.Keys
    ensures forall m :: m in boxes ==> t.mailboxes[m].uidValidity <= MaxValidity(t, boxes)
    ensures exists m :: m in boxes && t.mailboxes[m].uidValidity == MaxValidity(t, boxes)
    decreases boxes
  {
    var m :| m in boxes &&
             MaxValidity(t, boxes) == if boxes == {m} then t.mailboxes[m].uidValidity
                                      else Max(t.mailboxes[m].uidValidity, MaxValidity(t, boxes - {m}));
    if boxes != {m} {
      MaxValidityIsMaximum(t, boxes - {m});
    }
  }

  lemma SystemNamesDistinct()
    ensures forall i, j :: 0 <= i < j < |SYSTEM_MAILBOXES| ==> !EqualFold(SYSTEM_MAILBOXES[i], SYSTEM_MAILBOXES[j])
  {
    assert Lower(SYSTEM_MAILBOXES[0])[0] == 'i' && Lower(SYSTEM_MAILBOXES[5])[0] == 't';
    assert Lower(SYSTEM_MAILBOXES[2])[0] == 's' && Lower(SYSTEM_MAILBOXES[4])[0] == 'j';
  }

  lemma NextValidityIsNew(t: Tables, user: Id, now: Time)
    ensures forall m :: m in t.mailboxes && t.mailboxes[m].user == user ==>
              t.mailboxes[m].uidValidity < NextValidity(t, user, now)
  {
    forall m | m in t.mailboxes && t.mailboxes[m].user == user
      ensures t.mailboxes[m].uidValidity < NextValidity(t, user, now)
    {
      assert m in UserMailboxes(t, user);
      MaxValidityIsMaximum(t, UserMailboxes(t, user));
    }
  }

  /** Adding one mailbox row whose name and UIDVALIDITY its owner does not use. */
  lemma AddMailboxKeeps(t: Tables, box: Mailbox)
    requires Inv(t) && box.user in t.users && box.uidNext == 1
    requires forall m :: m in t.mailboxes && t.mailboxes[m].user == box.user ==>
               && t.mailboxes[m].uidValidity != box.uidValidity
               && !EqualFold(t.mailboxes[m].name, box.name) && !EqualFold(box.name, t.mailboxes[m].name)
    ensures var u := t.(mailboxes := t.mailboxes[t.nextId := box], nextId := t.nextId + 1);
            Inv(u) && Evolves(t, u)
  {
    hide EqualFold, Uids, DraftsNeverHidden, Indexed, QueueKeys, Evolves;
    var u := t.(mailboxes := t.mailboxes[t.nextId := box], nextId := t.nextId + 1);
    assert MailboxKeys(u);
    assert OtherTables(t, u);
    hide ForeignKeys, UsedIds, MailboxKeys, OtherTables;
    QueueUntouched(t, u);
    OtherTablesKeep(t, u);
  }

  lemma CreateMailboxKeeps(t: Tables, user: Id, name: string, now: Time)
    requires Inv(t)
    ensures var u := CreateMailbox(t, user, name, now);
            u.Some? ==> Inv(u.value) && Evolves(t, u.value)
  {
    hide Inv, Evolves, EqualFold;
    var u := CreateMailbox(t, user, name, now);
    if u.Some? {
      NextValidityIsNew(t, user, now);
      forall m | m in t.mailboxes && t.mailboxes[m].user == user
        ensures !EqualFold(t.mailboxes[m].name, name) && !EqualFold(name, t.mailboxes[m].name)
      {
        assert !Names(t, m, user, name);
        EqualFoldSymmetric(t.mailboxes[m].name, name);
      }
      AddMailboxKeeps(t, Mailbox(user, name, NextValidity(t, user, now), 1, true));
    }
  }

  ghost predicate KeysDistinct(rows: map<Id, Mailbox>) {
    forall m, n :: m in rows && n in rows && m != n ==>
      !EqualFold(rows[m].name, rows[n].name) && rows[m].uidValidity != rows[n].uidValidity
  }

  lemma SystemRowsDistinct(user: Id, first: Id, now: Time)
    ensures KeysDistinct(SystemRows(user, first, now))
  {
    SystemNamesDistinct();
    hide EqualFold;
    var rows := SystemRows(user, first, now);
    forall m, n | m in rows && n in rows && m != n
      ensures !EqualFold(rows[m].name, rows[n].name)
    {
      if m < n {
        assert !EqualFold(SYSTEM_MAILBOXES[m - first], SYSTEM_MAILBOXES[n - first]);
      } else {
        EqualFoldSymmetric(SYSTEM_MAILBOXES[m - first], SYSTEM_MAILBOXES[n - first]);
        assert !EqualFold(SYSTEM_MAILBOXES[n - first], SYSTEM_MAILBOXES[m - first]);
      }
    }
  }

  lemma MergeMailboxKeys(t: Tables, rows: map<Id, Mailbox>, owner: Id, u: Tables)
    requires MailboxKeys(t) && KeysDistinct(rows) && u.mailboxes == t.mailboxes + rows
    requires forall m :: m in t.mailboxes ==> t.mailboxes[m].user != owner
    requires forall m :: m in rows ==> rows[m].user == owner
    ensures MailboxKeys(u)
  {
    hide EqualFold;
  }

  lemma OwnersAreOld(t: Tables)
    requires UsedIds(t) && ForeignKeys(t)
    ensures forall m :: m in t.mailboxes ==> t.mailboxes[m].user != t.nextId
  {
  }

  lemma CreateUserMailboxes(t: Tables, quota: nat, now: Time)
    requires MailboxKeys(t)
    requires forall m :: m in t.mailboxes ==> t.mailboxes[m].user != t.nextId
    ensures MailboxKeys(CreateUser(t, quota, now))
  {
    hide EqualFold, SystemRows, MailboxKeys, KeysDistinct;
    SystemRowsDistinct(t.nextId, t.nextId + 1, now);
    SystemRowOwners(t.nextId, t.nextId + 1, now);
    MergeMailboxKeys(t, SystemRows(t.nextId, t.nextId + 1, now), t.nextId, CreateUser(t, quota, now));
  }

  lemma SystemRowOwners(user: Id, first: Id, now: Time)
    ensures var rows := SystemRows(user, first, now);
            forall m :: m in rows ==>
              rows[m].user == user && first <= m < first + |SYSTEM_MAILBOXES| && rows[m].uidNext == 1
  {
  }

  lemma CreateUserRows(t: Tables, quota: nat, now: Time)
    requires UsedIds(t) && ForeignKeys(t)
    ensures OtherTables(t, CreateUser(t, quota, now))
  {
    SystemRowOwners(t.nextId, t.nextId + 1, now);
    hide SystemRows;
    var u := CreateUser(t, quota, now);
    assert forall m :: m in t.mailboxes ==> u.mailboxes[m] == t.mailboxes[m];
  }

  lemma CreateUserKeeps(t: Tables, quota: nat, now: Time)
    requires Inv(t)
    ensures Inv(CreateUser(t, quota, now)) && Evolves(t, CreateUser(t, quota, now))
  {
    hide ForeignKeys, UsedIds, Uids, DraftsNeverHidden, MailboxKeys, Indexed, QueueKeys, OtherTables, Evolves;
    OwnersAreOld(t);
    CreateUserMailboxes(t, quota, now);
    CreateUserRows(t, quota, now);
    QueueUntouched(t, CreateUser(t, quota, now));
    OtherTablesKeep(t, CreateUser(t, quota, now));
  }

  lemma RenameKeeps(t: Tables, box: Id, name: string)
    requires Inv(t) && box in t.mailboxes
    requires forall m :: m in t.mailboxes && m != box && t.mailboxes[m].user == t.mailboxes[box].user ==>
               !EqualFold(t.mailboxes[m].name, name) && !EqualFold(name, t.mailboxes[m].name)
    ensures var u := t.(mailboxes := t.mailboxes[box := t.mailboxes[box].(name := name)]);
            Inv(u) && Evolves(t, u)
  {
    hide EqualFold, Uids, DraftsNeverHidden, Indexed, QueueKeys, Evolves;
    var u := t.(mailboxes := t.mailboxes[box := t.mailboxes[box].(name := name)]);
    assert MailboxKeys(u);
    assert OtherTables(t, u);
    hide ForeignKeys, UsedIds, MailboxKeys, OtherTables;
    QueueUntouched(t, u);
    OtherTablesKeep(t, u);
  }

  lemma RenameMailboxKeeps(t: Tables, user: Id, oldName: string, newName: string)
    requires Inv(t)
    ensures var u := RenameMailbox(t, user, oldName, newName);
            u.Some? ==> Inv(u.value) && Evolves(t, u.value)
  {
    hide Inv, Evolves, EqualFold;
    var u := RenameMailbox(t, user, oldName, newName);
    if u.Some? {
      var box := FindMailbox(t, user, oldName).value;
      forall m | m in t.mailboxes && m != box && t.mailboxes[m].user == user
        ensures !EqualFold(t.mailboxes[m].name, newName) && !EqualFold(newName, t.mailboxes[m].name)
      {
        assert !Names(t, m, user, newName);
        EqualFoldSymmetric(t.mailboxes[m].name, newName);
      }
      RenameKeeps(t, box, newName);
    }
  }

  lemma UserRowKeeps(t: Tables, user: Id, row: User)
    requires Inv(t) && user in t.users
    ensures var u := t.(users := t.users[user := row]); Inv(u) && Evolves(t, u)
  {
    hide Uids, DraftsNeverHidden, Indexed, Evolves, MailboxKeys, QueueKeys;
    var u := t.(users := t.users[user := row]);
    assert OtherTables(t, u);
    hide ForeignKeys, UsedIds, OtherTables;
    MailboxKeysUntouched(t, u);
    QueueUntouched(t, u);
    OtherTablesKeep(t, u);
  }

  lemma SubscriptionKeeps(t: Tables, box: Id, subscribed: bool)
    requires Inv(t) && box in t.mailboxes
    ensures var u := t.(mailboxes := t.mailboxes[box := t.mailboxes[box].(subscribed := subscribed)]);
            Inv(u) && Evolves(t, u)
  {
    hide EqualFold, Uids, DraftsNeverHidden, Indexed, QueueKeys, Evolves;
    var u := t.(mailboxes := t.mailboxes[box := t.mailboxes[box].(subscribed := subscribed)]);
    assert MailboxKeys(u);
    assert OtherTables(t, u);
    hide ForeignKeys, UsedIds, MailboxKeys, OtherTables;
    QueueUntouched(t, u);
    OtherTablesKeep(t, u);
  }

  lemma UpdateFlagsKeeps(t: Tables, e: Id, flags: set<Flag>)
    requires Inv(t) && e in t.entries
    ensures Inv(UpdateFlags(t, e, flags)) && Evolves(t, UpdateFlags(t, e, flags))
  {
    hide ForeignKeys, UsedIds, Uids, MailboxKeys, Indexed, QueueKeys, Evolves;
    RewriteKeeps(t, UpdateFlags(t, e, flags));
  }

  lemma SetEntryFlagsKeeps(t: Tables, user: Id, mailbox: Id, e: Id, flags: set<Flag>, now: Time)
    requires Inv(t)
    ensures var u := SetEntryFlags(t, user, mailbox, e, flags, now);
            u.Some? ==> Inv(u.value) && Evolves(t, u.value)
  {
    hide ForeignKeys, UsedIds, Uids, MailboxKeys, Indexed, QueueKeys, Evolves;
    if Movable(t, user, mailbox, e) {
      RewriteKeeps(t, SetEntryFlags(t, user, mailbox, e, flags, now).value);
    }
  }

  lemma ExpungeOneKeeps(t: Tables, e: Id, now: Time)
    requires Inv(t) && e in t.entries
    ensures var u := ExpungeOne(t, e, now);
            u.Some? ==> Inv(u.value) && Evolves(t, u.value)
  {
    hide Inv, Evolves;
    if !IsDraft(t, t.entries[e].message) {
      SoftExpungeKeeps(t, {e}, now);
    } else if !Referenced(t, Orphans(t, {e})) {
      PurgeKeeps(t, {e});
    }
  }

  lemma CopyKeeps(t: Tables, user: Id, destination: string, listed: seq<Listed>, now: Time)
    requires Inv(t)
    ensures var u := Copy(t, user, destination, listed, now);
            u.Some? ==> Inv(u.value) && Evolves(t, u.value)
  {
    hide Inv, Evolves;
    EvolvesReflexive(t);
    var box := FindMailbox(t, user, destination);
    if box.Some? {
      CopyAllKeeps(t, box.value, listed, now);
    }
  }

  lemma MoveSelectedKeeps(t: Tables, user: Id, source: Id, destination: string, selected: seq<Id>, now: Time)
    requires Inv(t)
    ensures var u := MoveSelected(t, user, source, destination, selected, now);
            u.Some? ==> Inv(u.value) && Evolves(t, u.value)
  {
    hide Inv, Evolves;
    EvolvesReflexive(t);
    var box := FindMailbox(t, user, destination);
    if box.Some? {
      MoveAllKeeps(t, user, source, box.value, selected, now);
    }
  }

  /** One transaction of any kind. */
  lemma StepKeeps(t: Tables, op: Op)
    requires Inv(t) && Enabled(t, op)
    ensures Inv(Apply(t, op)) && Evolves(t, Apply(t, op))
  {
    hide Inv, Evolves;
    EvolvesReflexive(t);
    match op
    case OpCreateUser(quota, now) => CreateUserKeeps(t, quota, now);
    case OpSetUser(user, row) => if user in t.users { UserRowKeeps(t, user, row); }
    case OpSave(_, replaced, m, deliveries, recipients, full, date, now) =>
      SaveKeeps(t, replaced, m, deliveries, recipients, full, date, now);
    case OpCopy(user, destination, listed, now) => CopyKeeps(t, user, destination, listed, now);
    case OpMoveSelected(user, source, destination, selected, now) =>
      MoveSelectedKeeps(t, user, source, destination, selected, now);
    case OpMoveOne(user, _, e, destination, now) =>
      var box := FindMailbox(t, user, destination);
      if box.Some? { RehomeKeeps(t, e, box.value, destination, now); }
    case OpUpdateFlags(_, _, e, flags) => UpdateFlagsKeeps(t, e, flags);
    case OpSetEntryFlags(user, mailbox, e, flags, now) => SetEntryFlagsKeeps(t, user, mailbox, e, flags, now);
    case OpExpungeOne(_, _, e, now) => ExpungeOneKeeps(t, e, now);
    case OpExpungeDeleted(user, mailbox, now) => ExpungeDeletedKeeps(t, user, mailbox, now);
    case OpCreateMailbox(user, name, now) => CreateMailboxKeeps(t, user, name, now);
    case OpRenameMailbox(user, name, newName) => RenameMailboxKeeps(t, user, name, newName);
    case OpSetSubscribed(user, name, subscribed) =>
      var box := FindMailbox(t, user, name);
      if box.Some? { SubscriptionKeeps(t, box.value, subscribed); }
    case OpDeleteMailbox(user, name) => DeleteMailboxKeeps(t, user, name);
    case OpSetTransportStatus(message, status) => SetTransportStatusKeeps(t, message, status);
  }
}
