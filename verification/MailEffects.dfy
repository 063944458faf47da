/** What single transactions do to the rows: order of moved messages, copies and
    queue rows of a save, and the rows of users the transaction is not about. */
module MailEffects {
  import opened Common
  import opened MailTables
  import opened MailInvariants

  // ------------------------------------------------------------ IMAP moves

  /** The entries a move really moves: movable ones, each at its first mention. */
  function Chosen(t: Tables, user: Id, source: Id, selected: seq<Id>, done: set<Id>): seq<Id> {
    if selected == [] then []
    else if Movable(t, user, source, selected[0]) && selected[0] !in done then
      [selected[0]] + Chosen(t, user, source, selected[1..], done + {selected[0]})
    else Chosen(t, user, source, selected[1..], done)
  }

  lemma {:induction false} ChosenAfter(t: Tables, v: Tables, user: Id, source: Id, selected: seq<Id>, done: set<Id>,
      gone: set<Id>)
    requires forall i :: 0 <= i < |selected| ==>
               (Movable(v, user, source, selected[i]) <==>
                  Movable(t, user, source, selected[i]) && selected[i] !in gone)
    ensures Chosen(v, user, source, selected, done) == Chosen(t, user, source, selected, done + gone)
    decreases selected
  {
    if selected != [] {
      var x := selected[0];
      assert forall i :: 0 <= i < |selected[1..]| ==> selected[1..][i] == selected[i + 1];
      ChosenAfter(t, v, user, source, selected[1..], done + {x}, gone);
      ChosenAfter(t, v, user, source, selected[1..], done, gone);
      assert done + {x} + gone == done + gone + {x};
    }
  }

  lemma {:induction false} ChosenMembers(t: Tables, user: Id, source: Id, selected: seq<Id>, done: set<Id>)
    ensures forall k :: 0 <= k < |Chosen(t, user, source, selected, done)| ==>
              var x := Chosen(t, user, source, selected, done)[k];
              Movable(t, user, source, x) && x !in done && x in selected
    decreases selected
  {
    if selected != [] {
      ChosenMembers(t, user, source, selected[1..], done + {selected[0]});
      ChosenMembers(t, user, source, selected[1..], done);
    }
  }

  /** The row a move creates for entry `e`, as the k-th of its destination. */
  function MovedRow(t: Tables, destination: Id, e: Id, k: nat, now: Time): Entry
    requires destination in t.mailboxes && e in t.entries
  {
    var row := t.entries[e];
    Entry(destination, t.mailboxes[destination].user, row.message, t.mailboxes[destination].uidNext + k,
          row.flags + {Recent}, row.internalDate, now, None, None)
  }

  lemma MoveStepCounter(t: Tables, destination: Id, e: Id, now: Time)
    requires destination in t.mailboxes && e in t.entries && t.nextId !in t.entries
    ensures var v := MoveStep(t, destination, e, now);
            && v.nextId == t.nextId + 1 && v.messages == t.messages
            && v.mailboxes == t.mailboxes[destination :=
                                t.mailboxes[destination].(uidNext := t.mailboxes[destination].uidNext + 1)]
            && t.nextId in v.entries && v.entries[t.nextId] == MovedRow(t, destination, e, 0, now)
            && (e in v.entries ==> !Visible(v.entries[e]))
  {
  }

  lemma MoveStepOld(t: Tables, destination: Id, e: Id, now: Time)
    requires destination in t.mailboxes && e in t.entries && t.nextId !in t.entries
    ensures var v := MoveStep(t, destination, e, now);
            && (forall x :: x != e && x != t.nextId ==> (x in v.entries <==> x in t.entries))
            && (forall x :: x in t.entries && x != e ==> v.entries[x] == t.entries[x])
  {
  }

  lemma MoveStepEffect(t: Tables, user: Id, source: Id, destination: Id, e: Id, now: Time)
    requires destination in t.mailboxes && Movable(t, user, source, e) && t.nextId !in t.entries
    ensures var v := MoveStep(t, destination, e, now);
            && v.nextId == t.nextId + 1 && v.messages == t.messages
            && v.mailboxes == t.mailboxes[destination :=
               t.mailboxes[destination].(uidNext := t.mailboxes[destination].uidNext + 1)]
            && t.nextId in v.entries && v.entries[t.nextId] == MovedRow(t, destination, e, 0, now)
            && !Movable(v, user, source, e)
            && (e in v.entries ==> !Visible(v.entries[e]))
            && (forall x :: x != e && x != t.nextId ==> (x in v.entries <==> x in t.entries))
            && (forall x :: x in t.entries && x != e ==> v.entries[x] == t.entries[x])
  {
    MoveStepCounter(t, destination, e, now);
    MoveStepOld(t, destination, e, now);
    hide MoveStep;
  }

  /** Row k of a move: the copy is there, the source is gone or expunged. */
  ghost predicate RowMoved(t: Tables, destination: Id, e: Id, k: nat, now: Time, u: Tables)
    requires destination in t.mailboxes
  {
    && e in t.entries
    && t.nextId + k in u.entries && u.entries[t.nextId + k] == MovedRow(t, destination, e, k, now)
    && (e in u.entries ==> !Visible(u.entries[e]))
  }

  ghost predicate RestUntouched(t: Tables, moved: seq<Id>, u: Tables) {
    && (forall x :: x in t.entries && x !in moved ==> x in u.entries && u.entries[x] == t.entries[x])
    && (forall x :: x in u.entries && x < t.nextId ==> x in t.entries)
  }

  /** What a move leaves behind. */
  ghost predicate MovedInOrder(t: Tables, destination: Id, moved: seq<Id>, now: Time, u: Tables)
    requires destination in t.mailboxes
  {
    && u.nextId == t.nextId + |moved|
    && destination in u.mailboxes
    && u.mailboxes[destination].uidNext == t.mailboxes[destination].uidNext + |moved|
    && (forall k :: 0 <= k < |moved| ==> RowMoved(t, destination, moved[k], k, now, u))
    && RestUntouched(t, moved, u)
  }

  lemma MovedFirst(t: Tables, v: Tables, u: Tables, user: Id, source: Id, destination: Id, e: Id, rest: seq<Id>,
      now: Time)
    requires destination in t.mailboxes && Movable(t, user, source, e) && t.nextId !in t.entries && e < t.nextId
    requires v == MoveStep(t, destination, e, now) && RestUntouched(v, rest, u)
    requires e !in rest && t.nextId !in rest
    ensures RowMoved(t, destination, e, 0, now, u) && RestUntouched(t, [e] + rest, u)
  {
    MoveStepEffect(t, user, source, destination, e, now);
    hide MoveStep, Movable, MovedRow;
    assert e in u.entries ==> e in v.entries;
  }

  lemma MovedLater(t: Tables, v: Tables, u: Tables, user: Id, source: Id, destination: Id, e: Id, x: Id, k: nat,
      now: Time)
    requires destination in t.mailboxes && Movable(t, user, source, e) && t.nextId !in t.entries
    requires v == MoveStep(t, destination, e, now) && destination in v.mailboxes
    requires x < t.nextId && x != e && RowMoved(v, destination, x, k, now, u)
    ensures RowMoved(t, destination, x, k + 1, now, u)
  {
    MoveStepEffect(t, user, source, destination, e, now);
    hide MoveStep, Movable;
  }

  lemma MovedInOrderCons(t: Tables, v: Tables, u: Tables, user: Id, source: Id, destination: Id, e: Id, rest: seq<Id>,
      now: Time)
    requires destination in t.mailboxes && Movable(t, user, source, e) && t.nextId !in t.entries && e < t.nextId
    requires v == MoveStep(t, destination, e, now) && destination in v.mailboxes
    requires MovedInOrder(v, destination, rest, now, u)
    requires forall k :: 0 <= k < |rest| ==> rest[k] < t.nextId && rest[k] != e
    ensures MovedInOrder(t, destination, [e] + rest, now, u)
  {
    MovedFirst(t, v, u, user, source, destination, e, rest, now);
    MovedAll(t, v, u, user, source, destination, e, rest, now);
    MoveStepEffect(t, user, source, destination, e, now);
    hide MoveStep, Movable, RowMoved, RestUntouched, MovedRow;
  }

  lemma MovedAll(t: Tables, v: Tables, u: Tables, user: Id, source: Id, destination: Id, e: Id, rest: seq<Id>,
      now: Time)
    requires destination in t.mailboxes && Movable(t, user, source, e) && t.nextId !in t.entries
    requires v == MoveStep(t, destination, e, now) && destination in v.mailboxes
             && RowMoved(t, destination, e, 0, now, u)
    requires forall k :: 0 <= k < |rest| ==>
             rest[k] < t.nextId && rest[k] != e && RowMoved(v, destination, rest[k], k, now, u)
    ensures var moved := [e] + rest; forall k :: 0 <= k < |moved| ==> RowMoved(t, destination, moved[k], k, now, u)
  {
    hide MoveStep, Movable, RowMoved;
    var moved := [e] + rest;
    forall k | 0 <= k < |moved| ensures RowMoved(t, destination, moved[k], k, now, u) {
      if k > 0 {
        assert moved[k] == rest[k - 1];
        MovedLater(t, v, u, user, source, destination, e, rest[k - 1], k - 1, now);
      }
    }
  }

  /** The k-th moved message gets the k-th UID from the old counter on, in the
      order selected; nothing else changes. Entries the client names are old. */
  lemma {:induction false} MoveKeepsOrder(t: Tables, user: Id, source: Id, destination: Id, selected: seq<Id>,
      now: Time)
    requires destination in t.mailboxes && UsedIds(t)
    requires forall i :: 0 <= i < |selected| ==> selected[i] < t.nextId
    ensures MovedInOrder(t, destination, Chosen(t, user, source, selected, {}), now,
                         MoveAll(t, user, source, destination, selected, now))
    decreases selected
  {
    if selected != [] {
      var e := selected[0];
      var rest := selected[1..];
      if Movable(t, user, source, e) {
        var v := MoveStep(t, destination, e, now);
        MoveStepEffect(t, user, source, destination, e, now);
        MoveStepUsed(t, destination, e, now);
        hide MoveStep, UsedIds;
        MoveKeepsOrder(v, user, source, destination, rest, now);
        ChosenAfter(t, v, user, source, rest, {}, {e});
        assert {} + {e} == {e};
        ChosenMembers(t, user, source, rest, {e});
        MovedInOrderCons(t, v, MoveAll(t, user, source, destination, selected, now), user, source, destination, e,
                         Chosen(v, user, source, rest, {}), now);
      } else {
        MoveKeepsOrder(t, user, source, destination, rest, now);
      }
    }
  }

  lemma MoveStepUsed(t: Tables, destination: Id, e: Id, now: Time)
    requires UsedIds(t) && destination in t.mailboxes && e in t.entries
    ensures UsedIds(MoveStep(t, destination, e, now))
  {
  }

  // ------------------------------------------------------------------ saves

  /** Entries of one user for one message. */
  function Holdings(t: Tables, user: Id, message: Id): set<Id> {
    set e | e in t.entries && t.entries[e].user == user && t.entries[e].message == message
  }

  lemma InsertedHolding(t: Tables, box: Id, message: Id, flags: set<Flag>, date: Time, now: Time, user: Id)
    requires box in t.mailboxes && t.nextId !in t.entries
    ensures var v := InsertEntry(t, box, message, flags, date, now);
            |Holdings(v, user, message)| == |Holdings(t, user, message)|
              + if t.mailboxes[box].user == user then 1 else 0
  {
    var v := InsertEntry(t, box, message, flags, date, now);
    if t.mailboxes[box].user == user {
      assert Holdings(v, user, message) == Holdings(t, user, message) + {t.nextId};
    } else {
      assert Holdings(v, user, message) == Holdings(t, user, message);
    }
  }

  /** A committed save gives each user one entry per delivery addressed to it. */
  lemma {:induction false} DeliveriesArrive(t: Tables, message: Id, deliveries: seq<Delivery>, date: Time, now: Time,
      user: Id)
    requires forall e :: e in t.entries ==> e < t.nextId
    ensures var u := DeliverAll(t, message, deliveries, date, now);
            u.Some? ==> |Holdings(u.value, user, message)| == |Holdings(t, user, message)| + Copies(deliveries, user)
    decreases deliveries
  {
    hide EqualFold, Holdings;
    if deliveries != [] && DeliverAll(t, message, deliveries, date, now).Some? {
      var d := deliveries[0];
      var box := FindMailbox(t, d.user, if d.mailbox == "" then INBOX else d.mailbox).value;
      InsertedHolding(t, box, message, d.flags, date, now, user);
      DeliveriesArrive(InsertEntry(t, box, message, d.flags, date, now), message, deliveries[1..], date, now, user);
    }
  }

  ghost predicate DistinctKeys(message: Id, recipients: seq<string>) {
    forall i, j :: 0 <= i < j < |recipients| ==> QueueKey(message, recipients[i]) != QueueKey(message, recipients[j])
  }

  ghost predicate NoneQueued(t: Tables, message: Id, recipients: seq<string>) {
    forall i :: 0 <= i < |recipients| ==> QueueKey(message, recipients[i]) !in t.queue.Values
  }

  /** The UNIQUE(message_id, recipient) constraint lets all rows in exactly when
      the normalised recipients are pairwise distinct and none is queued yet. */
  lemma {:induction false} QueueAcceptsDistinct(t: Tables, message: Id, recipients: seq<string>)
    requires forall q :: q in t.queue ==> q < t.nextId
    ensures QueueAll(t, message, recipients).Some?
            <==> DistinctKeys(message, recipients) && NoneQueued(t, message, recipients)
    decreases recipients
  {
    hide QueueKey;
    if recipients != [] {
      var row := QueueKey(message, recipients[0]);
      var rest := recipients[1..];
      assert forall i :: 0 <= i < |rest| ==> rest[i] == recipients[i + 1];
      if row !in t.queue.Values {
        var v := t.(queue := t.queue[t.nextId := row], nextId := t.nextId + 1);
        QueueAcceptsDistinct(v, message, rest);
        QueuedValues(t, row);
        if DistinctKeys(message, rest) && NoneQueued(v, message, rest) {
          forall i | 0 <= i < |recipients| ensures QueueKey(message, recipients[i]) !in t.queue.Values {
            if i > 0 { assert recipients[i] == rest[i - 1]; }
          }
          forall i, j | 0 <= i < j < |recipients|
            ensures QueueKey(message, recipients[i]) != QueueKey(message, recipients[j])
          {
            assert recipients[j] == rest[j - 1];
            if i > 0 { assert recipients[i] == rest[i - 1]; }
          }
        }
      }
    }
  }

  lemma QueuedValues(t: Tables, row: QueueRow)
    requires t.nextId !in t.queue
    ensures t.queue[t.nextId := row].Values == t.queue.Values + {row}
  {
    var q := t.queue[t.nextId := row];
    assert q[t.nextId] == row;
    forall x | x in t.queue.Values ensures x in q.Values {
      var k :| k in t.queue && t.queue[k] == x;
      assert q[k] == x;
    }
  }

  // -------------------------------------------------------------- isolation

  /** All rows of one user's mailboxes. */
  function RowsOf(t: Tables, user: Id): map<Id, Entry> {
    map e | e in t.entries && t.entries[e].user == user :: t.entries[e]
  }

  /** Whose entries a transaction may write. */
  predicate Addresses(op: Op, user: Id) {
    match op
    case OpCreateUser(_, _) => false
    case OpSetUser(_, _) => false
    case OpSetTransportStatus(_, _) => false
    case OpSave(actor, _, _, deliveries, _, _, _, _) =>
      actor == user || exists i :: 0 <= i < |deliveries| && deliveries[i].user == user
    case OpCopy(u, _, _, _) => u == user
    case OpMoveSelected(u, _, _, _, _) => u == user
    case OpMoveOne(u, _, _, _, _) => u == user
    case OpUpdateFlags(u, _, _, _) => u == user
    case OpSetEntryFlags(u, _, _, _, _) => u == user
    case OpExpungeOne(u, _, _, _) => u == user
    case OpExpungeDeleted(u, _, _) => u == user
    case OpCreateMailbox(u, _, _) => u == user
    case OpRenameMailbox(u, _, _) => u == user
    case OpSetSubscribed(u, _, _) => u == user
    case OpDeleteMailbox(u, _) => u == user
  }

  lemma PurgeOthers(t: Tables, gone: set<Id>, user: Id)
    requires forall e :: e in gone && e in t.entries ==> t.entries[e].user != user
    ensures RowsOf(Purge(t, gone), user) == RowsOf(t, user)
  {
  }

  lemma SoftExpungeOthers(t: Tables, which: set<Id>, now: Time, user: Id)
    requires forall e :: e in which && e in t.entries ==> t.entries[e].user != user
    ensures RowsOf(SoftExpunge(t, which, now), user) == RowsOf(t, user)
  {
  }

  lemma InsertOthers(t: Tables, box: Id, message: Id, flags: set<Flag>, date: Time, now: Time, user: Id)
    requires box in t.mailboxes && t.mailboxes[box].user != user && t.nextId !in t.entries
    ensures RowsOf(InsertEntry(t, box, message, flags, date, now), user) == RowsOf(t, user)
  {
  }

  lemma {:induction false} DeliverOthers(t: Tables, message: Id, deliveries: seq<Delivery>, date: Time, now: Time,
      user: Id)
    requires forall e :: e in t.entries ==> e < t.nextId
    requires forall i :: 0 <= i < |deliveries| ==> deliveries[i].user != user
    ensures var u := DeliverAll(t, message, deliveries, date, now);
            u.Some? ==> RowsOf(u.value, user) == RowsOf(t, user)
    decreases deliveries
  {
    hide EqualFold, RowsOf;
    if deliveries != [] && DeliverAll(t, message, deliveries, date, now).Some? {
      var d := deliveries[0];
      assert deliveries[0].user != user;
      var box := FindMailbox(t, d.user, if d.mailbox == "" then INBOX else d.mailbox).value;
      InsertOthers(t, box, message, d.flags, date, now, user);
      assert forall i :: 0 <= i < |deliveries[1..]| ==> deliveries[1..][i] == deliveries[i + 1];
      DeliverOthers(InsertEntry(t, box, message, d.flags, date, now), message, deliveries[1..], date, now, user);
    }
  }

  lemma {:induction false} QueueOthers(t: Tables, message: Id, recipients: seq<string>)
    ensures var u := QueueAll(t, message, recipients); u.Some? ==> u.value.entries == t.entries
    decreases recipients
  {
    if recipients != [] && QueueKey(message, recipients[0]) !in t.queue.Values {
      QueueOthers(t.(queue := t.queue[t.nextId := QueueKey(message, recipients[0])], nextId := t.nextId + 1), message,
        recipients[1..]);
    }
  }

  lemma SaveOthers(t: Tables, actor: Id, replaced: Option<Id>, m: Message, deliveries: seq<Delivery>,
      recipients: seq<string>,
                   full: bool, date: Time, now: Time, user: Id)
    requires UsedIds(t) && user != actor && forall i :: 0 <= i < |deliveries| ==> deliveries[i].user != user
    requires replaced.Some? ==> SoleOwner(t, actor, replaced.value)
    ensures var u := Save(t, replaced, m, deliveries, recipients, full, date, now);
            u.Some? ==> RowsOf(u.value, user) == RowsOf(t, user)
  {
    var u := Save(t, replaced, m, deliveries, recipients, full, date, now);
    if u.Some? {
      var t1 := if replaced.Some? then Purge(t, EntriesOf(t, replaced.value)) else t;
      if replaced.Some? {
        PurgeOthers(t, EntriesOf(t, replaced.value), user);
      }
      var t2 := InsertMessage(t1, WithDefaults(m));
      assert forall e :: e in t2.entries ==> e < t2.nextId;
      assert RowsOf(t2, user) == RowsOf(t1, user);
      hide InsertMessage, Purge, QuotaAllows, QueueAll, DeliverAll, UsedIds, Referenced;
      DeliverOthers(t2, t1.nextId, deliveries, date, now, user);
      var t3 := DeliverAll(t2, t1.nextId, deliveries, date, now).value;
      QueueOthers(t3, t1.nextId, recipients);
      SameEntriesSameRows(t3, u.value, user);
    }
  }

  lemma SameEntriesSameRows(t: Tables, u: Tables, user: Id)
    requires u.entries == t.entries
    ensures RowsOf(u, user) == RowsOf(t, user)
  {
  }

  lemma {:induction false} CopyOthers(t: Tables, box: Id, listed: seq<Listed>, now: Time, user: Id)
    requires box in t.mailboxes && t.mailboxes[box].user != user
    requires forall e :: e in t.entries ==> e < t.nextId
    ensures var u := CopyAll(t, box, listed, now); u.Some? ==> RowsOf(u.value, user) == RowsOf(t, user)
    decreases listed
  {
    hide RowsOf;
    if listed != [] && listed[0].message in t.messages {
      var x := listed[0];
      InsertOthers(t, box, x.message, x.flags + {Recent}, x.internalDate, now, user);
      CopyOthers(InsertEntry(t, box, x.message, x.flags + {Recent}, x.internalDate, now), box, listed[1..], now, user);
    }
  }

  lemma MoveStepOthers(t: Tables, destination: Id, e: Id, now: Time, user: Id)
    requires destination in t.mailboxes && t.mailboxes[destination].user != user && t.nextId !in t.entries
    requires e in t.entries && t.entries[e].user != user
    ensures RowsOf(MoveStep(t, destination, e, now), user) == RowsOf(t, user)
  {
  }

  lemma {:induction false} MoveOthers(t: Tables, owner: Id, source: Id, destination: Id, selected: seq<Id>, now: Time,
      user: Id)
    requires destination in t.mailboxes && t.mailboxes[destination].user == owner != user
    requires UsedIds(t)
    ensures RowsOf(MoveAll(t, owner, source, destination, selected, now), user) == RowsOf(t, user)
    decreases selected
  {
    hide RowsOf;
    if selected != [] {
      var e := selected[0];
      if Movable(t, owner, source, e) {
        MoveStepOthers(t, destination, e, now, user);
        MoveStepUsed(t, destination, e, now);
        MoveOthers(MoveStep(t, destination, e, now), owner, source, destination, selected[1..], now, user);
      } else {
        MoveOthers(t, owner, source, destination, selected[1..], now, user);
      }
    }
  }

  lemma RehomeOthers(t: Tables, e: Id, target: Id, mailbox: string, now: Time, user: Id)
    requires e in t.entries && t.entries[e].user != user && target in t.mailboxes
    ensures RowsOf(Rehome(t, e, target, mailbox, now), user) == RowsOf(t, user)
  {
  }

  lemma FoundNames(t: Tables, user: Id, name: string)
    requires FindMailbox(t, user, name).Some?
    ensures FindMailbox(t, user, name).value in t.mailboxes
  {
    hide EqualFold;
  }

  lemma FlagOpsOthers(t: Tables, op: Op, user: Id)
    requires Enabled(t, op) && !Addresses(op, user) && (op.OpUpdateFlags? || op.OpSetEntryFlags?)
    ensures RowsOf(Apply(t, op), user) == RowsOf(t, user)
  {
  }

  lemma EntryOpsOthers(t: Tables, op: Op, user: Id)
    requires Enabled(t, op) && !Addresses(op, user)
    requires op.OpUpdateFlags? || op.OpSetEntryFlags? || op.OpExpungeOne? || op.OpMoveOne?
    ensures RowsOf(Apply(t, op), user) == RowsOf(t, user)
  {
    hide EqualFold, Purge, Rehome, SoftExpunge, Orphans, Referenced;
    if op.OpExpungeOne? {
      assert t.entries[op.entry].user != user;
      PurgeOthers(t, {op.entry}, user);
      SoftExpungeOthers(t, {op.entry}, op.now, user);
    } else if op.OpMoveOne? {
      assert t.entries[op.entry].user != user;
      var box := FindMailbox(t, op.user, op.destination);
      if box.Some? {
        FoundNames(t, op.user, op.destination);
        RehomeOthers(t, op.entry, box.value, op.destination, op.now, user);
      }
    } else {
      FlagOpsOthers(t, op, user);
    }
  }

  lemma ExpungeDeletedOthers(t: Tables, owner: Id, mailbox: Id, now: Time, user: Id)
    requires owner != user
    ensures var u := ExpungeDeleted(t, owner, mailbox, now); u.Some? ==> RowsOf(u.value, user) == RowsOf(t, user)
  {
    hide Orphans, Referenced;
    var condemned := Condemned(t, owner, mailbox);
    var drafts := DraftEntries(t, condemned);
    PurgeOthers(t, drafts, user);
    SoftExpungeOthers(Purge(t, drafts), condemned - drafts, now, user);
  }

  lemma DeleteMailboxOthers(t: Tables, owner: Id, name: string, user: Id)
    requires ForeignKeys(t) && owner != user
    ensures var u := DeleteMailbox(t, owner, name); u.Some? ==> RowsOf(u.value, user) == RowsOf(t, user)
  {
    hide Orphans, Referenced, EqualFold, IsSystemName;
    var box := FindMailbox(t, owner, name);
    if box.Some? {
      PurgeOthers(t, EntriesIn(t, box.value), user);
    }
  }

  /** A transaction leaves the entries of every user it does not address alone. */
  lemma OtherUsersUntouched(t: Tables, op: Op, user: Id)
    requires Inv(t) && Enabled(t, op) && !Addresses(op, user)
    ensures RowsOf(Apply(t, op), user) == RowsOf(t, user)
  {
    hide Save, UpdateFlags, SetEntryFlags, ExpungeOne, ExpungeDeleted, MoveOne, RowsOf, EqualFold, Uids, MailboxKeys,
         Indexed;
    hide DeleteMailbox, CopyAll, MoveAll, NextValidity, UserMailboxes, QueueKeys, DraftsNeverHidden;
    match op
    case OpSave(actor, replaced, m, deliveries, recipients, full, date, now) =>
      SaveOthers(t, actor, replaced, m, deliveries, recipients, full, date, now, user);
    case OpCopy(owner, destination, listed, now) =>
      var box := FindMailbox(t, owner, destination);
      if box.Some? { CopyOthers(t, box.value, listed, now, user); }
    case OpMoveSelected(owner, source, destination, selected, now) =>
      var box := FindMailbox(t, owner, destination);
      if box.Some? { MoveOthers(t, owner, source, box.value, selected, now, user); }
    case OpMoveOne(_, _, _, _, _) => EntryOpsOthers(t, op, user);
    case OpUpdateFlags(_, _, _, _) => EntryOpsOthers(t, op, user);
    case OpSetEntryFlags(_, _, _, _, _) => EntryOpsOthers(t, op, user);
    case OpExpungeOne(_, _, _, _) => EntryOpsOthers(t, op, user);
    case OpExpungeDeleted(owner, mailbox, now) => ExpungeDeletedOthers(t, owner, mailbox, now, user);
    case OpDeleteMailbox(owner, name) => DeleteMailboxOthers(t, owner, name, user);
    case OpCreateUser(_, _) => SameEntriesSameRows(t, Apply(t, op), user);
    case OpSetUser(_, _) => SameEntriesSameRows(t, Apply(t, op), user);
    case OpCreateMailbox(_, _, _) => SameEntriesSameRows(t, Apply(t, op), user);
    case OpRenameMailbox(_, _, _) => SameEntriesSameRows(t, Apply(t, op), user);
    case OpSetSubscribed(_, _, _) => SameEntriesSameRows(t, Apply(t, op), user);
    case OpSetTransportStatus(_, _) => SameEntriesSameRows(t, Apply(t, op), user);
  }

  /** Bytes are counted as UTF-8 has them: from one to four for a character. */
  lemma {:induction false} Utf8Adds(s: string, c: char)
    ensures Utf8Length([]) == 0
    ensures Utf8Length(s + [c]) == Utf8Length(s) + (if c as int < 128 then 1 else if c as int < 2048 then 2
                                                    else if c as int < 65536 then 3 else 4)
    decreases |s|
  {
    if s != [] {
      assert (s + [c])[1..] == s[1..] + [c];
      Utf8Adds(s[1..], c);
    } else {
      assert (s + [c])[1..] == [];
    }
  }

  /** A name is valid exactly if it is not blank, has at most 255 bytes without the
      blanks around it, and no control character. */
  lemma ValidNames(raw: string)
    ensures ValidMailboxName(raw).Some? <==>
              && Trim(raw) != "" && Utf8Length(Trim(raw)) <= 255
              && forall c :: c in Trim(raw) ==> !(0 <= c as int < 32 || 127 <= c as int < 160)
    ensures ValidMailboxName(raw).Some? ==> ValidMailboxName(raw).value == Trim(raw)
  {
    var name := Trim(raw);
    hide Utf8Length, Trim;
    if exists c :: c in name && IsControl(c) {
      var c :| c in name && IsControl(c);
      var i :| 0 <= i < |name| && name[i] == c;
    }
  }

  /** A valid mailbox name is kept as it is, so it is valid again. */
  lemma ValidNamesAreFixed(raw: string)
    ensures var name := ValidMailboxName(raw); name.Some? ==>
            Trim(name.value) == name.value && ValidMailboxName(name.value) == name
  {
    hide Utf8Length, IsControl;
  }
}
