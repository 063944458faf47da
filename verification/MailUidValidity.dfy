/** When UIDVALIDITY values of a user rise over a run, so that a UID together with
    one names a single message for ever, and when they do not. */
module MailUidValidity {
  import opened Common
  import opened MailTables
  import opened MailInvariants
  import opened MailHistory

  predicate Owns(t: Tables, user: Id, m: Id) {
    m in t.mailboxes && t.mailboxes[m].user == user
  }

  // ------------------------------------------------- what happens to the rows

  /** The same mailbox rows, up to their counters and subscriptions. */
  predicate SameRows(t: Tables, u: Tables) {
    && u.mailboxes.Keys == t.mailboxes.Keys && u.users.Keys == t.users.Keys
    && forall m :: m in t.mailboxes ==>
         u.mailboxes[m].(uidNext := t.mailboxes[m].uidNext, subscribed := t.mailboxes[m].subscribed) == t.mailboxes[m]
  }

  lemma SameRowsTransitive(t: Tables, u: Tables, v: Tables)
    requires SameRows(t, u) && SameRows(u, v)
    ensures SameRows(t, v)
  {
  }

  lemma InsertEntryRow(t: Tables, box: Id, message: Id, flags: set<Flag>, date: Time, now: Time)
    requires box in t.mailboxes
    ensures SameRows(t, InsertEntry(t, box, message, flags, date, now))
  {
  }

  lemma {:induction false} DeliverAllRows(t: Tables, message: Id, deliveries: seq<Delivery>, date: Time, now: Time)
    ensures var u := DeliverAll(t, message, deliveries, date, now); u.Some? ==> SameRows(t, u.value)
    decreases |deliveries|
  {
    hide EqualFold, SameRows;
    if deliveries == [] {
      assert SameRows(t, t) by { SameRowsReflexive(t); }
    } else if DeliverAll(t, message, deliveries, date, now).Some? {
      var d := deliveries[0];
      var box := FindMailbox(t, d.user, if d.mailbox == "" then INBOX else d.mailbox).value;
      var v := InsertEntry(t, box, message, d.flags, date, now);
      InsertEntryRow(t, box, message, d.flags, date, now);
      DeliverAllRows(v, message, deliveries[1..], date, now);
      SameRowsTransitive(t, v, DeliverAll(t, message, deliveries, date, now).value);
    }
  }

  lemma SameRowsReflexive(t: Tables)
    ensures SameRows(t, t)
  {
  }

  lemma {:induction false} CopyAllRows(t: Tables, box: Id, listed: seq<Listed>, now: Time)
    requires box in t.mailboxes
    ensures var u := CopyAll(t, box, listed, now); u.Some? ==> SameRows(t, u.value)
    decreases |listed|
  {
    hide SameRows;
    if listed == [] {
      SameRowsReflexive(t);
    } else if listed[0].message in t.messages {
      var x := listed[0];
      var v := InsertEntry(t, box, x.message, x.flags + {Recent}, x.internalDate, now);
      InsertEntryRow(t, box, x.message, x.flags + {Recent}, x.internalDate, now);
      CopyAllRows(v, box, listed[1..], now);
      if CopyAll(t, box, listed, now).Some? {
        SameRowsTransitive(t, v, CopyAll(t, box, listed, now).value);
      }
    }
  }

  lemma MoveStepRow(t: Tables, destination: Id, e: Id, now: Time)
    requires destination in t.mailboxes && e in t.entries
    ensures SameRows(t, MoveStep(t, destination, e, now))
  {
  }

  lemma {:induction false} MoveAllRows(t: Tables, user: Id, source: Id, destination: Id, selected: seq<Id>, now: Time)
    requires destination in t.mailboxes
    ensures SameRows(t, MoveAll(t, user, source, destination, selected, now))
    decreases |selected|
  {
    hide SameRows, MoveStep;
    if selected == [] {
      SameRowsReflexive(t);
    } else if Movable(t, user, source, selected[0]) {
      var v := MoveStep(t, destination, selected[0], now);
      MoveStepRow(t, destination, selected[0], now);
      assert destination in v.mailboxes by { assert SameRows(t, v); KeysOf(t, v); }
      MoveAllRows(v, user, source, destination, selected[1..], now);
      SameRowsTransitive(t, v, MoveAll(v, user, source, destination, selected[1..], now));
    } else {
      MoveAllRows(t, user, source, destination, selected[1..], now);
    }
  }

  lemma KeysOf(t: Tables, u: Tables)
    requires SameRows(t, u)
    ensures u.mailboxes.Keys == t.mailboxes.Keys
  {
  }

  predicate ChangesRows(op: Op) {
    op.OpCreateUser? || op.OpCreateMailbox? || op.OpRenameMailbox? || op.OpDeleteMailbox?
  }

  lemma SaveRows(t: Tables, replaced: Option<Id>, m: Message, deliveries: seq<Delivery>, recipients: seq<string>,
                 archiveFull: bool, date: Time, now: Time)
    ensures var u := Save(t, replaced, m, deliveries, recipients, archiveFull, date, now); u.Some? ==>
            SameRows(t, u.value)
  {
    hide Purge, Orphans, Referenced, QuotaAllows, DeliverAll, QueueAll, SameRows;
    var u := Save(t, replaced, m, deliveries, recipients, archiveFull, date, now);
    if u.Some? {
      var t1 := if replaced.Some? then Purge(t, EntriesOf(t, replaced.value)) else t;
      var t2 := InsertMessage(t1, WithDefaults(m));
      var t3 := DeliverAll(t2, t1.nextId, deliveries, date, now).value;
      if replaced.Some? {
        PurgeSameRows(t, EntriesOf(t, replaced.value));
      } else {
        SameRowsReflexive(t);
      }
      InsertMessageSameRows(t1, WithDefaults(m));
      DeliverAllRows(t2, t1.nextId, deliveries, date, now);
      QueueAllSameRows(t3, t1.nextId, recipients);
      SameRowsTransitive(t, t1, t2);
      SameRowsTransitive(t, t2, t3);
      SameRowsTransitive(t, t3, u.value);
    }
  }

  lemma PurgeSameRows(t: Tables, gone: set<Id>)
    ensures SameRows(t, Purge(t, gone))
  {
  }

  lemma InsertMessageSameRows(t: Tables, m: Message)
    ensures SameRows(t, InsertMessage(t, m))
  {
  }

  lemma {:induction false} QueueAllSameRows(t: Tables, message: Id, recipients: seq<string>)
    ensures var u := QueueAll(t, message, recipients); u.Some? ==> SameRows(t, u.value)
    decreases |recipients|
  {
    hide QueueKey;
    if recipients != [] && QueueKey(message, recipients[0]) !in t.queue.Values {
      QueueAllSameRows(t.(queue := t.queue[t.nextId := QueueKey(message, recipients[0])], nextId := t.nextId + 1),
        message, recipients[1..]);
    }
  }

  /** Only creating, renaming and deleting touch what a mailbox row says of itself. */
  lemma RowsStay(t: Tables, op: Op)
    requires Enabled(t, op) && !ChangesRows(op)
    ensures SameRows(t, Apply(t, op))
  {
    hide Save, CopyAll, MoveAll, Purge, Orphans, Referenced, SameRows, UpdateFlags, SetEntryFlags, ExpungeOne,
         ExpungeDeleted, Rehome, SetTransportStatus;
    SameRowsReflexive(t);
    match op
    case OpSave(_, replaced, m, deliveries, recipients, full, date, now) => SaveRows(t, replaced, m, deliveries,
      recipients, full, date, now);
    case OpCopy(user, destination, listed, now) =>
      var box := FindMailbox(t, user, destination);
      if box.Some? {
        CopyAllRows(t, box.value, listed, now);
      }
    case OpMoveSelected(user, source, destination, selected, now) =>
      var box := FindMailbox(t, user, destination);
      if box.Some? {
        MoveAllRows(t, user, source, box.value, selected, now);
      }
    case OpMoveOne(user, _, e, destination, now) =>
      var box := FindMailbox(t, user, destination);
      if box.Some? {
        RehomeRow(t, e, box.value, destination, now);
      }
    case _ => OtherRowsStay(t, op);
  }

  lemma RehomeRow(t: Tables, e: Id, target: Id, mailbox: string, now: Time)
    requires e in t.entries && target in t.mailboxes
    ensures SameRows(t, Rehome(t, e, target, mailbox, now))
  {
  }

  lemma OtherRowsStay(t: Tables, op: Op)
    requires Enabled(t, op) && !ChangesRows(op) && !op.OpSave? && !op.OpCopy? && !op.OpMoveSelected? && !op.OpMoveOne?
    ensures SameRows(t, Apply(t, op))
  {
    hide Orphans, Referenced, EqualFold, Condemned, DraftEntries, FindMailbox;
    match op
    case OpExpungeDeleted(user, mailbox, now) =>
      ExpungeDeletedRows(t, user, mailbox, now);
      hide ExpungeDeleted;
      SameRowsReflexive(t);
    case OpSetSubscribed(user, name, subscribed) => SubscribedRows(t, user, name, subscribed);
    case _ =>
  }

  lemma SubscribedRows(t: Tables, user: Id, name: string, subscribed: bool)
    ensures var u := SetSubscribed(t, user, name, subscribed); u.Some? ==> SameRows(t, u.value)
  {
    hide EqualFold;
  }

  lemma ExpungeDeletedRows(t: Tables, user: Id, mailbox: Id, now: Time)
    ensures var u := ExpungeDeleted(t, user, mailbox, now); u.Some? ==>
            u.value.mailboxes == t.mailboxes && u.value.users == t.users
  {
    hide Orphans, Referenced, Condemned, DraftEntries;
  }

  // ------------------------------------------------------- values of a user

  /** The transaction deletes the user's mailbox with the greatest UIDVALIDITY. */
  ghost predicate RemovesGreatest(t: Tables, op: Op, user: Id) {
    && op.OpDeleteMailbox? && op.user == user && DeleteMailbox(t, user, op.name).Some?
    && forall m :: Owns(t, user, m) ==>
       t.mailboxes[m].uidValidity <= t.mailboxes[FindMailbox(t, user, op.name).value].uidValidity
  }

  /** The transaction creates a mailbox for the user. */
  ghost predicate Creates(t: Tables, op: Op, user: Id) {
    op.OpCreateMailbox? && op.user == user && CreateMailbox(t, user, op.name, op.now).Some?
  }

  lemma DeletedRows(t: Tables, user: Id, name: string)
    requires DeleteMailbox(t, user, name).Some?
    ensures FindMailbox(t, user, name).Some? && Names(t, FindMailbox(t, user, name).value, user, name)
    ensures DeleteMailbox(t, user, name).value.mailboxes == t.mailboxes - {FindMailbox(t, user, name).value}
    ensures DeleteMailbox(t, user, name).value.users == t.users && DeleteMailbox(t, user, name).value.nextId == t.nextId
  {
    hide EqualFold, Orphans, Referenced;
  }

  /** A mailbox goes only when it is deleted by name. */
  lemma OnlyDeletingRemoves(t: Tables, op: Op, m: Id)
    requires Enabled(t, op) && m in t.mailboxes && m !in Apply(t, op).mailboxes
    ensures op.OpDeleteMailbox? && DeleteMailbox(t, op.user, op.name).Some?
            && FindMailbox(t, op.user, op.name) == Some(m)
  {
    hide EqualFold, DeleteMailbox;
    if op.OpDeleteMailbox? {
      if DeleteMailbox(t, op.user, op.name).Some? {
        DeletedRows(t, op.user, op.name);
      }
    } else if !ChangesRows(op) {
      RowsStay(t, op);
    }
    hide Apply;
  }

  /** A mailbox that was not there is new: one created by its user with the next
      value, or one of a new account. */
  lemma OnlyCreatingAdds(t: Tables, op: Op, m: Id)
    requires Enabled(t, op) && UsedIds(t) && m in Apply(t, op).mailboxes && m !in t.mailboxes
    ensures var row := Apply(t, op).mailboxes[m];
            || (op.OpCreateUser? && row.user !in t.users)
            || (Creates(t, op, row.user) && row.uidValidity == NextValidity(t, row.user, op.now))
  {
    hide EqualFold, DeleteMailbox, NextValidity;
    if op.OpDeleteMailbox? {
      if DeleteMailbox(t, op.user, op.name).Some? {
        DeletedRows(t, op.user, op.name);
      }
    } else if !ChangesRows(op) {
      RowsStay(t, op);
    }
  }

  lemma ValidityStays(t: Tables, op: Op, m: Id)
    requires Inv(t) && Enabled(t, op) && m in t.mailboxes && m in Apply(t, op).mailboxes
    ensures Apply(t, op).mailboxes[m].user == t.mailboxes[m].user
            && Apply(t, op).mailboxes[m].uidValidity == t.mailboxes[m].uidValidity
  {
    StepKeeps(t, op);
    hide Inv, NoRevival, EntriesStable, Retained, DraftsHeld, Apply;
  }

  /** Some mailbox of the user has a value no smaller than this one. */
  ghost predicate Reaches(t: Tables, user: Id, value: int) {
    exists m :: Owns(t, user, m) && t.mailboxes[m].uidValidity >= value
  }

  /** The user's greatest value falls only when its mailbox is deleted. */
  lemma ReachesStays(t: Tables, op: Op, user: Id, value: int)
    requires Inv(t) && Enabled(t, op) && Reaches(t, user, value) && !RemovesGreatest(t, op, user)
    ensures Reaches(Apply(t, op), user, value)
  {
    var u := Apply(t, op);
    var m: Id :| Owns(t, user, m) && t.mailboxes[m].uidValidity >= value;
    if m in u.mailboxes {
      hide Inv, Apply, RemovesGreatest, Enabled;
      ValidityStays(t, op, m);
      assert Owns(u, user, m);
    } else {
      hide Inv, Apply, RemovesGreatest, Enabled;
      var n := GreaterStays(t, op, user, m);
      assert Owns(u, user, n);
    }
  }

  /** When a mailbox goes that is not the greatest, a greater one stays. */
  lemma GreaterStays(t: Tables, op: Op, user: Id, m: Id) returns (n: Id)
    requires Enabled(t, op) && !RemovesGreatest(t, op, user) && Owns(t, user, m) && m !in Apply(t, op).mailboxes
    ensures Owns(t, user, n) && t.mailboxes[n].uidValidity > t.mailboxes[m].uidValidity
    ensures Owns(Apply(t, op), user, n) && Apply(t, op).mailboxes[n] == t.mailboxes[n]
  {
    OnlyDeletingRemoves(t, op, m);
    DeletedRows(t, op.user, op.name);
    hide DeleteMailbox, EqualFold, FindMailbox;
    n :| Owns(t, user, n) && t.mailboxes[n].uidValidity > t.mailboxes[m].uidValidity;
  }

  lemma NextIsAbove(t: Tables, user: Id, value: int, now: Time)
    requires Reaches(t, user, value)
    ensures NextValidity(t, user, now) > value
  {
    var m :| Owns(t, user, m) && t.mailboxes[m].uidValidity >= value;
    assert m in UserMailboxes(t, user);
    MaxValidityIsMaximum(t, UserMailboxes(t, user));
  }

  /** Between two states nobody deletes the user's mailbox with the greatest
      value. */
  ghost predicate GreatestStays(states: seq<Tables>, ops: seq<Op>, user: Id, i: nat, j: nat)
    requires |states| == |ops| + 1 && j <= |ops|
  {
    forall k :: i <= k < j ==> !RemovesGreatest(states[k], ops[k], user)
  }

  lemma StepOf(states: seq<Tables>, ops: seq<Op>, i: nat)
    requires Run(states, ops) && i < |ops|
    ensures |states| == |ops| + 1 && Enabled(states[i], ops[i]) && states[i + 1] == Apply(states[i], ops[i])
  {
  }

  lemma RunLength(states: seq<Tables>, ops: seq<Op>)
    requires Run(states, ops)
    ensures |states| == |ops| + 1
  {
  }

  lemma StaysAtEnd(states: seq<Tables>, ops: seq<Op>, user: Id, i: nat, j: nat)
    requires |states| == |ops| + 1 && i < j <= |ops| && GreatestStays(states, ops, user, i, j)
    ensures !RemovesGreatest(states[j - 1], ops[j - 1], user) && GreatestStays(states, ops, user, i, j - 1)
  {
    hide RemovesGreatest;
  }

  lemma {:induction false} ReachesOverRun(states: seq<Tables>, ops: seq<Op>, user: Id, i: nat, j: nat, value: int)
    requires Run(states, ops) && i <= j < |states| && GreatestStays(states, ops, user, i, j)
             && Reaches(states[i], user, value)
    ensures Reaches(states[j], user, value)
    decreases j
  {
    hide *;
    RunLength(states, ops);
    if i < j {
      var t, op := states[j - 1], ops[j - 1];
      StepOf(states, ops, j - 1);
      StaysAtEnd(states, ops, user, i, j);
      ReachesOverRun(states, ops, user, i, j - 1, value);
      RunKeepsInvariant(states, ops, j - 1);
      ReachesStays(t, op, user, value);
    }
  }

  /** While nobody deletes the user's mailbox with the greatest UIDVALIDITY, every
      mailbox that was not there before gets a greater value than all that were. */
  lemma {:induction false} NewValuesAreGreater(states: seq<Tables>, ops: seq<Op>, user: Id, i: nat, j: nat, n: Id,
      m: Id)
    requires Run(states, ops) && i <= j < |states| && GreatestStays(states, ops, user, i, j)
    requires Owns(states[i], user, n) && Owns(states[j], user, m) && m !in states[i].mailboxes
    ensures states[j].mailboxes[m].uidValidity > states[i].mailboxes[n].uidValidity
    decreases j
  {
    var t, op := states[j - 1], ops[j - 1];
    RunEvolves(states, ops, i, j - 1);
    if m in t.mailboxes {
      ValidityStays(t, op, m);
      NewValuesAreGreater(states, ops, user, i, j - 1, n, m);
    } else {
      OnlyCreatingAdds(t, op, m);
      assert user in t.users;
      var value := states[i].mailboxes[n].uidValidity;
      assert Reaches(states[i], user, value);
      ReachesOverRun(states, ops, user, i, j - 1, value);
      NextIsAbove(t, user, value, op.now);
    }
  }

  /** So then a UID together with a UIDVALIDITY of the user names one message in
      all states between, whatever mailboxes come and go. */
  lemma UidWithValidityNamesOneMessage(states: seq<Tables>, ops: seq<Op>, user: Id, i: nat, j: nat, e: Id, f: Id)
    requires Run(states, ops) && i <= j < |states| && GreatestStays(states, ops, user, i, j)
    requires e in states[i].entries && Owns(states[i], user, states[i].entries[e].mailbox)
    requires f in states[j].entries && Owns(states[j], user, states[j].entries[f].mailbox)
    requires states[i].mailboxes[states[i].entries[e].mailbox].uidValidity
             == states[j].mailboxes[states[j].entries[f].mailbox].uidValidity
    requires states[i].entries[e].uid == states[j].entries[f].uid
    ensures e == f && states[i].entries[e].message == states[j].entries[f].message
  {
    var n, m := states[i].entries[e].mailbox, states[j].entries[f].mailbox;
    if m in states[i].mailboxes {
      SameValueSameMailbox(states, ops, user, i, j, n, m);
      UidNeverReassigned(states, ops, i, j, e, f);
    } else {
      NewValuesAreGreater(states, ops, user, i, j, n, m);
    }
  }

  lemma SameValueSameMailbox(states: seq<Tables>, ops: seq<Op>, user: Id, i: nat, j: nat, n: Id, m: Id)
    requires Run(states, ops) && i <= j < |states|
    requires Owns(states[i], user, n) && m in states[i].mailboxes && Owns(states[j], user, m)
    requires states[i].mailboxes[n].uidValidity == states[j].mailboxes[m].uidValidity
    ensures n == m
  {
    RunEvolves(states, ops, i, j);
    hide ForeignKeys, UsedIds, Uids, DraftsNeverHidden, Indexed, QueueKeys, NoRevival, EntriesStable, Retained,
         DraftsHeld, EqualFold;
  }

  // --------------------------------------------------------------- converse

  ghost predicate HasInbox(t: Tables, user: Id) {
    exists m :: Names(t, m, user, INBOX)
  }

  lemma InboxOfNewUser(t: Tables, quota: nat, now: Time)
    ensures HasInbox(CreateUser(t, quota, now), t.nextId)
  {
    var u := CreateUser(t, quota, now);
    EqualFoldReflexive(INBOX);
    hide EqualFold;
    assert SYSTEM_MAILBOXES[0] == INBOX;
    assert u.mailboxes[t.nextId + 1] == SystemRow(t.nextId, t.nextId + 1, now, t.nextId + 1);
    assert Names(u, t.nextId + 1, t.nextId, INBOX);
  }

  lemma FoldsCompose(a: string, b: string, c: string)
    requires EqualFold(a, b) && EqualFold(a, c)
    ensures EqualFold(b, c)
  {
  }

  lemma InboxIsNotDeleted(t: Tables, user: Id, name: string, m: Id)
    requires Names(t, m, user, INBOX) && DeleteMailbox(t, user, name).Some?
    ensures FindMailbox(t, user, name).value != m
  {
    var box := FindMailbox(t, user, name).value;
    if box == m {
      FoldsCompose(t.mailboxes[m].name, name, INBOX);
      assert SYSTEM_MAILBOXES[0] == INBOX;
      assert IsSystemName(name);
    }
  }

  lemma InboxIsNotRenamed(t: Tables, user: Id, name: string, newName: string, m: Id)
    requires Names(t, m, user, INBOX) && RenameMailbox(t, user, name, newName).Some?
    ensures FindMailbox(t, user, name).value != m
  {
  }

  lemma InboxStays(t: Tables, op: Op, user: Id)
    requires Inv(t) && Enabled(t, op) && user in t.users && HasInbox(t, user)
    ensures HasInbox(Apply(t, op), user)
  {
    var m: Id :| Names(t, m, user, INBOX);
    if ChangesRows(op) {
      assert m < t.nextId;
      hide Inv;
      InboxStaysNamed(t, op, user, m);
    } else {
      RowsStay(t, op);
      hide Inv, Apply, EqualFold;
      assert Names(Apply(t, op), m, user, INBOX);
    }
  }

  lemma InboxStaysNamed(t: Tables, op: Op, user: Id, m: Id)
    requires Enabled(t, op) && ChangesRows(op) && m < t.nextId && Names(t, m, user, INBOX)
    ensures Names(Apply(t, op), m, user, INBOX)
  {
    if op.OpDeleteMailbox? {
      if DeleteMailbox(t, op.user, op.name).Some? {
        DeletedRows(t, op.user, op.name);
        if op.user == user {
          InboxIsNotDeleted(t, user, op.name, m);
        }
      }
    } else if op.OpRenameMailbox? {
      if op.user == user && RenameMailbox(t, user, op.name, op.newName).Some? {
        InboxIsNotRenamed(t, user, op.name, op.newName, m);
      }
    }
    hide DeleteMailbox, EqualFold, IsSystemName;
  }

  lemma NewUserHasInbox(t: Tables, op: Op, user: Id)
    requires Enabled(t, op) && user !in t.users && user in Apply(t, op).users
    ensures HasInbox(Apply(t, op), user)
  {
    UsersAdded(t, op, user);
    InboxOfNewUser(t, op.quota, op.now);
    hide HasInbox, CreateUser;
  }

  /** Every account keeps its inbox: it is never renamed or deleted. */
  lemma {:induction false} InboxesOverRun(states: seq<Tables>, ops: seq<Op>, i: nat, user: Id)
    requires Run(states, ops) && i < |states| && user in states[i].users
    ensures HasInbox(states[i], user)
    decreases i
  {
    var t, op := states[i - 1], ops[i - 1];
    assert Enabled(t, op) && states[i] == Apply(t, op);
    RunKeepsInvariant(states, ops, i - 1);
    hide *;
    if user in t.users {
      InboxesOverRun(states, ops, i - 1, user);
      InboxStays(t, op, user);
    } else {
      NewUserHasInbox(t, op, user);
    }
  }

  lemma UsersAdded(t: Tables, op: Op, user: Id)
    requires Enabled(t, op) && user !in t.users && user in Apply(t, op).users
    ensures op.OpCreateUser? && user == t.nextId
  {
    hide DeleteMailbox, EqualFold;
    if op.OpDeleteMailbox? {
      if DeleteMailbox(t, op.user, op.name).Some? {
        DeletedRows(t, op.user, op.name);
      }
    } else if !ChangesRows(op) {
      RowsStay(t, op);
    }
  }

  /** All values of the user lie below this one. */
  ghost predicate Below(t: Tables, user: Id, value: int) {
    forall m :: Owns(t, user, m) ==> t.mailboxes[m].uidValidity < value
  }

  lemma BelowStays(t: Tables, op: Op, user: Id, value: int)
    requires Inv(t) && Enabled(t, op) && user in t.users && Below(t, user, value) && !Creates(t, op, user)
    ensures Below(Apply(t, op), user, value)
  {
    var u := Apply(t, op);
    forall m | Owns(u, user, m) ensures u.mailboxes[m].uidValidity < value {
      if m in t.mailboxes {
        ValidityStays(t, op, m);
      } else {
        OnlyCreatingAdds(t, op, m);
      }
    }
  }

  ghost predicate NoneCreated(states: seq<Tables>, ops: seq<Op>, user: Id, i: nat, j: nat)
    requires |states| == |ops| + 1 && j <= |ops|
  {
    forall k :: i <= k < j ==> !Creates(states[k], ops[k], user)
  }

  lemma {:induction false} BelowOverRun(states: seq<Tables>, ops: seq<Op>, user: Id, i: nat, j: nat, value: int)
    requires Run(states, ops) && i <= j < |states| && user in states[i].users && Below(states[i], user, value)
    requires NoneCreated(states, ops, user, i, j)
    ensures Below(states[j], user, value)
    decreases j
  {
    hide Below, Creates, Inv, Apply, Enabled;
    if i < j {
      BelowOverRun(states, ops, user, i, j - 1, value);
      KnownAlways(states, ops, user, i, j - 1);
      assert states[j] == Apply(states[j - 1], ops[j - 1]);
      hide Run, NoneCreated;
      BelowStays(states[j - 1], ops[j - 1], user, value);
    }
  }

  lemma KnownAlways(states: seq<Tables>, ops: seq<Op>, user: Id, i: nat, j: nat)
    requires Run(states, ops) && i <= j < |states| && user in states[i].users
    ensures user in states[j].users && Inv(states[j])
  {
    RunEvolves(states, ops, i, j);
    hide Inv, UidsStable, EntriesStable, Retained, DraftsHeld, Run;
  }

  lemma GreatestGone(t: Tables, op: Op, user: Id)
    requires Inv(t) && Enabled(t, op) && RemovesGreatest(t, op, user)
    ensures var box := FindMailbox(t, user, op.name).value;
            Owns(t, user, box) && user in t.users && user in Apply(t, op).users
              && Below(Apply(t, op), user, t.mailboxes[box].uidValidity)
  {
    DeletedRows(t, user, op.name);
    hide DeleteMailbox, EqualFold, UsedIds, Uids, DraftsNeverHidden, Indexed, QueueKeys;
  }

  lemma NextIsNotAbove(t: Tables, user: Id, value: int, now: Time)
    requires Below(t, user, value) && HasInbox(t, user)
    ensures NextValidity(t, user, now) <= value
  {
    hide EqualFold;
    var m: Id :| Names(t, m, user, INBOX);
    assert m in UserMailboxes(t, user);
    MaxValidityIsMaximum(t, UserMailboxes(t, user));
    var top :| top in UserMailboxes(t, user) && t.mailboxes[top].uidValidity == MaxValidity(t, UserMailboxes(t, user));
    assert Owns(t, user, top);
  }

  /** After the mailbox with the greatest value is deleted at step k, the next one
      created for the user, at whatever later step l, gets no greater value. */
  lemma DeletingTheGreatestLowersTheNext(states: seq<Tables>, ops: seq<Op>, user: Id, k: nat, l: nat)
    requires Run(states, ops) && k < l < |ops| && RemovesGreatest(states[k], ops[k], user)
    requires Creates(states[l], ops[l], user) && NoneCreated(states, ops, user, k + 1, l)
    ensures var box := FindMailbox(states[k], user, ops[k].name).value;
            && Owns(states[k], user, box) && Owns(states[l + 1], user, states[l].nextId)
            && states[l + 1].mailboxes[states[l].nextId].uidValidity <= states[k].mailboxes[box].uidValidity
  {
    var value := states[k].mailboxes[FindMailbox(states[k], user, ops[k].name).value].uidValidity;
    RunKeepsInvariant(states, ops, k);
    GreatestGone(states[k], ops[k], user);
    assert states[k + 1] == Apply(states[k], ops[k]) && states[l + 1] == Apply(states[l], ops[l]);
    BelowOverRun(states, ops, user, k + 1, l, value);
    RunEvolves(states, ops, k + 1, l);
    InboxesOverRun(states, ops, l, user);
    NextIsNotAbove(states[l], user, value, ops[l].now);
    CreatedRow(states[l], user, ops[l].name, ops[l].now);
  }

  lemma CreatedRow(t: Tables, user: Id, name: string, now: Time)
    requires CreateMailbox(t, user, name, now).Some?
    ensures var u := CreateMailbox(t, user, name, now).value;
            && Owns(u, user, t.nextId)
            && u.mailboxes == t.mailboxes[t.nextId := Mailbox(user, name, NextValidity(t, user, now), 1, true)]
            && u.users == t.users && u.entries == t.entries && u.queue == t.queue && u.nextId == t.nextId + 1
  {
    hide EqualFold, NextValidity;
  }

  // ---------------------------------------------------------- exact condition

  /** The created mailbox gets a value above all the user has had before. */
  ghost predicate Rises(states: seq<Tables>, user: Id, l: nat)
    requires l + 1 < |states|
  {
    forall i, n :: 0 <= i <= l && Owns(states[i], user, n) && Owns(states[l + 1], user, states[l].nextId) ==>
      states[l + 1].mailboxes[states[l].nextId].uidValidity > states[i].mailboxes[n].uidValidity
  }

  ghost predicate AllRise(states: seq<Tables>, ops: seq<Op>, user: Id)
    requires |states| == |ops| + 1
  {
    forall l :: 0 <= l < |ops| && Creates(states[l], ops[l], user) ==> Rises(states, user, l)
  }

  /** A mailbox is created for the user after the one with the greatest value at
      the time has been deleted. */
  ghost predicate CreatedAfterGreatestRemoved(states: seq<Tables>, ops: seq<Op>, user: Id)
    requires |states| == |ops| + 1
  {
    exists k, l :: 0 <= k < l < |ops| && RemovesGreatest(states[k], ops[k], user) && Creates(states[l], ops[l], user)
  }

  lemma {:induction false} FirstCreation(states: seq<Tables>, ops: seq<Op>, user: Id, k: nat, l: nat)
      returns (first: nat)
    requires |states| == |ops| + 1 && k <= l < |ops| && Creates(states[l], ops[l], user)
    ensures k <= first <= l && Creates(states[first], ops[first], user) && NoneCreated(states, ops, user, k, first)
    decreases l - k
  {
    hide Creates;
    if Creates(states[k], ops[k], user) {
      first := k;
    } else {
      first := FirstCreation(states, ops, user, k + 1, l);
    }
  }

  lemma RisesUnlessRemoved(states: seq<Tables>, ops: seq<Op>, user: Id, l: nat)
    requires Run(states, ops) && l < |ops| && Creates(states[l], ops[l], user)
    requires !CreatedAfterGreatestRemoved(states, ops, user)
    ensures Rises(states, user, l)
  {
    assert |states| == |ops| + 1;
    hide Creates, RemovesGreatest, Run;
    forall i, n | 0 <= i <= l && Owns(states[i], user, n) && Owns(states[l + 1], user, states[l].nextId)
      ensures states[l + 1].mailboxes[states[l].nextId].uidValidity > states[i].mailboxes[n].uidValidity
    {
      RemovedBefore(states, ops, user, i, l);
      IdIsNew(states, ops, i, l);
      NewValuesAreGreater(states, ops, user, i, l + 1, n, states[l].nextId);
    }
  }

  lemma RemovedBefore(states: seq<Tables>, ops: seq<Op>, user: Id, i: nat, l: nat)
    requires |states| == |ops| + 1 && i <= l < |ops| && Creates(states[l], ops[l], user)
    requires !CreatedAfterGreatestRemoved(states, ops, user)
    ensures GreatestStays(states, ops, user, i, l + 1)
  {
    assert !RemovesGreatest(states[l], ops[l], user);
    hide Creates, RemovesGreatest;
  }

  lemma IdIsNew(states: seq<Tables>, ops: seq<Op>, i: nat, l: nat)
    requires Run(states, ops) && i <= l < |states|
    ensures states[l].nextId !in states[i].mailboxes
  {
    RunEvolves(states, ops, i, l);
    hide Run, ForeignKeys, Uids, MailboxKeys, Indexed, QueueKeys, DraftsNeverHidden, UidsStable, EntriesStable,
         Retained, DraftsHeld;
  }

  /** In a run, every value given to the user is above all earlier ones exactly
      when no mailbox is created after the one with the greatest value was
      deleted. */
  lemma ValuesRiseExactlyWhen(states: seq<Tables>, ops: seq<Op>, user: Id)
    requires Run(states, ops)
    ensures AllRise(states, ops, user) <==> !CreatedAfterGreatestRemoved(states, ops, user)
  {
    assert |states| == |ops| + 1;
    hide Creates, RemovesGreatest, Run, Rises;
    if !CreatedAfterGreatestRemoved(states, ops, user) {
      forall l | 0 <= l < |ops| && Creates(states[l], ops[l], user) ensures Rises(states, user, l) {
        RisesUnlessRemoved(states, ops, user, l);
      }
    } else {
      var k, l :| 0 <= k < l < |ops| && RemovesGreatest(states[k], ops[k], user) && Creates(states[l], ops[l], user);
      var first := FirstCreation(states, ops, user, k + 1, l);
      DoesNotRise(states, ops, user, k, first);
    }
  }

  lemma DoesNotRise(states: seq<Tables>, ops: seq<Op>, user: Id, k: nat, l: nat)
    requires Run(states, ops) && k < l < |ops| && RemovesGreatest(states[k], ops[k], user)
    requires Creates(states[l], ops[l], user) && NoneCreated(states, ops, user, k + 1, l)
    ensures !Rises(states, user, l)
  {
    DeletingTheGreatestLowersTheNext(states, ops, user, k, l);
    hide Creates, Run, NoneCreated;
    var box := FindMailbox(states[k], user, ops[k].name).value;
    assert Owns(states[k], user, box);
  }

  // ------------------------------------------------------------- failing run

  lemma CreateFits(t: Tables, user: Id, name: string, now: Time)
    requires user in t.users && |UserMailboxes(t, user)| < MAX_MAILBOXES && forall m :: !Names(t, m, user, name)
    ensures CreateMailbox(t, user, name, now).Some?
  {
  }

  /** Deleting an empty mailbox drops its row and nothing else. */
  lemma DeleteEmpty(t: Tables, user: Id, name: string, m: Id)
    requires MailboxKeys(t) && Names(t, m, user, name) && !IsSystemName(name) && EntriesIn(t, m) == {}
    ensures DeleteMailbox(t, user, name).Some?
    ensures var u := DeleteMailbox(t, user, name).value;
            u.mailboxes == t.mailboxes - {m} && u.users == t.users && u.entries == t.entries && u.nextId == t.nextId
  {
    var box := FindMailbox(t, user, name).value;
    OneMailboxPerName(t, user, name, m, box);
    hide EqualFold;
    assert Orphans(t, {}) == {};
  }

  /** A user without entries in any mailbox but these, with room for more. */
  ghost predicate Roomy(t: Tables, user: Id, free: nat) {
    Inv(t) && user in t.users && UserMailboxes(t, user) != {} && |UserMailboxes(t, user)| + free <= MAX_MAILBOXES
  }

  ghost predicate Unnamed(t: Tables, user: Id, name: string) {
    !IsSystemName(name) && forall m :: !Names(t, m, user, name)
  }

  lemma RoomyWithOneMore(t: Tables, u: Tables, user: Id, name: string, now: Time, free: nat)
    requires Roomy(t, user, free) && free > 0 && CreateMailbox(t, user, name, now) == Some(u)
    ensures Roomy(u, user, free - 1)
  {
    CreateMailboxKeeps(t, user, name, now);
    CreatedRow(t, user, name, now);
    assert UsedIds(t);
    hide CreateMailbox, Inv, Evolves, NextValidity;
    MailboxAdded(t, u, user, Mailbox(user, name, NextValidity(t, user, now), 1, true));
    hide UserMailboxes, UsedIds;
  }

  lemma MailboxAdded(t: Tables, u: Tables, user: Id, row: Mailbox)
    requires UsedIds(t) && row.user == user && u.mailboxes == t.mailboxes[t.nextId := row]
    ensures UserMailboxes(u, user) == UserMailboxes(t, user) + {t.nextId} && t.nextId !in UserMailboxes(t, user)
    ensures |UserMailboxes(u, user)| == |UserMailboxes(t, user)| + 1
  {
    assert UserMailboxes(u, user) == UserMailboxes(t, user) + {t.nextId};
  }

  /** Creating a mailbox: one more row, with a value one above the others. */
  lemma CreateOne(t: Tables, user: Id, name: string, now: Time, free: nat) returns (u: Tables)
    requires Roomy(t, user, free) && free > 0 && Unnamed(t, user, name)
    ensures CreateMailbox(t, user, name, now) == Some(u) && Roomy(u, user, free - 1)
    ensures u.mailboxes ==
            t.mailboxes[t.nextId := Mailbox(user, name, MaxValidity(t, UserMailboxes(t, user)) + 1, 1, true)]
    ensures u.nextId == t.nextId + 1 && t.nextId !in t.mailboxes && u.entries == t.entries
    ensures EntriesIn(t, t.nextId) == {}
  {
    CreateFits(t, user, name, now);
    u := CreateMailbox(t, user, name, now).value;
    CreatedRow(t, user, name, now);
    RoomyWithOneMore(t, u, user, name, now, free);
    assert UsedIds(t) && ForeignKeys(t);
    hide CreateMailbox, EqualFold, Inv, Uids;
  }

  lemma DeleteOne(t: Tables, user: Id, name: string, m: Id, free: nat) returns (u: Tables)
    requires Roomy(t, user, free) && Names(t, m, user, name) && !IsSystemName(name) && EntriesIn(t, m) == {}
    requires UserMailboxes(t, user) != {m}
    ensures DeleteMailbox(t, user, name) == Some(u) && Roomy(u, user, free + 1)
    ensures u.mailboxes == t.mailboxes - {m} && u.nextId == t.nextId && u.entries == t.entries
  {
    DeleteEmpty(t, user, name, m);
    u := DeleteMailbox(t, user, name).value;
    DeleteMailboxKeeps(t, user, name);
    hide DeleteMailbox, EqualFold, Inv, Evolves;
    assert UserMailboxes(u, user) == UserMailboxes(t, user) - {m};
  }

  lemma SameUsersRows(t: Tables, u: Tables, user: Id)
    requires UserMailboxes(u, user) == UserMailboxes(t, user) != {}
    requires forall m :: Owns(t, user, m) ==> Owns(u, user, m) && u.mailboxes[m] == t.mailboxes[m]
    ensures MaxValidity(u, UserMailboxes(u, user)) == MaxValidity(t, UserMailboxes(t, user))
  {
    assert forall m :: m in UserMailboxes(t, user) ==> Owns(t, user, m);
    SameMaximum(t, u, UserMailboxes(t, user));
  }

  lemma StillUnnamed(t: Tables, u: Tables, user: Id, name: string, m: Id)
    requires Unnamed(t, user, name) && m !in t.mailboxes
    requires forall n :: n in u.mailboxes && n != m ==> n in t.mailboxes && u.mailboxes[n] == t.mailboxes[n]
    requires m in u.mailboxes ==> !EqualFold(u.mailboxes[m].name, name)
    ensures Unnamed(u, user, name)
  {
    hide EqualFold, IsSystemName;
    forall n ensures !Names(u, n, user, name) {
      assert !Names(t, n, user, name);
    }
  }

  lemma MaxOfCreated(t: Tables, u: Tables, user: Id, m: Id)
    requires UserMailboxes(t, user) != {} && Owns(u, user, m) && m !in t.mailboxes
             && u.mailboxes == t.mailboxes[m := u.mailboxes[m]]
    requires u.mailboxes[m].uidValidity == MaxValidity(t, UserMailboxes(t, user)) + 1
    ensures MaxValidity(u, UserMailboxes(u, user)) == u.mailboxes[m].uidValidity
  {
    assert UserMailboxes(u, user) == UserMailboxes(t, user) + {m};
    MaxValidityIsMaximum(t, UserMailboxes(t, user));
    MaxValidityIsMaximum(u, UserMailboxes(u, user));
  }

  function NewRow(user: Id, name: string, value: int): Mailbox {
    Mailbox(user, name, value, 1, true)
  }

  /** Two mailboxes in a row get consecutive values. */
  lemma CreateBoth(t: Tables, user: Id, a: string, b: string, now: Time, value: int) returns (t1: Tables, t2: Tables)
    requires Roomy(t, user, 2) && Unnamed(t, user, a) && Unnamed(t, user, b) && !EqualFold(a, b)
    requires value == MaxValidity(t, UserMailboxes(t, user)) + 1
    ensures CreateMailbox(t, user, a, now) == Some(t1) && CreateMailbox(t1, user, b, now) == Some(t2)
    ensures t.nextId !in t.mailboxes && t.nextId + 1 !in t.mailboxes
    ensures t1.mailboxes == t.mailboxes[t.nextId := NewRow(user, a, value)]
    ensures t2.mailboxes == t1.mailboxes[t.nextId + 1 := NewRow(user, b, value + 1)]
    ensures Roomy(t2, user, 0) && t2.nextId == t.nextId + 2 && EntriesIn(t2, t.nextId) == {}
            && EntriesIn(t2, t.nextId + 1) == {}
  {
    hide EqualFold, CreateMailbox, Roomy, Unnamed, IsSystemName;
    RoomyHasSome(t, user, 2);
    t1 := CreateOne(t, user, a, now, 2);
    MaxOfCreated(t, t1, user, t.nextId);
    StillUnnamed(t, t1, user, b, t.nextId);
    t2 := CreateOne(t1, user, b, now, 1);
    assert EntriesIn(t2, t.nextId) == EntriesIn(t, t.nextId) && EntriesIn(t2, t.nextId + 1) == EntriesIn(t1, t1.nextId);
  }

  lemma RoomyHasSome(t: Tables, user: Id, free: nat)
    requires Roomy(t, user, free)
    ensures UserMailboxes(t, user) != {} && UserMailboxes(t, user) <= t.mailboxes.Keys && Inv(t)
  {
  }

  lemma NewRowIsNamed(t: Tables, user: Id, name: string, value: int, m: Id)
    requires m in t.mailboxes && t.mailboxes[m] == NewRow(user, name, value)
    ensures Names(t, m, user, name)
  {
    EqualFoldReflexive(name);
  }

  lemma TwoRows(rows: map<Id, Mailbox>, more: map<Id, Mailbox>, first: Id, second: Id, a: Mailbox, b: Mailbox)
    requires first != second && first !in rows && second !in rows && more == rows[first := a][second := b]
    ensures first in more && more[first] == a && second in more - {first} && (more - {first})[second] == b
    ensures forall n :: n in rows ==>
            n in more && more[n] == rows[n] && n in more - {first} && (more - {first})[n] == rows[n]
    ensures more - {first} - {second} == rows
  {
  }

  lemma SameEntriesIn(t: Tables, u: Tables, m: Id)
    requires u.entries == t.entries
    ensures EntriesIn(u, m) == EntriesIn(t, m)
  {
  }

  /** Deleting both again, the lesser first, leaves the rows as they were. */
  lemma DeleteBoth(t: Tables, t1: Tables, t2: Tables, user: Id, a: string, b: string, value: int)
      returns (t3: Tables, t4: Tables)
    requires Roomy(t, user, 2) && Roomy(t2, user, 0) && !IsSystemName(a) && !IsSystemName(b)
    requires value == MaxValidity(t, UserMailboxes(t, user)) + 1 && t.nextId !in t.mailboxes
             && t.nextId + 1 !in t.mailboxes
    requires t1.mailboxes == t.mailboxes[t.nextId := NewRow(user, a, value)]
    requires t2.mailboxes == t1.mailboxes[t.nextId + 1 := NewRow(user, b, value + 1)] && t2.nextId == t.nextId + 2
    requires EntriesIn(t2, t.nextId) == {} && EntriesIn(t2, t.nextId + 1) == {}
    ensures DeleteMailbox(t2, user, a) == Some(t3) && DeleteMailbox(t3, user, b) == Some(t4)
    ensures t3.mailboxes == t2.mailboxes - {t.nextId} && t4.mailboxes == t.mailboxes && Roomy(t4, user, 2)
            && t4.nextId == t.nextId + 2
  {
    var first, second := t.nextId, t.nextId + 1;
    RoomyHasSome(t, user, 2);
    hide *;
    TwoRows(t.mailboxes, t2.mailboxes, first, second, NewRow(user, a, value), NewRow(user, b, value + 1));
    NewRowIsNamed(t2, user, a, value, first);
    SomebodyElse(t, t2, user, first);
    t3 := DeleteOne(t2, user, a, first, 0);
    NewRowIsNamed(t3, user, b, value + 1, second);
    SameEntriesIn(t2, t3, second);
    SomebodyElse(t, t3, user, second);
    t4 := DeleteOne(t3, user, b, second, 1);
  }

  /** Which of the two deletions takes the greatest value. */
  lemma OnlyTheSecondIsGreatest(t: Tables, t1: Tables, t2: Tables, t3: Tables, user: Id, a: string, b: string,
      value: int)
    requires Inv(t2) && Inv(t3) && UserMailboxes(t, user) != {} && value == MaxValidity(t, UserMailboxes(t, user)) + 1
    requires t.nextId !in t.mailboxes && t.nextId + 1 !in t.mailboxes
    requires t1.mailboxes == t.mailboxes[t.nextId := NewRow(user, a, value)]
    requires t2.mailboxes == t1.mailboxes[t.nextId + 1 := NewRow(user, b, value + 1)]
    requires t3.mailboxes == t2.mailboxes - {t.nextId} && DeleteMailbox(t3, user, b).Some?
    ensures !RemovesGreatest(t2, OpDeleteMailbox(user, a), user) && RemovesGreatest(t3, OpDeleteMailbox(user, b), user)
  {
    EqualFoldReflexive(a);
    EqualFoldReflexive(b);
    hide EqualFold, DeleteMailbox, Inv, RemovesGreatest;
    MaxOfCreated(t, t1, user, t.nextId);
    SecondIsGreater(t1, t2, user, a, t.nextId, t.nextId + 1);
    SecondIsGreatest(t1, t3, user, b, t.nextId + 1);
  }

  /** The values need not repeat at once: create a and b, delete a, which is not
      the greatest, delete b, create a again. The last mailbox is the first one
      over again, with the same name, the same UIDVALIDITY and UIDs from 1. */
  lemma ReuseAcrossDeletions(t: Tables, user: Id, a: string, b: string, now: Time) returns (states: seq<Tables>)
    requires Roomy(t, user, 2) && Unnamed(t, user, a) && Unnamed(t, user, b) && !EqualFold(a, b)
    ensures |states| == 6 && states[0] == t
    ensures CreateMailbox(states[0], user, a, now) == Some(states[1])
            && CreateMailbox(states[1], user, b, now) == Some(states[2])
    ensures DeleteMailbox(states[2], user, a) == Some(states[3]) && DeleteMailbox(states[3], user, b) == Some(states[4])
    ensures CreateMailbox(states[4], user, a, now) == Some(states[5])
    ensures t.nextId in states[1].mailboxes && t.nextId in states[2].mailboxes && t.nextId !in states[3].mailboxes
    ensures states[4].nextId in states[5].mailboxes && states[4].nextId !in states[4].mailboxes
            && states[4].nextId == t.nextId + 2
    ensures states[5].mailboxes[states[4].nextId] == states[1].mailboxes[t.nextId]
    ensures !RemovesGreatest(states[2], OpDeleteMailbox(user, a), user)
            && RemovesGreatest(states[3], OpDeleteMailbox(user, b), user)
  {
    hide *;
    RoomyHasSome(t, user, 2);
    NotSystem(t, user, a);
    NotSystem(t, user, b);
    var value := MaxValidity(t, UserMailboxes(t, user)) + 1;
    var t1, t2 := CreateBoth(t, user, a, b, now, value);
    var t3, t4 := DeleteBoth(t, t1, t2, user, a, b, value);
    BothValid(t2, t3, user, a);
    OnlyTheSecondIsGreatest(t, t1, t2, t3, user, a, b, value);
    var t5 := CreateAgain(t, t4, user, a, now, value);
    states := [t, t1, t2, t3, t4, t5];
  }

  lemma NotSystem(t: Tables, user: Id, name: string)
    requires Unnamed(t, user, name)
    ensures !IsSystemName(name)
  {
  }

  lemma BothValid(t: Tables, u: Tables, user: Id, name: string)
    requires Roomy(t, user, 0) && DeleteMailbox(t, user, name) == Some(u)
    ensures Inv(t) && Inv(u)
  {
    hide DeleteMailbox, Inv, Evolves;
    DeleteMailboxKeeps(t, user, name);
  }

  lemma CreateAgain(t: Tables, t4: Tables, user: Id, a: string, now: Time, value: int) returns (t5: Tables)
    requires Roomy(t, user, 2) && Roomy(t4, user, 2) && Unnamed(t, user, a) && t4.mailboxes == t.mailboxes
             && t4.nextId == t.nextId + 2
    requires UserMailboxes(t, user) != {} && value == MaxValidity(t, UserMailboxes(t, user)) + 1
    ensures CreateMailbox(t4, user, a, now) == Some(t5) && t4.nextId !in t4.mailboxes
    ensures t4.nextId in t5.mailboxes && t5.mailboxes[t4.nextId] == NewRow(user, a, value)
  {
    hide EqualFold, CreateMailbox, Roomy, Unnamed, IsSystemName;
    assert UserMailboxes(t4, user) == UserMailboxes(t, user);
    SameUsersRows(t, t4, user);
    assert Unnamed(t4, user, a) by {
      SameNames(t, t4, user, a);
    }
    t5 := CreateOne(t4, user, a, now, 2);
  }

  lemma SameNames(t: Tables, u: Tables, user: Id, name: string)
    requires Unnamed(t, user, name) && u.mailboxes == t.mailboxes
    ensures Unnamed(u, user, name)
  {
    hide EqualFold, IsSystemName;
    forall m ensures !Names(u, m, user, name) {
      assert !Names(t, m, user, name);
    }
  }

  lemma SomebodyElse(t: Tables, u: Tables, user: Id, m: Id)
    requires UserMailboxes(t, user) != {} && m !in t.mailboxes && forall n :: n in t.mailboxes ==>
             n in u.mailboxes && u.mailboxes[n] == t.mailboxes[n]
    ensures UserMailboxes(u, user) != {m}
  {
    var n :| n in UserMailboxes(t, user);
    assert n in UserMailboxes(u, user);
  }

  lemma SecondIsGreater(t: Tables, u: Tables, user: Id, name: string, first: Id, second: Id)
    requires Inv(u) && Names(t, first, user, name) && Names(u, first, user, name)
             && u.mailboxes[first] == t.mailboxes[first]
    requires UserMailboxes(t, user) != {} && Owns(u, user, second)
             && u.mailboxes[second].uidValidity == MaxValidity(t, UserMailboxes(t, user)) + 1
    ensures !RemovesGreatest(u, OpDeleteMailbox(user, name), user)
  {
    MaxValidityIsMaximum(t, UserMailboxes(t, user));
    assert first in UserMailboxes(t, user);
    OneMailboxPerName(u, user, name, first, FindMailbox(u, user, name).value);
    hide EqualFold, ForeignKeys, UsedIds, Uids, DraftsNeverHidden, Indexed, QueueKeys, MailboxKeys, DeleteMailbox;
  }

  lemma SecondIsGreatest(t: Tables, u: Tables, user: Id, name: string, second: Id)
    requires Inv(u) && Names(u, second, user, name) && DeleteMailbox(u, user, name).Some?
    requires UserMailboxes(t, user) != {}
             && u.mailboxes[second].uidValidity == MaxValidity(t, UserMailboxes(t, user)) + 1
    requires forall m :: m in u.mailboxes && m != second ==> m in t.mailboxes && u.mailboxes[m] == t.mailboxes[m]
    ensures RemovesGreatest(u, OpDeleteMailbox(user, name), user)
  {
    MaxValidityIsMaximum(t, UserMailboxes(t, user));
    DeletedRows(u, user, name);
    OneMailboxPerName(u, user, name, second, FindMailbox(u, user, name).value);
    hide EqualFold, ForeignKeys, UsedIds, Uids, DraftsNeverHidden, Indexed, QueueKeys, MailboxKeys, DeleteMailbox;
    forall m | Owns(u, user, m) ensures u.mailboxes[m].uidValidity <= u.mailboxes[second].uidValidity {
      if m != second {
        assert m in UserMailboxes(t, user);
      }
    }
  }

  // ------------------------------------------------------- a concrete run

  lemma ShortIsNoSystemName(name: string)
    requires |name| == 1
    ensures !IsSystemName(name)
  {
    forall i | 0 <= i < |SYSTEM_MAILBOXES| ensures !EqualFold(name, SYSTEM_MAILBOXES[i]) {
      assert |Lower(name)| == 1 && |Lower(SYSTEM_MAILBOXES[i])| == |SYSTEM_MAILBOXES[i]| > 1;
    }
  }

  lemma SystemNamesAreLong(t: Tables, name: string)
    requires |name| == 1 && forall m :: m in t.mailboxes ==> |t.mailboxes[m].name| > 1
    ensures Unnamed(t, 0, name)
  {
    ShortIsNoSystemName(name);
    hide IsSystemName;
    forall m ensures !Names(t, m, 0, name) {
      if m in t.mailboxes {
        assert |Lower(name)| == 1 && |Lower(t.mailboxes[m].name)| > 1;
      }
    }
  }

  lemma FirstUserRows(t: Tables, quota: nat, now: Time)
    requires t.nextId == 0 && t.mailboxes == map[] && t.users == map[]
    ensures var u := CreateUser(t, quota, now);
            && u.mailboxes.Keys == {1, 2, 3, 4, 5, 6} && 0 in u.users && u.nextId == 7
            && forall m :: m in u.mailboxes ==> |u.mailboxes[m].name| > 1 && u.mailboxes[m].user == 0
  {
    var u := CreateUser(t, quota, now);
    forall m | m in u.mailboxes ensures |u.mailboxes[m].name| > 1 && u.mailboxes[m].user == 0 {
      assert u.mailboxes[m] == SystemRow(0, 1, now, m);
      assert |SYSTEM_MAILBOXES[m - 1]| > 1;
    }
  }

  lemma EmptyStore(e: Tables)
    requires e == EmptyTables
    ensures Inv(e) && e.nextId == 0 && e.mailboxes == map[] && e.users == map[]
  {
    EmptyTablesKeep();
    hide Inv;
  }

  lemma FirstUser(e: Tables, quota: nat, now: Time, a: string, b: string) returns (t: Tables)
    requires Inv(e) && e.nextId == 0 && e.mailboxes == map[] && e.users == map[] && |a| == |b| == 1
    ensures t == Apply(e, OpCreateUser(quota, now)) && t.nextId == 7
    ensures Roomy(t, 0, 2) && Unnamed(t, 0, a) && Unnamed(t, 0, b)
  {
    hide CreateUser, Inv, Evolves, Unnamed;
    t := CreateUser(e, quota, now);
    FirstUserRows(e, quota, now);
    CreateUserKeeps(e, quota, now);
    SystemNamesAreLong(t, a);
    SystemNamesAreLong(t, b);
    SixMailboxes(t);
  }

  lemma SixMailboxes(t: Tables)
    requires t.mailboxes.Keys == {1, 2, 3, 4, 5, 6} && forall m :: m in t.mailboxes ==> t.mailboxes[m].user == 0
    ensures UserMailboxes(t, 0) != {} && |UserMailboxes(t, 0)| == 6
  {
    assert UserMailboxes(t, 0) == {1, 2, 3, 4, 5, 6};
    assert 1 in UserMailboxes(t, 0);
  }

  lemma Different()
    ensures !EqualFold("a", "b")
  {
    assert Lower("a")[0] == 'a' && Lower("b")[0] == 'b';
  }

  /** Such a run from the empty store. */
  lemma RunThatReuses() returns (states: seq<Tables>, ops: seq<Op>)
    ensures Run(states, ops) && |ops| == 6 && ops[3] == OpDeleteMailbox(0, "a")
            && !RemovesGreatest(states[3], ops[3], 0)
    ensures 7 in states[2].mailboxes && 7 in states[3].mailboxes && 7 !in states[4].mailboxes
    ensures 9 in states[6].mailboxes && 9 !in states[5].mailboxes && states[6].mailboxes[9] == states[2].mailboxes[7]
    ensures CreatedAfterGreatestRemoved(states, ops, 0)
  {
    hide *;
    EmptyStore(EmptyTables);
    var t := FirstUser(EmptyTables, 0, 0, "a", "b");
    Different();
    var rest := ReuseAcrossDeletions(t, 0, "a", "b", 0);
    states := [EmptyTables] + rest;
    ops := [OpCreateUser(0, 0), OpCreateMailbox(0, "a", 0), OpCreateMailbox(0, "b", 0), OpDeleteMailbox(0, "a"),
      OpDeleteMailbox(0, "b"),
            OpCreateMailbox(0, "a", 0)];
    Applied(t, rest, states, ops);
  }

  lemma Applied(t: Tables, rest: seq<Tables>, states: seq<Tables>, ops: seq<Op>)
    requires t == Apply(EmptyTables, OpCreateUser(0, 0)) && |rest| == 6 && rest[0] == t
             && states == [EmptyTables] + rest
    requires ops == [OpCreateUser(0, 0), OpCreateMailbox(0, "a", 0), OpCreateMailbox(0, "b", 0),
             OpDeleteMailbox(0, "a"),
                     OpDeleteMailbox(0, "b"), OpCreateMailbox(0, "a", 0)]
    requires CreateMailbox(rest[0], 0, "a", 0) == Some(rest[1]) && CreateMailbox(rest[1], 0, "b", 0) == Some(rest[2])
    requires DeleteMailbox(rest[2], 0, "a") == Some(rest[3]) && DeleteMailbox(rest[3], 0, "b") == Some(rest[4])
    requires CreateMailbox(rest[4], 0, "a", 0) == Some(rest[5]) && RemovesGreatest(rest[3], OpDeleteMailbox(0, "b"), 0)
    ensures Run(states, ops) && CreatedAfterGreatestRemoved(states, ops, 0)
  {
    hide CreateMailbox, DeleteMailbox, RemovesGreatest, CreateUser;
    assert RemovesGreatest(states[4], ops[4], 0) && Creates(states[5], ops[5], 0);
  }
}
