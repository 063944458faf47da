/** Quota accounting, what the two moves conserve, and isolation of users. */
module MailQuota {
  import opened Common
  import opened MailTables
  import opened MailInvariants
  import opened MailHistory

  // ------------------------------------------------------------------- sums

  lemma {:induction false} SumRemove(m: map<Id, nat>, k: Id)
    requires k in m
    ensures Sum(m) == m[k] + Sum(m - {k})
    decreases |m|
  {
    var j :| j in m && Sum(m) == m[j] + Sum(m - {j});
    if j != k {
      SumRemove(m - {j}, k);
      assert (m - {j}) - {k} == (m - {k}) - {j};
      assert |m - {k}| < |m| by { assert (m - {k}).Keys == m.Keys - {k}; }
      SumRemove(m - {k}, j);
    }
  }

  lemma SumInsert(m: map<Id, nat>, k: Id, v: nat)
    requires k !in m
    ensures Sum(m[k := v]) == Sum(m) + v
  {
    SumRemove(m[k := v], k);
    assert m[k := v] - {k} == m;
  }

  lemma {:induction false} SumShrinks(m: map<Id, nat>, n: map<Id, nat>)
    requires forall k :: k in n ==> k in m && n[k] == m[k]
    ensures Sum(n) <= Sum(m)
    decreases |n|
  {
    if n != map[] {
      var k :| k in n;
      SumRemove(m, k);
      SumRemove(n, k);
      assert |n - {k}| < |n| by { assert (n - {k}).Keys == n.Keys - {k}; }
      SumShrinks(m - {k}, n - {k});
    }
  }

  /** Nobody uses anything of empty tables, and each entry adds the size of its
      message to the use of its user, unless it is expunged. */
  lemma UsedIs(t: Tables, e: Id, row: Entry, user: Id)
    ensures t.entries == map[] ==> Used(t, user) == 0
    ensures e !in t.entries ==>
              Used(t.(entries := t.entries[e := row]), user) ==
              Used(t, user) + if row.user == user && row.expungedAt == None && row.message in t.messages
                              then t.messages[row.message].size else 0
  {
    if t.entries == map[] {
      assert Weights(t, user) == map[];
    }
    var u := t.(entries := t.entries[e := row]);
    if e !in t.entries {
      if row.user == user && row.expungedAt == None {
        assert Weights(u, user) == Weights(t, user)[e := SizeOf(t, row.message)];
        SumInsert(Weights(t, user), e, SizeOf(t, row.message));
      } else {
        assert Weights(u, user) == Weights(t, user);
      }
    }
  }

  /** The sizes listed are added up. */
  lemma {:induction false} TotalIsSum(listed: seq<Listed>, last: Listed)
    ensures TotalSize([]) == 0 && TotalSize(listed + [last]) == TotalSize(listed) + last.size
    decreases |listed|
  {
    if listed != [] {
      assert (listed + [last])[1..] == listed[1..] + [last];
      TotalIsSum(listed[1..], last);
    } else {
      assert ([] + [last])[1..] == [];
    }
  }

  // ------------------------------------------------------- weights per step

  lemma InsertEntryWeight(t: Tables, mailbox: Id, message: Id, flags: set<Flag>, date: Time, now: Time, user: Id)
    requires t.nextId !in t.entries && mailbox in t.mailboxes
    ensures var u := InsertEntry(t, mailbox, message, flags, date, now);
            Used(u, user) == Used(t, user) + if t.mailboxes[mailbox].user == user then SizeOf(t, message) else 0
  {
    var u := InsertEntry(t, mailbox, message, flags, date, now);
    assert t.nextId !in Weights(t, user);
    if t.mailboxes[mailbox].user == user {
      assert Weights(u, user) == Weights(t, user)[t.nextId := SizeOf(t, message)];
      SumInsert(Weights(t, user), t.nextId, SizeOf(t, message));
    } else {
      assert Weights(u, user) == Weights(t, user);
    }
  }

  lemma PurgeWeight(t: Tables, gone: set<Id>, user: Id)
    ensures Used(Purge(t, gone), user) <= Used(t, user)
  {
    var u := Purge(t, gone);
    forall e | e in Weights(u, user)
      ensures e in Weights(t, user) && Weights(u, user)[e] == Weights(t, user)[e]
    {
      assert e in t.entries && e !in gone;
      assert t.entries[e].message !in Orphans(t, gone);
    }
    SumShrinks(Weights(t, user), Weights(u, user));
  }

  lemma SoftExpungeWeight(t: Tables, which: set<Id>, now: Time, user: Id)
    ensures Used(SoftExpunge(t, which, now), user) <= Used(t, user)
  {
    SumShrinks(Weights(t, user), Weights(SoftExpunge(t, which, now), user));
  }

  lemma SameWeightsSameUse(t: Tables, u: Tables, user: Id)
    requires u.messages == t.messages && u.entries.Keys == t.entries.Keys
    requires forall e :: e in t.entries ==>
               && u.entries[e].message == t.entries[e].message && u.entries[e].user == t.entries[e].user
               && (Visible(u.entries[e]) <==> Visible(t.entries[e]))
    ensures Weights(u, user) == Weights(t, user)
  {
  }

  lemma MoveStepRows(t: Tables, destination: Id, e: Id, now: Time)
    requires destination in t.mailboxes && e in t.entries && t.nextId !in t.entries
    ensures var u := MoveStep(t, destination, e, now);
            && u.messages == t.messages && u.users == t.users
            && t.nextId in u.entries && Visible(u.entries[t.nextId])
            && u.entries[t.nextId].message == t.entries[e].message
            && u.entries[t.nextId].user == t.mailboxes[destination].user
            && (e in u.entries ==> !Visible(u.entries[e]))
            && (forall x :: x != e && x != t.nextId ==> (x in u.entries <==> x in t.entries))
            && (forall x :: x in t.entries && x != e ==> u.entries[x] == t.entries[x])
  {
  }

  lemma WeightsOfStranger(t: Tables, destination: Id, e: Id, now: Time, user: Id)
    requires destination in t.mailboxes && e in t.entries && t.nextId !in t.entries
    requires t.mailboxes[destination].user == t.entries[e].user != user
    ensures Weights(MoveStep(t, destination, e, now), user) == Weights(t, user)
  {
    MoveStepRows(t, destination, e, now);
    hide MoveStep;
    var u := MoveStep(t, destination, e, now);
    forall x ensures x in Weights(u, user) <==> x in Weights(t, user) {
    }
  }

  lemma WeightsOfOwner(t: Tables, destination: Id, e: Id, now: Time, user: Id)
    requires destination in t.mailboxes && e in t.entries && t.nextId !in t.entries
    requires t.mailboxes[destination].user == t.entries[e].user == user && Visible(t.entries[e])
    ensures e in Weights(t, user) && t.nextId !in Weights(t, user)
    ensures Weights(MoveStep(t, destination, e, now), user) == (Weights(t, user) - {e})[t.nextId := Weights(t, user)[e]]
  {
    MoveStepRows(t, destination, e, now);
    var u := MoveStep(t, destination, e, now);
    var before, after := Weights(t, user), Weights(u, user);
    hide MoveStep;
    assert SizeOf(u, t.entries[e].message) == SizeOf(t, t.entries[e].message);
    assert after.Keys == before.Keys - {e} + {t.nextId};
    assert forall x :: x in before && x != e ==> after[x] == before[x];
  }

  lemma ReplaceWeight(m: map<Id, nat>, e: Id, added: Id)
    requires e in m && added !in m
    ensures var n := (m - {e})[added := m[e]]; Sum(n) == Sum(m) && |n| == |m|
  {
    SumRemove(m, e);
    SumInsert(m - {e}, added, m[e]);
    assert (m - {e}).Keys == m.Keys - {e};
    assert (m - {e})[added := m[e]].Keys == (m.Keys - {e}) + {added};
  }

  /** Retiring the moved row takes away what the copy added. */
  lemma MoveStepWeight(t: Tables, destination: Id, e: Id, now: Time, user: Id)
    requires destination in t.mailboxes && e in t.entries && Visible(t.entries[e]) && t.nextId !in t.entries
    requires t.mailboxes[destination].user == t.entries[e].user
    ensures MoveStep(t, destination, e, now).users == t.users
    ensures Used(MoveStep(t, destination, e, now), user) == Used(t, user)
    ensures |Weights(MoveStep(t, destination, e, now), user)| == |Weights(t, user)|
  {
    hide MoveStep, Weights;
    MoveStepRows(t, destination, e, now);
    if t.entries[e].user == user {
      WeightsOfOwner(t, destination, e, now, user);
      ReplaceWeight(Weights(t, user), e, t.nextId);
    } else {
      WeightsOfStranger(t, destination, e, now, user);
    }
  }

  lemma {:induction false} DeliverAllWeight(t: Tables, message: Id, deliveries: seq<Delivery>, date: Time, now: Time,
      user: Id)
    requires forall e :: e in t.entries ==> e < t.nextId
    ensures var u := DeliverAll(t, message, deliveries, date, now);
            u.Some? ==> Used(u.value, user) == Used(t, user) + SizeOf(t, message) * Copies(deliveries, user)
    decreases deliveries
  {
    hide Used, EqualFold;
    if deliveries != [] && DeliverAll(t, message, deliveries, date, now).Some? {
      var d := deliveries[0];
      var box := FindMailbox(t, d.user, if d.mailbox == "" then INBOX else d.mailbox).value;
      var v := InsertEntry(t, box, message, d.flags, date, now);
      InsertEntryWeight(t, box, message, d.flags, date, now, user);
      DeliverAllWeight(v, message, deliveries[1..], date, now, user);
      Distribute(SizeOf(t, message), if d.user == user then 1 else 0, Copies(deliveries[1..], user));
    }
  }

  lemma Distribute(a: int, b: int, c: int)
    ensures a * (b + c) == a * b + a * c
  {
  }

  lemma {:induction false} QueueAllWeight(t: Tables, message: Id, recipients: seq<string>, user: Id)
    ensures var u := QueueAll(t, message, recipients);
            u.Some? ==> u.value.entries == t.entries && u.value.messages == t.messages && u.value.users == t.users
    decreases recipients
  {
    if recipients != [] && QueueKey(message, recipients[0]) !in t.queue.Values {
      var v := t.(queue := t.queue[t.nextId := QueueKey(message, recipients[0])], nextId := t.nextId + 1);
      QueueAllWeight(v, message, recipients[1..], user);
    }
  }

  /** The listing a copy works from told the true sizes. */
  ghost predicate TrueSizes(t: Tables, listed: seq<Listed>) {
    forall i :: 0 <= i < |listed| && listed[i].message in t.messages ==> listed[i].size == SizeOf(t, listed[i].message)
  }

  lemma {:induction false} CopyAllWeight(t: Tables, mailbox: Id, listed: seq<Listed>, now: Time, user: Id)
    requires UsedIds(t) && mailbox in t.mailboxes && TrueSizes(t, listed)
    ensures var u := CopyAll(t, mailbox, listed, now);
            var added := if t.mailboxes[mailbox].user == user then TotalSize(listed) else 0;
            u.Some? ==> u.value.users == t.users && Used(u.value, user) == Used(t, user) + added
    decreases listed
  {
    if listed != [] && listed[0].message in t.messages {
      var x := listed[0];
      var v := InsertEntry(t, mailbox, x.message, x.flags + {Recent}, x.internalDate, now);
      InsertEntryWeight(t, mailbox, x.message, x.flags + {Recent}, x.internalDate, now, user);
      CopyAllWeight(v, mailbox, listed[1..], now, user);
    }
  }

  // ----------------------------------------------------------------- quotas

  ghost predicate WithinQuota(t: Tables, user: Id) {
    user in t.users && (t.users[user].quota == 0 || Used(t, user) <= t.users[user].quota)
  }

  lemma {:induction false} DeliverAllUsers(t: Tables, message: Id, deliveries: seq<Delivery>, date: Time, now: Time)
    ensures var u := DeliverAll(t, message, deliveries, date, now);
            u.Some? ==> u.value.users == t.users && u.value.messages == t.messages
    decreases deliveries
  {
    if deliveries != [] && DeliverAll(t, message, deliveries, date, now).Some? {
      var d := deliveries[0];
      var box := FindMailbox(t, d.user, if d.mailbox == "" then INBOX else d.mailbox).value;
      DeliverAllUsers(InsertEntry(t, box, message, d.flags, date, now), message, deliveries[1..], date, now);
    }
  }

  lemma {:induction false} CopiesPositive(deliveries: seq<Delivery>, user: Id)
    ensures Copies(deliveries, user) > 0 ==> exists i :: 0 <= i < |deliveries| && deliveries[i].user == user
  {
    if deliveries != [] && deliveries[0].user != user {
      CopiesPositive(deliveries[1..], user);
      if Copies(deliveries[1..], user) > 0 {
        var i :| 0 <= i < |deliveries[1..]| && deliveries[1..][i].user == user;
        assert deliveries[i + 1].user == user;
      }
    }
  }

  lemma InsertMessageWeight(t: Tables, m: Message, user: Id)
    requires UsedIds(t) && ForeignKeys(t)
    ensures Used(InsertMessage(t, m), user) == Used(t, user)
    ensures SizeOf(InsertMessage(t, m), t.nextId) == m.size
  {
    assert Weights(InsertMessage(t, m), user) == Weights(t, user);
  }

  /** The delivery phase of a save charges each user for each of its copies. */
  lemma DeliveryUse(t: Tables, m: Message, deliveries: seq<Delivery>, recipients: seq<string>,
                    date: Time, now: Time, user: Id, u: Tables, v: Tables)
    requires UsedIds(t) && ForeignKeys(t) && UsedIds(InsertMessage(t, m))
    requires DeliverAll(InsertMessage(t, m), t.nextId, deliveries, date, now) == Some(u)
    requires QueueAll(u, t.nextId, recipients) == Some(v)
    ensures Used(v, user) == Used(t, user) + m.size * Copies(deliveries, user)
    ensures v.users == t.users
  {
    InsertMessageWeight(t, m, user);
    hide UsedIds, ForeignKeys, DeliverAll, QueueAll;
    DeliverAllWeight(InsertMessage(t, m), t.nextId, deliveries, date, now, user);
    DeliverAllUsers(InsertMessage(t, m), t.nextId, deliveries, date, now);
    QueueAllWeight(u, t.nextId, recipients, user);
    assert Weights(v, user) == Weights(u, user);
  }

  lemma AllowedUse(t: Tables, size: nat, deliveries: seq<Delivery>, user: Id)
    requires WithinQuota(t, user) && QuotaAllows(t, size, deliveries)
    ensures Fits(t, user, size * Copies(deliveries, user))
  {
    hide Used;
    CopiesPositive(deliveries, user);
    if Copies(deliveries, user) > 0 {
      var i :| 0 <= i < |deliveries| && deliveries[i].user == user;
      assert Fits(t, deliveries[i].user, size * Copies(deliveries, deliveries[i].user));
    } else {
      assert size * Copies(deliveries, user) == 0;
    }
  }

  lemma DeliveryWithinQuota(t: Tables, m: Message, deliveries: seq<Delivery>, recipients: seq<string>,
                            date: Time, now: Time, user: Id, u: Tables, v: Tables)
    requires Inv(t) && WithinQuota(t, user) && QuotaAllows(t, m.size, deliveries)
    requires DeliverAll(InsertMessage(t, m), t.nextId, deliveries, date, now) == Some(u)
    requires QueueAll(u, t.nextId, recipients) == Some(v)
    ensures WithinQuota(v, user)
  {
    hide ForeignKeys, UsedIds, Uids, DraftsNeverHidden, MailboxKeys, Indexed, QueueKeys, Evolves, Used;
    hide InsertMessage, DeliverAll, QueueAll, QuotaAllows;
    InsertMessageKeeps(t, m);
    AllowedUse(t, m.size, deliveries, user);
    DeliveryUse(t, m, deliveries, recipients, date, now, user, u, v);
  }

  lemma SaveWithinQuota(t: Tables, replaced: Option<Id>, m: Message, deliveries: seq<Delivery>, recipients: seq<string>,
                        archiveFull: bool, date: Time, now: Time, user: Id)
    requires Inv(t) && WithinQuota(t, user)
    ensures var u := Save(t, replaced, m, deliveries, recipients, archiveFull, date, now);
            u.Some? ==> WithinQuota(u.value, user)
  {
    hide Inv, Evolves, QuotaAllows, Orphans, InsertMessage, DeliverAll, QueueAll, Referenced;
    var u := Save(t, replaced, m, deliveries, recipients, archiveFull, date, now);
    if u.Some? {
      var t1 := if replaced.Some? then Purge(t, EntriesOf(t, replaced.value)) else t;
      if replaced.Some? {
        PurgeKeeps(t, EntriesOf(t, replaced.value));
        PurgeWeight(t, EntriesOf(t, replaced.value), user);
      }
      var t3 := DeliverAll(InsertMessage(t1, WithDefaults(m)), t1.nextId, deliveries, date, now).value;
      DeliveryWithinQuota(t1, WithDefaults(m), deliveries, recipients, date, now, user, t3, u.value);
    }
  }

  lemma CopyWithinQuota(t: Tables, owner: Id, destination: string, listed: seq<Listed>, now: Time, user: Id)
    requires Inv(t) && WithinQuota(t, user) && TrueSizes(t, listed)
    ensures var u := Copy(t, owner, destination, listed, now);
            u.Some? ==> WithinQuota(u.value, user)
  {
    hide ForeignKeys, UsedIds, Uids, DraftsNeverHidden, MailboxKeys, Indexed, QueueKeys, EqualFold;
    var box := FindMailbox(t, owner, destination);
    if box.Some? {
      CopyAllWeight(t, box.value, listed, now, user);
    }
  }

  lemma {:induction false} MoveAllWeight(t: Tables, owner: Id, source: Id, destination: Id, selected: seq<Id>,
      now: Time, user: Id)
    requires Inv(t) && destination in t.mailboxes && t.mailboxes[destination].user == owner
    ensures var u := MoveAll(t, owner, source, destination, selected, now);
            u.users == t.users && Used(u, user) == Used(t, user) && |Weights(u, user)| == |Weights(t, user)|
    decreases selected
  {
    hide Uids, DraftsNeverHidden, MailboxKeys, Indexed, QueueKeys, Evolves, ForeignKeys;
    assert t.nextId !in t.entries;
    hide UsedIds, Weights, Used, MoveStep;
    if selected != [] {
      if Movable(t, owner, source, selected[0]) {
        MoveStepKeeps(t, destination, selected[0], now);
        MoveStepWeight(t, destination, selected[0], now, user);
        MoveAllWeight(MoveStep(t, destination, selected[0], now), owner, source, destination, selected[1..], now, user);
      } else {
        MoveAllWeight(t, owner, source, destination, selected[1..], now, user);
      }
    }
  }

  lemma RehomeConserves(t: Tables, owner: Id, e: Id, destination: string, now: Time, user: Id)
    requires e in t.entries
    ensures var u := MoveOne(t, owner, e, destination, now);
            u.Some? ==> u.value.users == t.users && Weights(u.value, user) == Weights(t, user)
  {
    hide EqualFold;
    var box := FindMailbox(t, owner, destination);
    if box.Some? {
      SameWeightsSameUse(t, Rehome(t, e, box.value, destination, now), user);
    }
  }

  lemma SelectionConserves(t: Tables, owner: Id, source: Id, destination: string, selected: seq<Id>, now: Time,
      user: Id)
    requires Inv(t)
    ensures var u := MoveSelected(t, owner, source, destination, selected, now);
            u.Some? ==> u.value.users == t.users && Used(u.value, user) == Used(t, user)
                        && |Weights(u.value, user)| == |Weights(t, user)|
  {
    hide Inv, EqualFold, Weights, Used;
    var box := FindMailbox(t, owner, destination);
    if box.Some? {
      MoveAllWeight(t, owner, source, box.value, selected, now, user);
    }
  }

  /** Both moves keep the used bytes and the number of visible entries of every user. */
  lemma MovesConserve(t: Tables, op: Op, user: Id)
    requires Inv(t) && Enabled(t, op) && (op.OpMoveSelected? || op.OpMoveOne?)
    ensures Used(Apply(t, op), user) == Used(t, user)
    ensures |Weights(Apply(t, op), user)| == |Weights(t, user)|
    ensures Apply(t, op).users == t.users
  {
    hide Inv, MoveSelected, MoveOne, Weights;
    match op
    case OpMoveSelected(owner, source, destination, selected, now) =>
      SelectionConserves(t, owner, source, destination, selected, now, user);
    case OpMoveOne(owner, _, e, destination, now) =>
      RehomeConserves(t, owner, e, destination, now, user);
  }

  /** An update of the account that lowers the quota, or sets a first one. */
  predicate LowersQuota(t: Tables, op: Op, user: Id) {
    op.OpSetUser? && op.user == user && user in t.users && op.row.quota != 0
    && (t.users[user].quota == 0 || op.row.quota < t.users[user].quota)
  }

  lemma ExpungeWithinQuota(t: Tables, owner: Id, mailbox: Id, now: Time, user: Id)
    requires WithinQuota(t, user)
    ensures var u := ExpungeDeleted(t, owner, mailbox, now);
            u.Some? ==> WithinQuota(u.value, user)
  {
    hide Purge, SoftExpunge, Used, Orphans;
    var condemned := Condemned(t, owner, mailbox);
    var drafts := DraftEntries(t, condemned);
    var purged := Purge(t, drafts);
    PurgeWeight(t, drafts, user);
    SoftExpungeWeight(purged, condemned - drafts, now, user);
    UsersUntouched(t, drafts, condemned - drafts, now);
  }

  lemma UsersUntouched(t: Tables, gone: set<Id>, which: set<Id>, now: Time)
    ensures Purge(t, gone).users == t.users && SoftExpunge(Purge(t, gone), which, now).users == t.users
  {
  }

  lemma SetTransportStatusWeight(t: Tables, message: Id, status: string, user: Id)
    ensures Used(SetTransportStatus(t, message, status), user) == Used(t, user)
  {
    assert Weights(SetTransportStatus(t, message, status), user) == Weights(t, user);
  }

  lemma RowsWithinQuota(t: Tables, u: Tables, user: Id)
    requires WithinQuota(t, user) && u.users == t.users && u.messages == t.messages && u.entries.Keys == t.entries.Keys
    requires forall e :: e in t.entries ==>
               && u.entries[e].message == t.entries[e].message && u.entries[e].user == t.entries[e].user
               && (Visible(u.entries[e]) <==> Visible(t.entries[e]))
    ensures WithinQuota(u, user)
  {
    SameWeightsSameUse(t, u, user);
  }

  lemma UsersWithinQuota(t: Tables, op: Op, user: Id)
    requires UsedIds(t) && WithinQuota(t, user) && !LowersQuota(t, op, user) && (op.OpCreateUser? || op.OpSetUser?)
    ensures WithinQuota(Apply(t, op), user)
  {
    var u := Apply(t, op);
    UsersSet(t, op, user);
    SameUse(t, u, user);
    hide Apply, Used;
  }

  lemma SameUse(t: Tables, u: Tables, user: Id)
    requires u.entries == t.entries && u.messages == t.messages
    ensures Used(u, user) == Used(t, user)
  {
    assert Weights(u, user) == Weights(t, user);
  }

  /** A transaction on accounts changes no entry, and no other account. */
  lemma UsersSet(t: Tables, op: Op, user: Id)
    requires user in t.users && UsedIds(t) && (op.OpCreateUser? || op.OpSetUser?)
    ensures var u := Apply(t, op);
            && u.entries == t.entries && u.messages == t.messages && user in u.users
            && u.users[user] == if op.OpSetUser? && op.user == user then op.row else t.users[user]
  {
  }

  lemma ExpungeOneWithinQuota(t: Tables, e: Id, now: Time, user: Id)
    requires WithinQuota(t, user) && e in t.entries
    ensures var u := ExpungeOne(t, e, now);
            u.Some? ==> WithinQuota(u.value, user)
  {
    hide Used, Orphans, Referenced;
    PurgeWeight(t, {e}, user);
    SoftExpungeWeight(t, {e}, now, user);
  }

  lemma DeleteMailboxWithinQuota(t: Tables, owner: Id, name: string, user: Id)
    requires WithinQuota(t, user)
    ensures var u := DeleteMailbox(t, owner, name);
            u.Some? ==> WithinQuota(u.value, user)
  {
    hide Orphans, Referenced, EqualFold, IsSystemName;
    var u := DeleteMailbox(t, owner, name);
    if u.Some? {
      var box := FindMailbox(t, owner, name).value;
      PurgeWeight(t, EntriesIn(t, box), user);
      assert Weights(u.value, user) == Weights(Purge(t, EntriesIn(t, box)), user);
    }
  }

  lemma MailboxRowsWithinQuota(t: Tables, op: Op, user: Id)
    requires WithinQuota(t, user) && (op.OpCreateMailbox? || op.OpRenameMailbox? || op.OpSetSubscribed?)
    ensures WithinQuota(Apply(t, op), user)
  {
    hide EqualFold, NextValidity, UserMailboxes;
    RowsWithinQuota(t, Apply(t, op), user);
  }

  lemma FlagsWithinQuota(t: Tables, op: Op, user: Id)
    requires Enabled(t, op) && WithinQuota(t, user) && (op.OpUpdateFlags? || op.OpSetEntryFlags?)
    ensures WithinQuota(Apply(t, op), user)
  {
    RowsWithinQuota(t, Apply(t, op), user);
  }

  lemma StatusWithinQuota(t: Tables, message: Id, status: string, user: Id)
    requires WithinQuota(t, user)
    ensures WithinQuota(SetTransportStatus(t, message, status), user)
  {
    SetTransportStatusWeight(t, message, status, user);
  }

  /** No transaction but lowering the quota takes a user from within quota to
      above it; a copy must only have been told the true sizes. */
  lemma QuotaIsKept(t: Tables, op: Op, user: Id)
    requires Inv(t) && Enabled(t, op) && WithinQuota(t, user) && !LowersQuota(t, op, user)
    requires op.OpCopy? ==> TrueSizes(t, op.listed)
    ensures WithinQuota(Apply(t, op), user)
  {
    hide Save, Copy, MoveSelected, MoveOne, UpdateFlags, SetEntryFlags, ExpungeOne, ExpungeDeleted, CreateMailbox;
    hide RenameMailbox, SetSubscribed, DeleteMailbox, SetTransportStatus, Used, Weights, CreateUser, SetUser;
    hide ForeignKeys, UsedIds, Uids, DraftsNeverHidden, MailboxKeys, Indexed, QueueKeys, EqualFold;
    match op
    case OpCreateUser(_, _) => UsersWithinQuota(t, op, user);
    case OpSetUser(_, _) => UsersWithinQuota(t, op, user);
    case OpSave(_, replaced, m, deliveries, recipients, full, date, now) =>
      SaveWithinQuota(t, replaced, m, deliveries, recipients, full, date, now, user);
    case OpCopy(owner, destination, listed, now) => CopyWithinQuota(t, owner, destination, listed, now, user);
    case OpMoveSelected(_, _, _, _, _) => MovesConserve(t, op, user);
    case OpMoveOne(_, _, _, _, _) => MovesConserve(t, op, user);
    case OpUpdateFlags(_, _, _, _) => FlagsWithinQuota(t, op, user);
    case OpSetEntryFlags(_, _, _, _, _) => FlagsWithinQuota(t, op, user);
    case OpExpungeOne(_, _, e, now) => ExpungeOneWithinQuota(t, e, now, user);
    case OpExpungeDeleted(owner, mailbox, now) => ExpungeWithinQuota(t, owner, mailbox, now, user);
    case OpCreateMailbox(_, _, _) => MailboxRowsWithinQuota(t, op, user);
    case OpRenameMailbox(_, _, _) => MailboxRowsWithinQuota(t, op, user);
    case OpSetSubscribed(_, _, _) => MailboxRowsWithinQuota(t, op, user);
    case OpDeleteMailbox(owner, name) => DeleteMailboxWithinQuota(t, owner, name, user);
    case OpSetTransportStatus(message, status) => StatusWithinQuota(t, message, status, user);
  }

  /** Every size in a copy was read from a listing made earlier in the run. */
  ghost predicate FromListings(states: seq<Tables>, k: nat, listed: seq<Listed>)
    requires k < |states|
  {
    forall i :: 0 <= i < |listed| ==>
      exists s :: 0 <= s <= k && listed[i].message in states[s].messages
        && states[s].messages[listed[i].message].size == listed[i].size
  }

  lemma ListingsAreTrue(states: seq<Tables>, ops: seq<Op>, k: nat, listed: seq<Listed>)
    requires Run(states, ops) && k < |states| && FromListings(states, k, listed)
    ensures TrueSizes(states[k], listed)
  {
    hide Run;
    forall i | 0 <= i < |listed| && listed[i].message in states[k].messages
      ensures listed[i].size == SizeOf(states[k], listed[i].message)
    {
      var s :| 0 <= s <= k && listed[i].message in states[s].messages
        && states[s].messages[listed[i].message].size == listed[i].size;
      ListingStaysTrue(states, ops, s, k, listed[i].message);
    }
  }

  /** A user within quota stays within it for as long as nobody lowers it, in any
      interleaving, with copies working from listings that may be out of date. */
  lemma {:induction false} QuotaOverRuns(states: seq<Tables>, ops: seq<Op>, i: nat, j: nat, user: Id)
    requires Run(states, ops) && i <= j < |states| && WithinQuota(states[i], user)
    requires forall k :: i <= k < j ==>
               !LowersQuota(states[k], ops[k], user) && (ops[k].OpCopy? ==> FromListings(states, k, ops[k].listed))
    ensures WithinQuota(states[j], user)
    decreases j - i
  {
    hide Inv, WithinQuota, LowersQuota, FromListings, TrueSizes;
    if i < j {
      QuotaOverRuns(states, ops, i, j - 1, user);
      RunKeepsInvariant(states, ops, j - 1);
      if ops[j - 1].OpCopy? {
        ListingsAreTrue(states, ops, j - 1, ops[j - 1].listed);
      }
      QuotaIsKept(states[j - 1], ops[j - 1], user);
    }
  }
}
