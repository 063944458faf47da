/** Which values a user's mailboxes get over a run, and when two of them ever
    share one. */
module MailUidReuse {
  import opened Common
  import opened MailTables
  import opened MailInvariants
  import opened MailHistory
  import opened MailUidValidity

  /** Some mailbox of the user had this UIDVALIDITY by step i. */
  ghost predicate Had(states: seq<Tables>, user: Id, i: nat, value: int)
    requires i < |states|
  {
    exists k, n :: 0 <= k <= i && Owns(states[k], user, n) && states[k].mailboxes[n].uidValidity == value
  }

  /** A mailbox of the user that the transaction adds. */
  ghost predicate Adds(t: Tables, u: Tables, user: Id, value: int) {
    exists m :: Owns(u, user, m) && m !in t.mailboxes && u.mailboxes[m].uidValidity == value
  }

  lemma HadNow(states: seq<Tables>, user: Id, i: nat, n: Id)
    requires i < |states| && Owns(states[i], user, n)
    ensures Had(states, user, i, states[i].mailboxes[n].uidValidity)
  {
  }

  lemma HadStays(states: seq<Tables>, user: Id, i: nat, j: nat, value: int)
    requires i <= j < |states| && Had(states, user, i, value)
    ensures Had(states, user, j, value)
  {
    var k, n :| 0 <= k <= i && Owns(states[k], user, n) && states[k].mailboxes[n].uidValidity == value;
    assert 0 <= k <= j && Owns(states[k], user, n);
  }

  lemma OwnedBefore(states: seq<Tables>, ops: seq<Op>, user: Id, i: nat, n: Id)
    requires Run(states, ops) && 0 < i < |states| && Owns(states[i], user, n) && n in states[i - 1].mailboxes
    ensures Had(states, user, i - 1, states[i].mailboxes[n].uidValidity)
  {
    hide Run, Inv, Apply, Had, Enabled;
    RunLength(states, ops);
    RunKeepsInvariant(states, ops, i - 1);
    StepOf(states, ops, i - 1);
    ValidityStays(states[i - 1], ops[i - 1], n);
    HadNow(states, user, i - 1, n);
  }

  /** What a user had by a step, it had before or the step added. */
  lemma HadOrAdded(states: seq<Tables>, ops: seq<Op>, user: Id, i: nat, value: int)
    requires Run(states, ops) && 0 < i < |states| && Had(states, user, i, value)
    ensures Had(states, user, i - 1, value) || Adds(states[i - 1], states[i], user, value)
  {
    var k, n :| 0 <= k <= i && Owns(states[k], user, n) && states[k].mailboxes[n].uidValidity == value;
    if k < i {
      assert 0 <= k <= i - 1 && Owns(states[k], user, n);
    } else if n in states[i - 1].mailboxes {
      OwnedBefore(states, ops, user, i, n);
    }
  }

  /** An account that is not there has had no mailboxes. */
  lemma NothingHad(states: seq<Tables>, ops: seq<Op>, user: Id, i: nat, value: int)
    requires Run(states, ops) && i < |states| && user !in states[i].users
    ensures !Had(states, user, i, value)
  {
    if Had(states, user, i, value) {
      var k, n :| 0 <= k <= i && Owns(states[k], user, n) && states[k].mailboxes[n].uidValidity == value;
      RunKeepsInvariant(states, ops, k);
      assert user in states[k].users;
      hide Inv, Run;
      KnownAlways(states, ops, user, k, i);
    }
  }

  /** The greatest value at the moment. */
  lemma GreatestIsHad(states: seq<Tables>, user: Id, i: nat, now: Time)
    requires i < |states| && HasInbox(states[i], user)
    ensures Had(states, user, i, NextValidity(states[i], user, now) - 1)
  {
    var t := states[i];
    hide EqualFold;
    var m: Id :| Names(t, m, user, INBOX);
    assert m in UserMailboxes(t, user);
    MaxValidityIsMaximum(t, UserMailboxes(t, user));
    var top: Id :| top in UserMailboxes(t, user)
      && t.mailboxes[top].uidValidity == MaxValidity(t, UserMailboxes(t, user));
    hide Had;
    HadNow(states, user, i, top);
  }

  /** A mailbox added to an account that is there gets the value after one the
      user has had. */
  lemma AddedIsNext(states: seq<Tables>, ops: seq<Op>, user: Id, i: nat, value: int)
    requires Run(states, ops) && i < |ops| && user in states[i].users
             && Adds(states[i], Apply(states[i], ops[i]), user, value)
    requires Enabled(states[i], ops[i])
    ensures ops[i].OpCreateMailbox? && value == NextValidity(states[i], user, ops[i].now)
            && Had(states, user, i, value - 1)
  {
    var t, op := states[i], ops[i];
    var m: Id :| Owns(Apply(t, op), user, m) && m !in t.mailboxes && Apply(t, op).mailboxes[m].uidValidity == value;
    RunKeepsInvariant(states, ops, i);
    InboxesOverRun(states, ops, i, user);
    hide Run, Had, HasInbox;
    OnlyCreatingAdds(t, op, m);
    GreatestIsHad(states, user, i, op.now);
  }

  lemma RowsOfNewAccount(t: Tables, quota: nat, now: Time, m: Id)
    requires UsedIds(t)
    ensures var u := CreateUser(t, quota, now);
            && (m in u.mailboxes && m !in t.mailboxes <==> t.nextId < m <= t.nextId + |SYSTEM_MAILBOXES|)
            && (m in u.mailboxes && m !in t.mailboxes ==>
                  Owns(u, t.nextId, m) && u.mailboxes[m].uidValidity == now + (m - t.nextId - 1))
  {
  }

  /** The mailboxes of a new account have consecutive values. */
  lemma NewAccountBetween(t: Tables, op: Op, user: Id, low: int, high: int, value: int)
    requires Enabled(t, op) && user !in t.users && UsedIds(t) && low <= value <= high
    requires Adds(t, Apply(t, op), user, low) && Adds(t, Apply(t, op), user, high)
    ensures Adds(t, Apply(t, op), user, value)
  {
    var u := Apply(t, op);
    var m: Id :| Owns(u, user, m) && m !in t.mailboxes && u.mailboxes[m].uidValidity == low;
    var n: Id :| Owns(u, user, n) && n !in t.mailboxes && u.mailboxes[n].uidValidity == high;
    NewOwner(t, op, user, m);
    var k := m + (value - low);
    hide Apply, UsedIds, Enabled, CreateUser;
    RowsOfNewAccount(t, op.quota, op.now, m);
    RowsOfNewAccount(t, op.quota, op.now, n);
    RowsOfNewAccount(t, op.quota, op.now, k);
    assert Owns(u, user, k) && k !in t.mailboxes && u.mailboxes[k].uidValidity == value;
  }

  lemma NewOwner(t: Tables, op: Op, user: Id, m: Id)
    requires Enabled(t, op) && user !in t.users && UsedIds(t) && Owns(Apply(t, op), user, m) && m !in t.mailboxes
    ensures op.OpCreateUser? && Apply(t, op) == CreateUser(t, op.quota, op.now)
  {
    OnlyCreatingAdds(t, op, m);
    hide CreateUser, NextValidity, DeleteMailbox;
  }

  lemma NothingHadAtStart(states: seq<Tables>, ops: seq<Op>, user: Id, value: int)
    requires Run(states, ops) && |states| == |ops| + 1
    ensures !Had(states, user, 0, value)
  {
  }

  lemma BetweenNew(states: seq<Tables>, ops: seq<Op>, user: Id, i: nat, low: int, high: int, value: int)
    requires Run(states, ops) && 0 < i < |states| && low <= value <= high && user !in states[i - 1].users
    requires Had(states, user, i - 1, low) || Adds(states[i - 1], states[i], user, low)
    requires Had(states, user, i - 1, high) || Adds(states[i - 1], states[i], user, high)
    ensures Had(states, user, i, value)
  {
    hide *;
    RunLength(states, ops);
    StepOf(states, ops, i - 1);
    NothingHad(states, ops, user, i - 1, low);
    NothingHad(states, ops, user, i - 1, high);
    RunKeepsInvariant(states, ops, i - 1);
    KeysFollow(states[i - 1]);
    NewAccountBetween(states[i - 1], ops[i - 1], user, low, high, value);
    AddedIsHad(states, user, i, value);
  }

  /** The values a user has had leave no gap. */
  lemma {:induction false} HadBetween(states: seq<Tables>, ops: seq<Op>, user: Id, i: nat, low: int, high: int,
      value: int)
    requires Run(states, ops) && i < |states| && Had(states, user, i, low) && Had(states, user, i, high)
             && low <= value <= high
    ensures Had(states, user, i, value)
    decreases i
  {
    hide *;
    RunLength(states, ops);
    NothingHadAtStart(states, ops, user, low);
    if i > 0 {
      HadOrAdded(states, ops, user, i, low);
      HadOrAdded(states, ops, user, i, high);
      StepOf(states, ops, i - 1);
      if user in states[i - 1].users {
        BetweenKnown(states, ops, user, i, low, high, value);
      } else {
        BetweenNew(states, ops, user, i, low, high, value);
      }
    }
  }

  lemma KeysFollow(t: Tables)
    requires Inv(t)
    ensures UsedIds(t) && ForeignKeys(t)
  {
    hide UsedIds, ForeignKeys, Uids, DraftsNeverHidden, MailboxKeys, Indexed, QueueKeys;
  }

  lemma AddedIsHad(states: seq<Tables>, user: Id, i: nat, value: int)
    requires 0 < i < |states| && Adds(states[i - 1], states[i], user, value)
    ensures Had(states, user, i, value)
  {
  }

  /** What a known account had by a step, it or the value below was had before. */
  lemma KnownBefore(states: seq<Tables>, ops: seq<Op>, user: Id, i: nat, value: int)
    requires Run(states, ops) && i < |ops| && user in states[i].users && i + 1 < |states|
    requires Had(states, user, i, value) || Adds(states[i], states[i + 1], user, value)
    ensures Had(states, user, i, value) || Had(states, user, i, value - 1)
  {
    if !Had(states, user, i, value) {
      StepOf(states, ops, i);
      hide *;
      AddedIsNext(states, ops, user, i, value);
    }
  }

  lemma {:induction false} BetweenKnown(states: seq<Tables>, ops: seq<Op>, user: Id, i: nat, low: int, high: int,
      value: int)
    requires Run(states, ops) && 0 < i < |states| && low <= value <= high && user in states[i - 1].users
    requires Had(states, user, i, high)
    requires Had(states, user, i - 1, low) || Adds(states[i - 1], states[i], user, low)
    requires Had(states, user, i - 1, high) || Adds(states[i - 1], states[i], user, high)
    ensures Had(states, user, i, value)
    decreases i, 0
  {
    hide *;
    RunLength(states, ops);
    StepOf(states, ops, i - 1);
    if value != high {
      KnownBefore(states, ops, user, i - 1, low);
      KnownBefore(states, ops, user, i - 1, high);
      var from := if Had(states, user, i - 1, low) then low else low - 1;
      var to := if Had(states, user, i - 1, high) then high else high - 1;
      HadBetween(states, ops, user, i - 1, from, to, value);
      HadStays(states, user, i - 1, i, value);
    }
  }

  // ---------------------------------------------------------- exact condition

  /** Two different mailboxes of the user, at the same or different times, have
      the same UIDVALIDITY. */
  ghost predicate Shares(states: seq<Tables>, user: Id) {
    exists i, j, n, m :: 0 <= i <= j < |states| && SameValue(states, user, i, j, n, m)
  }

  predicate SameValue(states: seq<Tables>, user: Id, i: nat, j: nat, n: Id, m: Id)
    requires i < |states| && j < |states|
  {
    n != m && Owns(states[i], user, n) && Owns(states[j], user, m)
    && states[i].mailboxes[n].uidValidity == states[j].mailboxes[m].uidValidity
  }

  /** The step at which a mailbox came. */
  lemma {:induction false} BirthOf(states: seq<Tables>, i: nat, j: nat, m: Id) returns (l: nat)
    requires i <= j < |states| && m !in states[i].mailboxes && m in states[j].mailboxes
    ensures i <= l < j && m !in states[l].mailboxes && m in states[l + 1].mailboxes
    decreases j
  {
    if m in states[j - 1].mailboxes {
      l := BirthOf(states, i, j - 1, m);
    } else {
      l := j - 1;
    }
  }

  /** Nor does a mailbox's value or owner change between two states. */
  lemma ValueOverRun(states: seq<Tables>, ops: seq<Op>, i: nat, j: nat, m: Id)
    requires Run(states, ops) && i <= j < |states| && m in states[i].mailboxes && m in states[j].mailboxes
    ensures states[i].mailboxes[m].uidValidity == states[j].mailboxes[m].uidValidity
    ensures states[i].mailboxes[m].user == states[j].mailboxes[m].user
  {
    RunEvolves(states, ops, i, j);
    hide Inv, NoRevival, EntriesStable, Retained, DraftsHeld, Run;
  }

  /** While all values rise, a new mailbox of a known account differs in value
      from all mailboxes before. */
  lemma NewDiffers(states: seq<Tables>, ops: seq<Op>, user: Id, i: nat, l: nat, n: Id, m: Id)
    requires Run(states, ops) && i <= l < |ops| && AllRise(states, ops, user)
    requires Owns(states[i], user, n) && m !in states[l].mailboxes && Owns(states[l + 1], user, m)
    ensures states[l + 1].mailboxes[m].uidValidity > states[i].mailboxes[n].uidValidity
  {
    RunKeepsInvariant(states, ops, i);
    RunKeepsInvariant(states, ops, l);
    KeysFollow(states[i]);
    KeysFollow(states[l]);
    assert user in states[i].users;
    KnownAlways(states, ops, user, i, l);
    StepOf(states, ops, l);
    hide Inv, Run, ForeignKeys, UsedIds, Rises;
    OnlyCreatingAdds(states[l], ops[l], m);
    CreatedRow(states[l], user, ops[l].name, ops[l].now);
    assert m == states[l].nextId;
    assert Rises(states, user, l);
    RisesAbove(states, user, l, i, n);
  }

  lemma RisesAbove(states: seq<Tables>, user: Id, l: nat, i: nat, n: Id)
    requires l + 1 < |states| && Rises(states, user, l) && i <= l && Owns(states[i], user, n)
             && Owns(states[l + 1], user, states[l].nextId)
    ensures states[l + 1].mailboxes[states[l].nextId].uidValidity > states[i].mailboxes[n].uidValidity
  {
  }

  lemma RisingValuesDiffer(states: seq<Tables>, ops: seq<Op>, user: Id, i: nat, j: nat, n: Id, m: Id)
    requires Run(states, ops) && i <= j < |states| && AllRise(states, ops, user)
    ensures !SameValue(states, user, i, j, n, m)
  {
    if SameValue(states, user, i, j, n, m) {
      hide Run, AllRise, Inv;
      if m in states[i].mailboxes {
        SameValueSameMailbox(states, ops, user, i, j, n, m);
      } else {
        var l := BirthOf(states, i, j, m);
        ValueOverRun(states, ops, l + 1, j, m);
        NewDiffers(states, ops, user, i, l, n, m);
      }
    }
  }

  /** The next mailbox after the greatest was deleted has a value that another
      one has had. */
  lemma NextIsShared(states: seq<Tables>, ops: seq<Op>, user: Id, k: nat, l: nat)
    requires Run(states, ops) && k < l < |ops| && RemovesGreatest(states[k], ops[k], user)
    requires Creates(states[l], ops[l], user) && NoneCreated(states, ops, user, k + 1, l)
    ensures Shares(states, user)
  {
    DeletingTheGreatestLowersTheNext(states, ops, user, k, l);
    StepOf(states, ops, l);
    var box, m := FindMailbox(states[k], user, ops[k].name).value, states[l].nextId;
    var value := states[l + 1].mailboxes[m].uidValidity;
    hide Run, Apply, NoneCreated, RemovesGreatest, DeleteMailbox, FindMailbox, Had;
    HadNow(states, user, k, box);
    HadStays(states, user, k, l, states[k].mailboxes[box].uidValidity);
    IdIsNew(states, ops, l, l);
    AddedByCreation(states[l], ops[l], user);
    AddedIsNext(states, ops, user, l, value);
    HadBetween(states, ops, user, l, value - 1, states[k].mailboxes[box].uidValidity, value);
    HadByAnother(states, ops, user, l, value);
  }

  lemma AddedByCreation(t: Tables, op: Op, user: Id)
    requires Creates(t, op, user) && Enabled(t, op) && t.nextId !in t.mailboxes
    ensures user in t.users && t.nextId in Apply(t, op).mailboxes
    ensures Adds(t, Apply(t, op), user, Apply(t, op).mailboxes[t.nextId].uidValidity)
  {
    CreatedRow(t, user, op.name, op.now);
    hide NextValidity, EqualFold;
    assert Owns(Apply(t, op), user, t.nextId);
  }

  lemma HadByAnother(states: seq<Tables>, ops: seq<Op>, user: Id, l: nat, value: int)
    requires Run(states, ops) && l + 1 < |states| && Had(states, user, l, value)
             && Owns(states[l + 1], user, states[l].nextId)
    requires states[l + 1].mailboxes[states[l].nextId].uidValidity == value
    ensures Shares(states, user)
  {
    var i, n :| 0 <= i <= l && Owns(states[i], user, n) && states[i].mailboxes[n].uidValidity == value;
    IdIsNew(states, ops, i, l);
    hide Run;
    assert SameValue(states, user, i, l + 1, n, states[l].nextId);
  }

  /** In a run, two mailboxes of a user share a UIDVALIDITY exactly when one is
      created after the mailbox with the greatest value was deleted. */
  lemma ValuesAreSharedExactlyWhen(states: seq<Tables>, ops: seq<Op>, user: Id)
    requires Run(states, ops)
    ensures Shares(states, user) <==> CreatedAfterGreatestRemoved(states, ops, user)
  {
    assert |states| == |ops| + 1;
    hide Creates, RemovesGreatest, Run, AllRise, SameValue, NoneCreated;
    if CreatedAfterGreatestRemoved(states, ops, user) {
      var k, l :| 0 <= k < l < |ops| && RemovesGreatest(states[k], ops[k], user) && Creates(states[l], ops[l], user);
      var first := FirstCreation(states, ops, user, k + 1, l);
      NextIsShared(states, ops, user, k, first);
    } else {
      ValuesRiseExactlyWhen(states, ops, user);
      forall i, j, n, m | 0 <= i <= j < |states| ensures !SameValue(states, user, i, j, n, m) {
        RisingValuesDiffer(states, ops, user, i, j, n, m);
      }
    }
  }
}
