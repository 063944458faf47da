/** What copies, moves, flags, expunges and changes to mailboxes and accounts leave
    of the rows, and when they are refused. */
module MailEdits {
  import opened Common
  import opened MailTables
  import opened MailInvariants
  import opened MailHistory
  import opened MailEffects
  import opened MailRows
  import opened MailUidValidity

  // ----------------------------------------------------------------- copies

  /** The k-th listed message has an entry of its own in the mailbox, with the
      listed flags and date and the next UID. */
  ghost predicate Copied(t: Tables, u: Tables, box: Id, listed: seq<Listed>, n: nat, now: Time)
    requires n <= |listed|
  {
    && box in t.mailboxes
    && var dest := t.mailboxes[box];
    && u == t.(entries := u.entries, mailboxes := t.mailboxes[box := dest.(uidNext := dest.uidNext + n)],
               nextId := t.nextId + n)
    && (forall e :: e in u.entries <==> e in t.entries || t.nextId <= e < t.nextId + n)
    && (forall e :: e in t.entries ==> u.entries[e] == t.entries[e])
    && (forall e :: t.nextId <= e < t.nextId + n ==>
          var from := listed[e - t.nextId];
          u.entries[e] == Entry(box, dest.user, from.message, dest.uidNext + (e - t.nextId), from.flags + {Recent},
                                from.internalDate, now, None, None))
  }

  lemma CopiedEntries(t: Tables, v: Tables, u: Tables, box: Id, listed: seq<Listed>, now: Time)
    requires listed != [] && box in t.mailboxes && forall e :: e in t.entries ==> e < t.nextId
    requires v == InsertEntry(t, box, listed[0].message, listed[0].flags + {Recent}, listed[0].internalDate, now)
    requires Copied(v, u, box, listed[1..], |listed| - 1, now)
    ensures forall e :: e in u.entries <==> e in t.entries || t.nextId <= e < t.nextId + |listed|
    ensures forall e :: e in t.entries ==> u.entries[e] == t.entries[e]
    ensures forall e :: t.nextId <= e < t.nextId + |listed| ==>
              var from := listed[e - t.nextId];
              u.entries[e] == Entry(box, t.mailboxes[box].user, from.message, t.mailboxes[box].uidNext + (e - t.nextId),
                                    from.flags + {Recent}, from.internalDate, now, None, None)
  {
    assert t.nextId in v.entries;
  }

  lemma CopiedTables(t: Tables, v: Tables, u: Tables, box: Id, listed: seq<Listed>, now: Time)
    requires listed != [] && box in t.mailboxes
    requires v == InsertEntry(t, box, listed[0].message, listed[0].flags + {Recent}, listed[0].internalDate, now)
    requires Copied(v, u, box, listed[1..], |listed| - 1, now)
    ensures var dest := t.mailboxes[box];
            u == t.(entries := u.entries, mailboxes := t.mailboxes[box := dest.(uidNext := dest.uidNext + |listed|)],
                    nextId := t.nextId + |listed|)
  {
    assert u.mailboxes == t.mailboxes[box := u.mailboxes[box]];
  }

  lemma CopiedFirst(t: Tables, v: Tables, u: Tables, box: Id, listed: seq<Listed>, now: Time)
    requires listed != [] && box in t.mailboxes && forall e :: e in t.entries ==> e < t.nextId
    requires v == InsertEntry(t, box, listed[0].message, listed[0].flags + {Recent}, listed[0].internalDate, now)
    requires Copied(v, u, box, listed[1..], |listed| - 1, now)
    ensures Copied(t, u, box, listed, |listed|, now)
  {
    hide InsertEntry;
    CopiedTables(t, v, u, box, listed, now);
    CopiedEntries(t, v, u, box, listed, now);
    CopiedBoth(t, u, box, listed, now);
  }

  lemma CopiedBoth(t: Tables, u: Tables, box: Id, listed: seq<Listed>, now: Time)
    requires box in t.mailboxes
    requires var dest := t.mailboxes[box];
             u == t.(entries := u.entries, mailboxes := t.mailboxes[box := dest.(uidNext := dest.uidNext + |listed|)],
                     nextId := t.nextId + |listed|)
    requires forall e :: e in u.entries <==> e in t.entries || t.nextId <= e < t.nextId + |listed|
    requires forall e :: e in t.entries ==> u.entries[e] == t.entries[e]
    requires forall e :: t.nextId <= e < t.nextId + |listed| ==>
               var from := listed[e - t.nextId];
               u.entries[e] == Entry(box, t.mailboxes[box].user, from.message,
                 t.mailboxes[box].uidNext + (e - t.nextId),
                                     from.flags + {Recent}, from.internalDate, now, None, None)
    ensures Copied(t, u, box, listed, |listed|, now)
  {
  }

  lemma {:induction false} CopyAllLeaves(t: Tables, box: Id, listed: seq<Listed>, now: Time)
    requires box in t.mailboxes && forall e :: e in t.entries ==> e < t.nextId
    ensures var u := CopyAll(t, box, listed, now);
            && (u.Some? ==> Copied(t, u.value, box, listed, |listed|, now))
            && (u.Some? <==> forall k :: 0 <= k < |listed| ==> listed[k].message in t.messages)
    decreases |listed|
  {
    if listed == [] {
      assert t.mailboxes[box := t.mailboxes[box]] == t.mailboxes;
    } else {
      var v := InsertEntry(t, box, listed[0].message, listed[0].flags + {Recent}, listed[0].internalDate, now);
      CopyAllLeaves(v, box, listed[1..], now);
      assert forall k :: 0 <= k < |listed[1..]| ==> listed[1..][k] == listed[k + 1];
      hide Copied, InsertEntry;
      var u := CopyAll(v, box, listed[1..], now);
      if listed[0].message in t.messages && u.Some? {
        CopiedFirst(t, v, u.value, box, listed, now);
      }
    }
  }

  /** A copy of nothing changes nothing; any other needs the mailbox, the room for
      all the sizes listed, and the messages. */
  lemma CopyLeaves(t: Tables, op: Op)
    requires Inv(t) && op.OpCopy? && op.listed != []
    ensures forall u :: Commit(t, op) == Some(u) ==>
              exists box: Id :: Called(t, box, op.user, op.destination)
                && Copied(t, u, box, op.listed, |op.listed|, op.now)
    ensures Commit(t, op).Some? <==>
              && (exists box: Id :: Called(t, box, op.user, op.destination))
              && (forall k :: 0 <= k < |op.listed| ==> op.listed[k].message in t.messages)
              && op.user in t.users
              && (t.users[op.user].quota == 0 || Used(t, op.user) + TotalSize(op.listed) <= t.users[op.user].quota)
  {
    InvParts(t);
    hide Inv, ForeignKeys, MailboxKeys, FindMailbox, CopyAll, Copied, Used, TotalSize;
    FoundExactly(t, op.user, op.destination);
    var box := FindMailbox(t, op.user, op.destination);
    if box.Some? {
      assert Called(t, box.value, op.user, op.destination);
      OwnerOfCalled(t, box.value, op.user, op.destination);
      CopyAllLeaves(t, box.value, op.listed, op.now);
    }
    hide Called, UsedIds;
  }

  lemma CopyNothing(t: Tables, user: Id, destination: string, now: Time)
    ensures Commit(t, OpCopy(user, destination, [], now)) == Some(t)
  {
  }

  // ------------------------------------------------------------------ moves

  /** The first place a row is selected. */
  predicate FirstAt(selected: seq<Id>, i: nat) {
    i < |selected| && forall j :: 0 <= j < i ==> selected[j] != selected[i]
  }

  /** Those selected rows that are visible rows of the user in the source mailbox,
      at their first mention and in order. */
  ghost predicate MovableInOrder(t: Tables, user: Id, source: Id, selected: seq<Id>, moved: seq<Id>, places: seq<nat>) {
    && |places| == |moved|
    && (forall i, j :: 0 <= i < j < |places| ==> places[i] < places[j])
    && (forall k :: 0 <= k < |places| ==> FirstAt(selected, places[k]) && selected[places[k]] == moved[k])
    && (forall e :: e in moved <==> e in selected && e in t.entries && t.entries[e].user == user
                                    && t.entries[e].mailbox == source && t.entries[e].expungedAt == None)
  }

  lemma {:induction false} ChosenInOrder(t: Tables, user: Id, source: Id, selected: seq<Id>, n: nat)
      returns (places: seq<nat>)
    requires n <= |selected|
    ensures MovableInOrder(t, user, source, selected[..n], Chosen(t, user, source, selected[..n], {}), places)
  {
    if n == 0 {
      places := [];
    } else {
      var front := ChosenInOrder(t, user, source, selected, n - 1);
      ChosenLast(t, user, source, selected[..n], {});
      assert selected[..n][..n - 1] == selected[..n - 1];
      places := ChosenNext(t, user, source, selected[..n], Chosen(t, user, source, selected[..n - 1], {}), front);
    }
  }

  lemma {:induction false} ChosenLast(t: Tables, user: Id, source: Id, selected: seq<Id>, done: set<Id>)
    requires selected != []
    ensures var last := selected[|selected| - 1];
            var front := selected[..|selected| - 1];
            Chosen(t, user, source, selected, done) ==
            Chosen(t, user, source, front, done)
            + if Movable(t, user, source, last) && last !in done && last !in front then [last] else []
    decreases |selected|
  {
    hide Movable;
    var last, front := selected[|selected| - 1], selected[..|selected| - 1];
    if |selected| == 1 {
      assert front == [] && selected[1..] == [];
    } else {
      assert front[1..] == selected[1..][..|selected| - 2] && front[0] == selected[0];
      assert front == [selected[0]] + front[1..];
      var x := selected[0];
      ChosenLast(t, user, source, selected[1..], done + {x});
      ChosenLast(t, user, source, selected[1..], done);
    }
  }

  lemma ChosenNext(t: Tables, user: Id, source: Id, selected: seq<Id>, before: seq<Id>, front: seq<nat>)
      returns (places: seq<nat>)
    requires selected != []
    requires MovableInOrder(t, user, source, selected[..|selected| - 1], before, front)
    ensures var last := selected[|selected| - 1];
            MovableInOrder(t, user, source, selected,
              before + (if Movable(t, user, source, last) && last !in selected[..|selected| - 1] then [last] else []),
                places)
  {
    var n := |selected| - 1;
    var last := selected[n];
    assert selected == selected[..n] + [last];
    assert forall i :: FirstAt(selected[..n], i) ==> FirstAt(selected, i);
    if Movable(t, user, source, last) && last !in selected[..n] {
      places := front + [n];
      assert forall k :: 0 <= k < n ==> selected[..n][k] == selected[k];
    } else {
      places := front;
    }
  }

  /** The k-th row to be moved has a copy in the destination with the next UID, and
      is gone itself, from the tables if it is a draft's. */
  ghost predicate MovedEntry(t: Tables, u: Tables, box: Id, e: Id, k: nat, now: Time)
    requires box in t.mailboxes && e in t.entries
  {
    && t.nextId + k in u.entries
    && u.entries[t.nextId + k] == Entry(box, t.mailboxes[box].user, t.entries[e].message, t.mailboxes[box].uidNext + k,
                                        t.entries[e].flags + {Recent}, t.entries[e].internalDate, now, None, None)
    && (e in u.entries ==> u.entries[e].expungedAt != None)
  }

  lemma DestinationOf(t: Tables, op: Op, u: Tables) returns (box: Id)
    requires Inv(t) && op.OpMoveSelected? && op.selected != [] && Commit(t, op) == Some(u)
    ensures Called(t, box, op.user, op.destination) && box in t.mailboxes && UsedIds(t)
    ensures u == MoveAll(t, op.user, op.source, box, op.selected, op.now)
  {
    InvParts(t);
    hide Inv, ForeignKeys, MailboxKeys, FindMailbox, MoveAll, UsedIds;
    FoundExactly(t, op.user, op.destination);
    box := FindMailbox(t, op.user, op.destination).value;
    OwnerOfCalled(t, box, op.user, op.destination);
    hide Called;
  }

  lemma MovedRows(t: Tables, op: Op, u: Tables, box: Id, moved: seq<Id>)
    requires op.OpMoveSelected? && box in t.mailboxes && UsedIds(t)
    requires forall i :: 0 <= i < |op.selected| ==> op.selected[i] < t.nextId
    requires moved == Chosen(t, op.user, op.source, op.selected, {})
    requires u == MoveAll(t, op.user, op.source, box, op.selected, op.now)
    ensures u.nextId == t.nextId + |moved|
    ensures forall k :: 0 <= k < |moved| ==> moved[k] in t.entries && MovedEntry(t, u, box, moved[k], k, op.now)
    ensures forall e :: e in t.entries && e !in moved ==> e in u.entries && u.entries[e] == t.entries[e]
    ensures forall e :: e in u.entries && e < t.nextId ==> e in t.entries
  {
    MoveKeepsOrder(t, op.user, op.source, box, op.selected, op.now);
    hide Chosen, UsedIds, MoveAll;
    forall k | 0 <= k < |moved| ensures moved[k] in t.entries && MovedEntry(t, u, box, moved[k], k, op.now) {
      assert RowMoved(t, box, moved[k], k, op.now, u);
    }
    hide RowMoved, MovedEntry;
  }

  /** An IMAP move moves just those rows, in order, to the mailbox with the name. */
  lemma MoveLeaves(t: Tables, op: Op, u: Tables) returns (box: Id, moved: seq<Id>, places: seq<nat>)
    requires Inv(t) && op.OpMoveSelected? && op.selected != [] && Commit(t, op) == Some(u)
    requires forall i :: 0 <= i < |op.selected| ==> op.selected[i] < t.nextId
    ensures Called(t, box, op.user, op.destination)
    ensures MovableInOrder(t, op.user, op.source, op.selected, moved, places)
    ensures box in t.mailboxes && forall k :: 0 <= k < |moved| ==>
              moved[k] in t.entries && MovedEntry(t, u, box, moved[k], k, op.now)
    ensures u.nextId == t.nextId + |moved|
    ensures forall e :: e in t.entries && e !in moved ==> e in u.entries && u.entries[e] == t.entries[e]
    ensures forall e :: e in u.entries && e < t.nextId ==> e in t.entries
  {
    box := DestinationOf(t, op, u);
    hide *;
    moved := Chosen(t, op.user, op.source, op.selected, {});
    places := ChosenInOrder(t, op.user, op.source, op.selected, |op.selected|);
    assert op.selected[..|op.selected|] == op.selected;
    MovedRows(t, op, u, box, moved);
  }

  /** It is refused only for want of the mailbox. */
  lemma MoveCommitsExactlyWhen(t: Tables, op: Op)
    requires Inv(t) && op.OpMoveSelected?
    ensures Commit(t, op).Some? <==> op.selected == [] || exists box: Id :: Called(t, box, op.user, op.destination)
    ensures op.selected == [] ==> Commit(t, op) == Some(t)
  {
    InvParts(t);
    hide Inv, ForeignKeys, MailboxKeys, FindMailbox, MoveAll;
    FoundExactly(t, op.user, op.destination);
    hide Called, UsedIds;
  }

  /** The row goes to a mailbox under a name. */
  ghost predicate Rehomed(t: Tables, u: Tables, e: Id, box: Id, name: string, now: Time)
    requires e in t.entries && box in t.mailboxes
  {
    var row, there := t.entries[e], t.mailboxes[box];
    var deletedAt := if name == "Trash" then Some(now) else None;
    u == if row.mailbox == box then t.(entries := t.entries[e := row.(deletedAt := deletedAt)])
         else t.(entries := t.entries[e := row.(mailbox := box, uid := there.uidNext, deletedAt := deletedAt)],
                 mailboxes := t.mailboxes[box := there.(uidNext := there.uidNext + 1)])
  }

  lemma RehomeLeaves(t: Tables, e: Id, box: Id, name: string, now: Time)
    requires e in t.entries && box in t.mailboxes
    ensures Rehomed(t, Rehome(t, e, box, name, now), e, box, name, now)
  {
  }

  /** The web move takes the row itself to the mailbox with the name; it gets the
      next UID there unless it is there already, and counts as deleted since now
      exactly in the trash. */
  lemma MoveOneLeaves(t: Tables, op: Op)
    requires Inv(t) && op.OpMoveOne? && Enabled(t, op)
    ensures Commit(t, op).Some? <==> exists box: Id :: Called(t, box, op.user, op.destination)
    ensures forall u, box: Id :: Commit(t, op) == Some(u) && Called(t, box, op.user, op.destination) ==>
              Rehomed(t, u, op.entry, box, op.destination, op.now)
  {
    InvParts(t);
    hide Inv, ForeignKeys, UsedIds, MailboxKeys, FindMailbox, Rehome, Rehomed;
    FoundExactly(t, op.user, op.destination);
    forall box: Id | Called(t, box, op.user, op.destination)
      ensures Rehomed(t, Rehome(t, op.entry, box, op.destination, op.now), op.entry, box, op.destination, op.now)
    {
      RehomeLeaves(t, op.entry, box, op.destination, op.now);
    }
    hide Called, Selected;
  }

  // ------------------------------------------------------ flags and expunges

  lemma FlagsLeave(t: Tables, op: Op)
    requires op.OpUpdateFlags? && Enabled(t, op)
    ensures Commit(t, op) == Some(t.(entries := t.entries[op.entry := t.entries[op.entry].(flags := op.flags)]))
  {
  }

  /** The IMAP flag update also dates the deletion: it keeps the date while the
      Deleted flag stays, and drops it with the flag. */
  lemma EntryFlagsLeave(t: Tables, op: Op)
    requires op.OpSetEntryFlags?
    ensures Commit(t, op).Some? <==>
              op.entry in t.entries && t.entries[op.entry].user == op.user && t.entries[op.entry].mailbox == op.mailbox
              && t.entries[op.entry].expungedAt == None
    ensures forall u :: Commit(t, op) == Some(u) ==>
              && u == t.(entries := t.entries[op.entry := u.entries[op.entry]])
              && var before, after := t.entries[op.entry], u.entries[op.entry];
                 && after == before.(flags := op.flags, deletedAt := after.deletedAt)
                 && (after.deletedAt == None <==> Deleted !in op.flags)
                 && (Deleted in op.flags && before.deletedAt != None ==> after.deletedAt == before.deletedAt)
                 && (Deleted in op.flags && before.deletedAt == None ==> after.deletedAt == Some(op.now))
  {
  }

  /** An entry is to go: it is hidden, or removed if it is a draft's. */
  ghost predicate Retired(t: Tables, u: Tables, e: Id, now: Time)
    requires e in t.entries
  {
    if t.entries[e].message in t.messages && t.messages[t.entries[e].message].direction == Draft then e !in u.entries
    else
      && e in u.entries
      && u.entries[e] == t.entries[e].(expungedAt := Some(now), deletedAt := u.entries[e].deletedAt)
      && u.entries[e].deletedAt == if t.entries[e].deletedAt == None then Some(now) else t.entries[e].deletedAt
  }

  /** The drafts that go with the entries: those all of whose entries go. */
  predicate Orphaned(t: Tables, gone: set<Id>, message: Id) {
    && message in t.messages && t.messages[message].direction == Draft
    && (exists e :: e in gone && e in t.entries && t.entries[e].message == message)
    && (forall e :: e in t.entries && t.entries[e].message == message ==> e in gone)
  }

  /** What an expunge of some entries leaves. */
  ghost predicate Gone(t: Tables, u: Tables, gone: set<Id>, now: Time) {
    && u == t.(entries := u.entries, messages := u.messages, index := u.index)
    && (forall e :: e in u.entries ==> e in t.entries)
    && (forall e :: e in t.entries && e !in gone ==> e in u.entries && u.entries[e] == t.entries[e])
    && (forall e :: e in t.entries && e in gone ==> Retired(t, u, e, now))
    && (forall m :: m in u.messages <==> m in t.messages && !Orphaned(t, gone, m))
    && (forall m :: m in u.messages ==> u.messages[m] == t.messages[m])
  }

  ghost predicate QueuedOrphan(t: Tables, gone: set<Id>) {
    exists q :: q in t.queue && Orphaned(t, gone, t.queue[q].message)
  }

  lemma OrphansAre(t: Tables, gone: set<Id>)
    ensures forall m: Id :: m in Orphans(t, gone) <==> Orphaned(t, gone, m)
    ensures Referenced(t, Orphans(t, gone)) <==> QueuedOrphan(t, gone)
  {
    forall m: Id ensures m in Orphans(t, gone) <==> Orphaned(t, gone, m) {
    }
    hide Orphans, Orphaned;
  }

  /** Orphans are the same whether the hidden entries count among those that go. */
  lemma DraftsDecide(t: Tables, gone: set<Id>)
    ensures forall m: Id :: Orphaned(t, DraftEntries(t, gone), m) <==> Orphaned(t, gone, m)
    ensures QueuedOrphan(t, DraftEntries(t, gone)) <==> QueuedOrphan(t, gone)
  {
    var drafts := DraftEntries(t, gone);
    forall m: Id ensures Orphaned(t, drafts, m) <==> Orphaned(t, gone, m) {
      if Orphaned(t, gone, m) {
        var e :| e in gone && e in t.entries && t.entries[e].message == m;
        assert e in drafts;
      }
    }
    hide Orphaned, DraftEntries;
  }

  lemma PurgeLeaves(t: Tables, gone: set<Id>)
    ensures var u := Purge(t, gone);
            && u == t.(entries := u.entries, messages := u.messages, index := u.index)
            && u.entries == t.entries - gone
            && (forall m :: m in u.messages <==> m in t.messages && !Orphaned(t, gone, m))
            && (forall m :: m in u.messages ==> u.messages[m] == t.messages[m])
  {
    OrphansAre(t, gone);
    hide Orphans, Orphaned;
  }

  lemma GoneFromBoth(t: Tables, gone: set<Id>, now: Time)
    requires gone <= t.entries.Keys
    ensures var drafts := DraftEntries(t, gone);
            Gone(t, SoftExpunge(Purge(t, drafts), gone - drafts, now), gone, now)
  {
    var drafts := DraftEntries(t, gone);
    PurgeLeaves(t, drafts);
    DraftsDecide(t, gone);
    hide Purge, Orphaned;
  }

  /** The web expunge retires the entry its lookup chose. */
  lemma ExpungeOneLeaves(t: Tables, op: Op)
    requires op.OpExpungeOne? && Enabled(t, op)
    ensures Commit(t, op).Some? <==> !QueuedOrphan(t, {op.entry})
    ensures forall u :: Commit(t, op) == Some(u) ==> Gone(t, u, {op.entry}, op.now)
  {
    var one := {op.entry};
    var drafts := DraftEntries(t, one);
    OrphansAre(t, one);
    DraftsDecide(t, one);
    GoneFromBoth(t, one, op.now);
    if IsDraft(t, t.entries[op.entry].message) {
      assert drafts == one && one - drafts == {};
      NothingHidden(Purge(t, one), op.now);
    } else {
      assert drafts == {} && one - drafts == one;
      NothingPurged(t);
    }
    hide Purge, Orphans, Orphaned, Referenced, QueuedOrphan, Gone, SoftExpunge, DraftEntries;
  }

  lemma NothingHidden(t: Tables, now: Time)
    ensures SoftExpunge(t, {}, now) == t
  {
    assert SoftExpunge(t, {}, now).entries == t.entries;
  }

  lemma NothingPurged(t: Tables)
    ensures Purge(t, {}) == t && !QueuedOrphan(t, {})
  {
    assert Orphans(t, {}) == {};
    assert t.entries - {} == t.entries && t.messages - {} == t.messages;
    assert (map r | r in t.index && t.index[r].message !in {} :: t.index[r]) == t.index;
  }

  /** EXPUNGE retires the visible entries of the mailbox that are marked Deleted. */
  lemma ExpungeDeletedLeaves(t: Tables, op: Op)
    requires op.OpExpungeDeleted?
    ensures var gone := set e | e in t.entries && t.entries[e].user == op.user && t.entries[e].mailbox == op.mailbox
                                && t.entries[e].expungedAt == None && Deleted in t.entries[e].flags;
            && (Commit(t, op).Some? <==> !QueuedOrphan(t, gone))
            && (forall u :: Commit(t, op) == Some(u) ==> Gone(t, u, gone, op.now))
  {
    var gone := set e | e in t.entries && t.entries[e].user == op.user && t.entries[e].mailbox == op.mailbox
                        && t.entries[e].expungedAt == None && Deleted in t.entries[e].flags;
    assert gone == Condemned(t, op.user, op.mailbox);
    OrphansAre(t, DraftEntries(t, gone));
    DraftsDecide(t, gone);
    GoneFromBoth(t, gone, op.now);
    hide Purge, Orphans, Orphaned, Referenced, QueuedOrphan, Gone, SoftExpunge, DraftEntries, Condemned;
  }

  // -------------------------------------------------------------- mailboxes

  /** The new row, and the value it follows: the greatest of the user's, or the
      time if there is none. */
  ghost predicate NextRow(t: Tables, u: Tables, user: Id, name: string, now: Time, value: int) {
    && u == t.(mailboxes := t.mailboxes[t.nextId := Mailbox(user, name, value, 1, true)], nextId := t.nextId + 1)
    && (forall m :: m in t.mailboxes && t.mailboxes[m].user == user ==> t.mailboxes[m].uidValidity < value)
    && (if exists m :: m in t.mailboxes && t.mailboxes[m].user == user
        then exists m :: m in t.mailboxes && t.mailboxes[m].user == user && t.mailboxes[m].uidValidity == value - 1
        else value == now + 1)
  }

  lemma ValueFollows(t: Tables, user: Id, now: Time)
    ensures var value := NextValidity(t, user, now);
            && (forall m :: m in t.mailboxes && t.mailboxes[m].user == user ==> t.mailboxes[m].uidValidity < value)
            && (if exists m :: m in t.mailboxes && t.mailboxes[m].user == user
                then exists m ::
                       m in t.mailboxes && t.mailboxes[m].user == user && t.mailboxes[m].uidValidity == value - 1
                else value == now + 1)
  {
    var boxes := UserMailboxes(t, user);
    assert forall m :: m in t.mailboxes && t.mailboxes[m].user == user <==> m in boxes;
    if boxes != {} {
      MaxValidityIsMaximum(t, boxes);
    }
    hide MaxValidity;
  }

  /** One more mailbox of the user, empty, with the value after the greatest one. */
  lemma CreateLeaves(t: Tables, op: Op)
    requires op.OpCreateMailbox?
    ensures Commit(t, op).Some? <==>
              && op.user in t.users && (forall m: Id :: !Called(t, m, op.user, op.name))
              && |set m | m in t.mailboxes && t.mailboxes[m].user == op.user| < 100
    ensures forall u :: Commit(t, op) == Some(u) ==>
              exists value: int :: NextRow(t, u, op.user, op.name, op.now, value)
  {
    hide EqualFold, Alike;
    forall m: Id ensures Called(t, m, op.user, op.name) <==> Names(t, m, op.user, op.name) {
      CalledIsNamed(t, m, op.user, op.name);
    }
    assert UserMailboxes(t, op.user) == set m | m in t.mailboxes && t.mailboxes[m].user == op.user;
    ValueFollows(t, op.user, op.now);
    hide Called, Names, NextValidity;
    forall u | Commit(t, op) == Some(u)
      ensures NextRow(t, u, op.user, op.name, op.now, NextValidity(t, op.user, op.now))
    {
    }
  }

  lemma RenameLeaves(t: Tables, op: Op)
    requires Inv(t) && op.OpRenameMailbox?
    ensures Commit(t, op).Some? <==>
              && !Alike(op.name, "INBOX") && (exists box: Id :: Called(t, box, op.user, op.name))
              && (forall m, box: Id :: Called(t, m, op.user, op.newName) && Called(t, box, op.user, op.name) ==>
                 m == box)
    ensures forall u, box: Id :: Commit(t, op) == Some(u) && Called(t, box, op.user, op.name) ==>
              u == t.(mailboxes := t.mailboxes[box := t.mailboxes[box].(name := op.newName)])
  {
    InvParts(t);
    EqualFoldIsAlike(op.name, INBOX);
    forall m: Id ensures Called(t, m, op.user, op.newName) <==> Names(t, m, op.user, op.newName) {
      CalledIsNamed(t, m, op.user, op.newName);
    }
    hide Inv, ForeignKeys, UsedIds, MailboxKeys, FindMailbox, EqualFold, Alike;
    FoundExactly(t, op.user, op.name);
    hide Called, Names;
  }

  lemma SubscribedLeaves(t: Tables, op: Op)
    requires Inv(t) && op.OpSetSubscribed?
    ensures Commit(t, op).Some? <==> exists box: Id :: Called(t, box, op.user, op.name)
    ensures forall u, box: Id :: Commit(t, op) == Some(u) && Called(t, box, op.user, op.name) ==>
              u == t.(mailboxes := t.mailboxes[box := t.mailboxes[box].(subscribed := op.subscribed)])
  {
    InvParts(t);
    hide Inv, ForeignKeys, UsedIds, MailboxKeys, FindMailbox, EqualFold, Alike;
    FoundExactly(t, op.user, op.name);
    hide Called;
  }

  /** The mailbox goes with its entries, and with the drafts all of whose entries
      they were. */
  lemma DeleteLeaves(t: Tables, op: Op)
    requires Inv(t) && op.OpDeleteMailbox?
    ensures Commit(t, op).Some? <==>
              && !(exists s :: s in ["INBOX", "Drafts", "Sent", "Archive", "Junk", "Trash"] && Alike(op.name, s))
              && exists box: Id :: Called(t, box, op.user, op.name) && !QueuedOrphan(t, EntriesIn(t, box))
    ensures forall u, box: Id :: Commit(t, op) == Some(u) && Called(t, box, op.user, op.name) ==>
              && u == t.(entries := u.entries, messages := u.messages, index := u.index, mailboxes := u.mailboxes)
              && u.mailboxes == t.mailboxes - {box}
              && (forall e :: e in u.entries <==> e in t.entries && t.entries[e].mailbox != box)
              && (forall e :: e in u.entries ==> u.entries[e] == t.entries[e])
              && (forall m :: m in u.messages <==> m in t.messages && !Orphaned(t, EntriesIn(t, box), m))
              && (forall m :: m in u.messages ==> u.messages[m] == t.messages[m])
  {
    InvParts(t);
    SystemNamesAre(op.name);
    hide Inv, ForeignKeys, UsedIds, MailboxKeys, FindMailbox, EqualFold, Alike, IsSystemName;
    FoundExactly(t, op.user, op.name);
    var box := FindMailbox(t, op.user, op.name);
    if box.Some? {
      OrphansAre(t, EntriesIn(t, box.value));
      PurgeLeaves(t, EntriesIn(t, box.value));
    }
    hide Called, Orphans, Orphaned, Referenced, QueuedOrphan, Purge;
  }

  lemma SystemNamesAre(name: string)
    ensures IsSystemName(name) <==>
              exists s :: s in ["INBOX", "Drafts", "Sent", "Archive", "Junk", "Trash"] && Alike(name, s)
  {
    forall s ensures EqualFold(name, s) <==> Alike(name, s) {
      EqualFoldIsAlike(name, s);
    }
    hide EqualFold, Alike;
    if exists s :: s in ["INBOX", "Drafts", "Sent", "Archive", "Junk", "Trash"] && Alike(name, s) {
      var s :| s in ["INBOX", "Drafts", "Sent", "Archive", "Junk", "Trash"] && Alike(name, s);
      var i :| 0 <= i < 6 && ["INBOX", "Drafts", "Sent", "Archive", "Junk", "Trash"][i] == s;
      assert SYSTEM_MAILBOXES[i] == s;
    }
  }

  // --------------------------------------------------------------- accounts

  /** A new account is active and has the six system mailboxes, in order, empty,
      with consecutive values from the time on. */
  lemma CreateUserLeaves(t: Tables, op: Op)
    requires op.OpCreateUser? && UsedIds(t)
    ensures exists u ::
              && Commit(t, op) == Some(u)
              && u == t.(users := t.users[t.nextId := User(true, op.quota)], mailboxes := u.mailboxes,
                 nextId := t.nextId + 7)
              && (forall m :: m in u.mailboxes <==> m in t.mailboxes || t.nextId < m <= t.nextId + 6)
              && (forall m :: m in t.mailboxes ==> u.mailboxes[m] == t.mailboxes[m])
              && (forall m :: t.nextId < m <= t.nextId + 6 ==>
                    var i := m - t.nextId - 1;
                    u.mailboxes[m] == Mailbox(t.nextId, ["INBOX", "Drafts", "Sent", "Archive", "Junk", "Trash"][i],
                                              op.now + i, 1, true))
  {
    var u := CreateUser(t, op.quota, op.now);
    forall m: Id | t.nextId < m <= t.nextId + 6
      ensures m in u.mailboxes && u.mailboxes[m] == SystemRow(t.nextId, t.nextId + 1, op.now, m)
    {
    }
    assert Commit(t, op) == Some(u);
  }

  lemma SetUserLeaves(t: Tables, op: Op)
    requires op.OpSetUser?
    ensures Commit(t, op) == if op.user in t.users then Some(t.(users := t.users[op.user := op.row])) else None
  {
  }

  /** A new status and a new index row, with the text of the old one. */
  lemma StatusLeaves(t: Tables, op: Op)
    requires Inv(t) && op.OpSetTransportStatus?
    ensures Commit(t, op).Some?
    ensures forall u :: Commit(t, op) == Some(u) ==>
              if op.message !in t.messages then u == t
              else
                && u == t.(messages := t.messages[op.message := t.messages[op.message].(transportStatus := op.status)],
                           index := u.index, nextId := u.nextId)
                && (forall r :: r in t.index && t.index[r].message != op.message ==>
                   r in u.index && u.index[r] == t.index[r])
                && (forall r :: r in u.index && u.index[r].message == op.message ==>
                      u.index[r].text == t.messages[op.message].text)
  {
    InvParts(t);
    hide Inv, ForeignKeys, MailboxKeys;
  }
}
