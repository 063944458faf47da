/** The queue tables as the worker changes them: each call is one step of the
    protocol, and the ghost trace the object keeps is a run of it. */
module QueueStore {
  import opened Common
  import opened OutgoingQueue

  /** What the environment does during one iteration of the batch loop. */
  datatype Turn = Turn(elapsed: nat, claimStored: bool, claimSeen: bool, accepts: bool, writeStored: bool,
    refreshStored: bool) {
    predicate Smooth() {
      claimStored && claimSeen && writeStored && refreshStored
    }
  }

  /** The rows among some whose delivery lease ran out. */
  function StaleRows(rows: map<Id, Row>, among: set<Id>, now: Time): set<Id> {
    set r | r in among && r in rows && Stale(rows[r], now)
  }

  lemma StaleOne(rows: map<Id, Row>, seen: set<Id>, r: Id, now: Time)
    requires r !in seen && r in rows
    ensures |StaleRows(rows, seen + {r}, now)| == |StaleRows(rows, seen, now)| + if Stale(rows[r], now) then 1 else 0
  {
    var found := StaleRows(rows, seen, now);
    assert StaleRows(rows, seen + {r}, now) == if Stale(rows[r], now) then found + {r} else found;
  }

  /** The rows after the given ones have been looked at. */
  predicate RequeuedSoFar(before: map<Id, Row>, rows: map<Id, Row>, done: set<Id>, now: Time) {
    rows.Keys == before.Keys && forall r :: r in before ==>
      rows[r] == if r in done then RecoveredRow(before[r], now) else before[r]
  }

  lemma NoneRequeued(before: map<Id, Row>, now: Time)
    ensures RequeuedSoFar(before, before, {}, now) && StaleRows(before, {}, now) == {}
  {
  }

  lemma RequeuedOne(before: map<Id, Row>, rows: map<Id, Row>, done: set<Id>, now: Time, r: Id)
    requires RequeuedSoFar(before, rows, done, now) && r in before && r !in done
    ensures r in rows && rows[r] == before[r]
    ensures RequeuedSoFar(before, rows[r := RecoveredRow(before[r], now)], done + {r}, now)
    ensures !Stale(before[r], now) ==> rows[r := RecoveredRow(before[r], now)] == rows
  {
    var after := rows[r := RecoveredRow(before[r], now)];
    assert after.Keys == rows.Keys;
    hide Stale;
  }

  lemma RequeuedAll(before: map<Id, Row>, rows: map<Id, Row>, now: Time)
    requires RequeuedSoFar(before, rows, before.Keys, now)
    ensures rows == RecoveredRows(before, now)
  {
    hide RecoveredRow;
  }

  /** The rows a list of items names. */
  function RowsOf(items: seq<Item>): set<Id> {
    set k | 0 <= k < |items| :: items[k].row
  }

  lemma RowsOfOneMore(items: seq<Item>, item: Item)
    ensures RowsOf(items + [item]) == RowsOf(items) + {item.row}
  {
    var more := items + [item];
    assert more[|items|] == item;
    forall k | 0 <= k < |items| ensures more[k].row in RowsOf(more) && items[k].row in RowsOf(more) {
      assert more[k] == items[k];
    }
  }

  lemma NotNamed(items: seq<Item>, r: Id)
    ensures r in RowsOf(items) <==> exists k :: 0 <= k < |items| && items[k].row == r
  {
  }

  /** The rows of a message with a status. */
  function WithStatus(rows: map<Id, Row>, among: set<Id>, message: Id, status: Status): set<Id> {
    set r | r in among && r in rows && rows[r].message == message && rows[r].status == status
  }

  lemma CountShowsRow(rows: map<Id, Row>, message: Id, status: Status)
    ensures |WithStatus(rows, rows.Keys, message, status)| > 0 <==> HasRow(rows, message, status)
  {
    var found := WithStatus(rows, rows.Keys, message, status);
    if HasRow(rows, message, status) {
      var r :| r in rows && rows[r].message == message && rows[r].status == status;
      assert r in found;
    }
    if |found| > 0 {
      var r :| r in found;
    }
  }

  lemma CountOne(rows: map<Id, Row>, seen: set<Id>, r: Id, message: Id, status: Status)
    requires r !in seen && r in rows
    ensures |WithStatus(rows, seen + {r}, message, status)| ==
            |WithStatus(rows, seen, message, status)|
              + (if rows[r].message == message && rows[r].status == status then 1 else 0)
  {
    var found, more := WithStatus(rows, seen, message, status), WithStatus(rows, seen + {r}, message, status);
    if rows[r].message == message && rows[r].status == status {
      assert more == found + {r};
    } else {
      assert more == found;
    }
  }

  /** A change to a row of one message leaves the summary of the others. */
  lemma SummaryOfOthers(rows: map<Id, Row>, r: Id, row: Row, message: Id)
    requires r in rows && row.message == rows[r].message != message
    ensures Summary(rows[r := row], message) == Summary(rows, message)
  {
    var after := rows[r := row];
    forall status ensures HasRow(rows, message, status) <==> HasRow(after, message, status) {
      if HasRow(rows, message, status) {
        var q :| q in rows && rows[q].message == message && rows[q].status == status;
        assert q in after && after[q] == rows[q];
      }
    }
    SameSummary(rows, after, message);
  }

  /** An item whose delivery has been attempted and whose message reports the
      summary of its rows. */
  predicate Attempted(rows: map<Id, Row>, transport: map<Id, string>, maxAttempts: nat, item: Item, accepts: bool) {
    && item.row in rows && rows[item.row].message == item.message && rows[item.row].attempts == item.attempts + 1
    && rows[item.row].status ==
         (if accepts then Delivered else if item.attempts + 1 >= maxAttempts then Failed else Queued)
    && item.message in transport && transport[item.message] == Summary(rows, item.message)
  }

  /** At most the item's row and its message's transport status have changed. */
  predicate OnlyTouches(before: map<Id, Row>, rows: map<Id, Row>, beforeTransport: map<Id, string>,
      transport: map<Id, string>, item: Item) {
    && item.row in before && item.row in rows && rows == before[item.row := rows[item.row]]
    && before[item.row].message == rows[item.row].message == item.message
    && forall m :: m in beforeTransport ==> m in transport && (m != item.message ==> transport[m] == beforeTransport[m])
  }

  /** The rows no item names are the same. */
  predicate OthersSame(before: map<Id, Row>, rows: map<Id, Row>, items: seq<Item>) {
    forall r :: r in before && r !in RowsOf(items) ==> r in rows && rows[r] == before[r]
  }

  lemma OthersSameStep(start: map<Id, Row>, before: map<Id, Row>, rows: map<Id, Row>, beforeTransport: map<Id, string>,
                       transport: map<Id, string>, items: seq<Item>, k: nat)
    requires k < |items| && OthersSame(start, before, items)
    requires OnlyTouches(before, rows, beforeTransport, transport, items[k])
    ensures OthersSame(start, rows, items)
  {
    NotNamed(items, items[k].row);
    hide RowsOf;
  }

  predicate Distinct(items: seq<Item>) {
    forall j, k :: 0 <= j < k < |items| ==> items[j].row != items[k].row
  }

  /** If all writes were stored, the first n items have been attempted. */
  predicate AllAttempted(rows: map<Id, Row>, transport: map<Id, string>, maxAttempts: nat, items: seq<Item>,
    turns: seq<Turn>, n: nat)
    requires n <= |items| && n <= |turns|
  {
    (forall k :: 0 <= k < n ==> turns[k].Smooth()) ==>
      forall k :: 0 <= k < n ==> Attempted(rows, transport, maxAttempts, items[k], turns[k].accepts)
  }

  lemma ListingIsDue(rows: map<Id, Row>, now: Time, limit: nat, items: seq<Item>)
    requires Listing(rows, now, limit, items)
    ensures DueList(rows, now, limit, items)
  {
  }

  lemma AttemptedReports(rows: map<Id, Row>, transport: map<Id, string>, maxAttempts: nat, item: Item, accepts: bool)
    requires Attempted(rows, transport, maxAttempts, item, accepts)
    ensures item.message in transport && Reports(rows, item.message, transport[item.message])
  {
    SummaryReports(rows, item.message);
    hide Summary, Reports;
  }

  lemma AllReport(rows: map<Id, Row>, transport: map<Id, string>, maxAttempts: nat, items: seq<Item>, turns: seq<Turn>)
    requires |items| <= |turns| && AllAttempted(rows, transport, maxAttempts, items, turns, |items|)
    requires forall k :: 0 <= k < |items| ==> turns[k].Smooth()
    ensures forall k :: 0 <= k < |items| ==>
              items[k].message in transport && Reports(rows, items[k].message, transport[items[k].message])
  {
    hide Attempted, Reports;
    forall k | 0 <= k < |items|
      ensures items[k].message in transport && Reports(rows, items[k].message, transport[items[k].message])
    {
      AttemptedReports(rows, transport, maxAttempts, items[k], turns[k].accepts);
    }
  }

  /** The list a worker gets, said of the rows: due queued ones, each once, earliest
      first, and those left out are due no earlier. */
  ghost predicate DueList(rows: map<Id, Row>, now: Time, limit: nat, items: seq<Item>) {
    && |items| <= limit
    && (forall k :: 0 <= k < |items| ==>
          && items[k].row in rows && rows[items[k].row].status == Queued && rows[items[k].row].nextAttempt <= now
          && items[k].message == rows[items[k].row].message && items[k].attempts == rows[items[k].row].attempts)
    && (forall j, k :: 0 <= j < k < |items| ==>
          items[j].row != items[k].row && rows[items[j].row].nextAttempt <= rows[items[k].row].nextAttempt)
    && (forall r :: r in rows && rows[r].status == Queued && rows[r].nextAttempt <= now
                    && (forall k :: 0 <= k < |items| ==> items[k].row != r) ==>
          |items| == limit && forall k :: 0 <= k < |items| ==> rows[items[k].row].nextAttempt <= rows[r].nextAttempt)
  }

  lemma ListedOnce(rows: map<Id, Row>, now: Time, limit: nat, items: seq<Item>)
    requires Listing(rows, now, limit, items)
    ensures Distinct(items) && OthersSame(rows, rows, items)
  {
    hide RowsOf;
  }

  lemma NoneAttempted(rows: map<Id, Row>, transport: map<Id, string>, maxAttempts: nat, items: seq<Item>,
      turns: seq<Turn>)
    ensures AllAttempted(rows, transport, maxAttempts, items, turns, 0)
  {
  }

  /** An attempted item stays attempted through the attempt at another row. */
  lemma StillAttempted(before: map<Id, Row>, rows: map<Id, Row>, beforeTransport: map<Id, string>,
      transport: map<Id, string>, maxAttempts: nat, item: Item, accepts: bool, other: Item, otherAccepts: bool)
    requires Attempted(before, beforeTransport, maxAttempts, item, accepts)
             && Attempted(rows, transport, maxAttempts, other, otherAccepts)
    requires other.row in before && other.row != item.row && rows == before[other.row := rows[other.row]]
    requires before[other.row].message == other.message
    requires item.message != other.message ==>
               item.message in beforeTransport ==>
                 item.message in transport && transport[item.message] == beforeTransport[item.message]
    ensures Attempted(rows, transport, maxAttempts, item, accepts)
  {
    hide Summary;
    if item.message != other.message {
      SummaryOfOthers(before, other.row, rows[other.row], item.message);
    }
  }

  lemma OneMoreAttempted(before: map<Id, Row>, rows: map<Id, Row>, beforeTransport: map<Id, string>,
      transport: map<Id, string>, maxAttempts: nat, items: seq<Item>, turns: seq<Turn>, n: nat)
    requires n < |items| && n < |turns| && Distinct(items)
    requires AllAttempted(before, beforeTransport, maxAttempts, items, turns, n)
    requires turns[n].Smooth() ==> Attempted(rows, transport, maxAttempts, items[n], turns[n].accepts)
    requires OnlyTouches(before, rows, beforeTransport, transport, items[n])
    ensures AllAttempted(rows, transport, maxAttempts, items, turns, n + 1)
  {
    if forall k :: 0 <= k < n + 1 ==> turns[k].Smooth() {
      forall k | 0 <= k < n ensures Attempted(rows, transport, maxAttempts, items[k], turns[k].accepts) {
        StillAttempted(before, rows, beforeTransport, transport, maxAttempts, items[k], turns[k].accepts, items[n],
          turns[n].accepts);
      }
    }
  }

  class Queue {
    const maxAttempts: nat
    var rows: map<Id, Row>
    var transport: map<Id, string>
    var now: Time
    ghost var history: map<Id, History>
    ghost var worker: Worker
    ghost var states: seq<System>
    ghost var actions: seq<Action>

    ghost function State(): System
      reads this
    {
      System(rows, transport, history, now, worker)
    }

    /** The object is at the end of a run of the protocol. */
    ghost predicate Valid()
      reads this
    {
      maxAttempts >= 1 && Run(maxAttempts, states, actions) && states[|states| - 1] == State()
    }

    /** An option below one falls back to twelve attempts. */
    constructor (limit: int)
      ensures Valid() && State() == EmptySystem && maxAttempts == if limit < 1 then 12 else limit
    {
      maxAttempts := if limit < 1 then 12 else limit;
      rows, transport, now := map[], map[], 0;
      history, worker := map[], Idle;
      states, actions := [EmptySystem], [];
    }

    /** The state is the one after an action: add it to the trace. */
    ghost method Record(a: Action)
      requires maxAttempts >= 1 && Run(maxAttempts, states, actions) && Enabled(states[|states| - 1], a)
      requires State() == Effect(maxAttempts, states[|states| - 1], a)
      modifies `states, `actions
      ensures Valid() && actions == old(actions) + [a] && states == old(states) + [State()]
    {
      hide Effect, Enabled;
      states, actions := states + [State()], actions + [a];
    }

    method InsertRows(message: Id, first: Id, recipients: seq<string>)
      requires forall r :: first <= r < first + |recipients| ==> r !in rows
      modifies `rows
      ensures rows == old(rows) + NewRows(message, first, recipients, now)
    {
      ghost var before := rows;
      var k := 0;
      while k < |recipients|
        invariant 0 <= k <= |recipients|
        invariant forall r :: r in rows <==> r in before || first <= r < first + k
        invariant forall r :: r in before ==> rows[r] == before[r]
        invariant forall r :: first <= r < first + k ==> rows[r] == NewRow(message, first, recipients, now, r)
      {
        rows := rows[first + k := Row(message, recipients[k], Queued, 0, now, now)];
        k := k + 1;
      }
      assert rows == before + NewRows(message, first, recipients, now);
    }

    /** New rows for a message that was not known before. */
    method Enqueue(message: Id, status: string, first: Id, recipients: seq<string>)
      requires Valid() && message !in transport && forall r :: first <= r < first + |recipients| ==> r !in rows
      modifies this
      ensures Valid() && actions == old(actions) + [Action.Enqueue(message, status, first, recipients)]
      ensures rows == old(rows) + NewRows(message, first, recipients, now)
              && transport == old(transport)[message := status]
      ensures forall r :: r in rows <==> r in old(rows) || first <= r < first + |recipients|
      ensures forall r :: first <= r < first + |recipients| ==>
                rows[r] == Row(message, recipients[r - first], Queued, 0, now, now)
      ensures now == old(now) && worker == old(worker)
    {
      ghost var a := Action.Enqueue(message, status, first, recipients);
      ghost var after := Effect(maxAttempts, State(), a);
      InsertRows(message, first, recipients);
      transport := transport[message := status];
      history := after.history;
      hide NewRows, NewNotes, Run;
      Record(a);
    }

    method Advance(elapsed: nat)
      requires Valid()
      modifies this
      ensures Valid() && actions == old(actions) + [Tick(elapsed)] && states == old(states) + [State()]
      ensures State() == old(State()).(now := old(now) + elapsed)
    {
      now := now + elapsed;
      Record(Tick(elapsed));
    }

    method RequeueStale() returns (recovered: nat)
      modifies `rows
      ensures rows == RecoveredRows(old(rows), now)
      ensures recovered == |StaleRows(old(rows), old(rows).Keys, now)|
    {
      ghost var before := rows;
      var left := rows.Keys;
      recovered := 0;
      hide StaleRows, RequeuedSoFar, RecoveredRows;
      assert before.Keys - left == {};
      NoneRequeued(before, now);
      while left != {}
        invariant left <= before.Keys && RequeuedSoFar(before, rows, before.Keys - left, now)
        invariant recovered == |StaleRows(before, before.Keys - left, now)|
        decreases left
      {
        var r :| r in left;
        assert before.Keys - (left - {r}) == before.Keys - left + {r};
        StaleOne(before, before.Keys - left, r, now);
        RequeuedOne(before, rows, before.Keys - left, now, r);
        if rows[r].status == Delivering && rows[r].updatedAt < now - STALE_AFTER {
          rows := rows[r := rows[r].(status := Queued, nextAttempt := now, updatedAt := now)];
          recovered := recovered + 1;
        }
        left := left - {r};
      }
      assert before.Keys - left == before.Keys;
      RequeuedAll(before, rows, now);
    }

    /** Every delivery whose lease ran out is queued again, due at once. */
    method RecoverStaleQueue() returns (recovered: nat)
      requires Valid() && worker.Idle?
      modifies this
      ensures Valid() && actions == old(actions) + [Recover] && states == old(states) + [State()]
      ensures rows.Keys == old(rows).Keys
      ensures forall r :: r in rows ==>
                rows[r] == if old(rows)[r].status == Delivering && old(rows)[r].updatedAt < now - 30 * 60_000_000_000
                           then old(rows)[r].(status := Queued, nextAttempt := now, updatedAt := now) else old(rows)[r]
      ensures rows == RecoveredRows(old(rows), now) && now == old(now) && transport == old(transport)
              && worker == old(worker)
      ensures recovered == |StaleRows(old(rows), old(rows).Keys, now)|
    {
      ghost var after := Effect(maxAttempts, State(), Recover);
      recovered := RequeueStale();
      assert rows == RecoveredRows(old(rows), now);
      history := after.history;
      hide RecoveredRows, Run;
      Record(Recover);
    }

    /** A ready row outside the list that is due first, if there is one. */
    method Earliest(chosen: set<Id>) returns (best: Option<Id>)
      ensures best.None? ==> forall r :: r in rows && Ready(rows[r], now) ==> r in chosen
      ensures best.Some? ==> best.value in rows && best.value !in chosen && Ready(rows[best.value], now)
      ensures best.Some? ==>
                forall r :: r in rows && Ready(rows[r], now) && r !in chosen ==>
                  rows[best.value].nextAttempt <= rows[r].nextAttempt
    {
      best := None;
      var left := rows.Keys;
      while left != {}
        invariant left <= rows.Keys
        invariant best.None? ==> forall r :: r in rows && r !in left && Ready(rows[r], now) ==> r in chosen
        invariant best.Some? ==> best.value in rows && best.value !in chosen && Ready(rows[best.value], now)
        invariant best.Some? ==>
                    forall r :: r in rows && r !in left && Ready(rows[r], now) && r !in chosen ==>
                      rows[best.value].nextAttempt <= rows[r].nextAttempt
        decreases left
      {
        var r :| r in left;
        if rows[r].status == Queued && rows[r].nextAttempt <= now && r !in chosen {
          if best.None? || rows[r].nextAttempt < rows[best.value].nextAttempt {
            best := Some(r);
          }
        }
        left := left - {r};
      }
    }

    /** The ready rows, earliest due first, as many as fit. */
    method Select(most: nat) returns (items: seq<Item>)
      ensures Listing(rows, now, most, items)
    {
      items := [];
      var chosen: set<Id> := {};
      var next := Earliest(chosen);
      while |items| < most && next.Some?
        invariant |items| <= most
        invariant chosen == RowsOf(items)
        invariant next.None? ==> forall r :: r in rows && Ready(rows[r], now) ==> r in chosen
        invariant next.Some? ==> next.value in rows && next.value !in chosen && Ready(rows[next.value], now)
        invariant next.Some? ==>
                    forall r :: r in rows && Ready(rows[r], now) && r !in chosen ==>
                      rows[next.value].nextAttempt <= rows[r].nextAttempt
        invariant Ordered(items)
        invariant forall r :: r in rows && Ready(rows[r], now) && r !in chosen ==> NotAfter(items, r)
        decreases most - |items|
      {
        var r := next.value;
        RowsOfOneMore(items, Item(r, rows[r].message, rows[r].attempts));
        AddNext(items, chosen, r);
        items := items + [Item(r, rows[r].message, rows[r].attempts)];
        chosen := chosen + {r};
        next := Earliest(chosen);
      }
      forall r | r in rows && Ready(rows[r], now) && forall k :: 0 <= k < |items| ==> items[k].row != r
        ensures |items| == most && NotAfter(items, r)
      {
        NotNamed(items, r);
      }
    }

    lemma AddNext(items: seq<Item>, chosen: set<Id>, r: Id)
      requires Ordered(items) && chosen == RowsOf(items)
      requires r in rows && r !in chosen && Ready(rows[r], now) && NotAfter(items, r)
      requires forall q :: q in rows && Ready(rows[q], now) && q !in chosen ==>
               rows[r].nextAttempt <= rows[q].nextAttempt
      requires forall q :: q in rows && Ready(rows[q], now) && q !in chosen ==> NotAfter(items, q)
      ensures var more := items + [Item(r, rows[r].message, rows[r].attempts)];
              && Ordered(more)
              && forall q :: q in rows && Ready(rows[q], now) && q !in chosen ==> NotAfter(more, q)
    {
      forall k | 0 <= k < |items| ensures items[k].row != r {
        NotNamed(items, r);
      }
    }

    predicate Listed(item: Item)
      reads this
    {
      item.row in rows && Ready(rows[item.row], now)
        && item == Item(item.row, rows[item.row].message, rows[item.row].attempts)
    }

    /** Each listed row once, earliest due first. */
    predicate Ordered(items: seq<Item>)
      reads this
    {
      && (forall k :: 0 <= k < |items| ==> Listed(items[k]))
      && (forall j, k :: 0 <= j < k < |items| ==>
            items[j].row != items[k].row && rows[items[j].row].nextAttempt <= rows[items[k].row].nextAttempt)
    }

    /** The row is due no earlier than the listed ones. */
    predicate NotAfter(items: seq<Item>, r: Id)
      reads this
    {
      r in rows && forall k :: 0 <= k < |items| ==>
        items[k].row in rows && rows[items[k].row].nextAttempt <= rows[r].nextAttempt
    }

    /** The ready rows, earliest due first, at most the limit; a limit out of
        range falls back to twenty. */
    method QueueReady(limit: int) returns (items: seq<Item>)
      requires Valid() && worker.Idle?
      modifies `worker, `states, `actions
      ensures Valid() && old(states) <= states && worker == Scanning(items)
      ensures Listing(rows, now, if limit < 1 || limit > 100 then 20 else limit, items)
      ensures DueList(rows, now, if limit < 1 || limit > 100 then 20 else limit, items)
    {
      var most := if limit < 1 || limit > 100 then 20 else limit;
      items := Select(most);
      ListingIsDue(rows, now, most, items);
      worker := Scanning(items);
      hide Listing, DueList, Run;
      Record(Snapshot(most, items));
    }

    /** Takes the next listed row if it is still queued. */
    method ClaimQueue(r: Id, stored: bool, seen: bool) returns (claimed: bool)
      requires Valid() && worker.Scanning? && worker.rest != [] && worker.rest[0].row == r && (seen ==> stored)
      modifies `rows, `history, `worker, `states, `actions
      ensures Valid() && actions == old(actions) + [Claim(stored, seen)] && states == old(states) + [State()]
      ensures var hit := stored && r in old(rows) && old(rows)[r].status == Queued;
              && (claimed <==> hit && seen)
              && rows == if hit then old(rows)[r := old(rows)[r].(status := Delivering,
                                                                  attempts := old(rows)[r].attempts + 1,
                                                                    updatedAt := now)]
                         else old(rows)
      ensures worker == if claimed
                        then Claimed(old(worker.rest[0]).(attempts := old(worker.rest[0].attempts) + 1),
                                     old(worker.rest[1..]))
                        else Scanning(old(worker.rest[1..]))
    {
      ghost var after := ClaimEffect(State(), stored, seen);
      claimed := false;
      if stored && r in rows && rows[r].status == Queued {
        rows := rows[r := rows[r].(status := Delivering, attempts := rows[r].attempts + 1, updatedAt := now)];
        claimed := seen;
      }
      history, worker := after.history, after.worker;
      Record(Claim(stored, seen));
    }

    /** The deliverer's answer; it changes no table. */
    ghost method Answer(accepts: bool)
      requires Valid() && worker.Claimed?
      modifies `history, `worker, `states, `actions
      ensures Valid() && actions == old(actions) + [Deliver(accepts)] && states == old(states) + [State()]
      ensures worker == if accepts then Accepted(old(worker.item), old(worker.rest))
              else Rejected(old(worker.item), old(worker.rest))
    {
      ghost var after := Effect(maxAttempts, State(), Deliver(accepts));
      history, worker := after.history, after.worker;
      Record(Deliver(accepts));
    }

    method CompleteQueue(r: Id, stored: bool)
      requires Valid() && worker.Accepted? && worker.item.row == r
      modifies `rows, `worker, `states, `actions
      ensures Valid() && actions == old(actions) + [Complete(stored)] && states == old(states) + [State()]
      ensures rows == if stored && r in old(rows)
              then old(rows)[r := old(rows)[r].(status := Delivered, updatedAt := now)]
                      else old(rows)
      ensures worker == Refreshing(old(worker.item), old(worker.rest))
    {
      if stored && r in rows {
        rows := rows[r := rows[r].(status := Delivered, updatedAt := now)];
      }
      worker := Refreshing(worker.item, worker.rest);
      Record(Complete(stored));
    }

    method RetryQueue(r: Id, attempts: nat, stored: bool)
      requires Valid() && worker.Rejected? && worker.item.row == r && worker.item.attempts == attempts
      modifies `rows, `worker, `states, `actions
      ensures Valid() && actions == old(actions) + [Retry(stored)] && states == old(states) + [State()]
      ensures rows == if stored && r in old(rows)
                      then old(rows)[r := old(rows)[r].(status := if attempts >= maxAttempts then Failed else Queued,
                                                        nextAttempt := now + Delay(attempts), updatedAt := now)]
                      else old(rows)
      ensures worker == Refreshing(old(worker.item), old(worker.rest))
    {
      var status := Queued;
      if attempts >= maxAttempts {
        status := Failed;
      }
      var delay := Delay(attempts);
      if stored && r in rows {
        rows := rows[r := rows[r].(status := status, nextAttempt := now + delay, updatedAt := now)];
      }
      worker := Refreshing(worker.item, worker.rest);
      Record(Retry(stored));
    }

    /** Counts the rows of a message by status. */
    method CountRows(message: Id) returns (queued: nat, delivering: nat, failed: nat, delivered: nat)
      ensures queued == |WithStatus(rows, rows.Keys, message, Queued)|
      ensures delivering == |WithStatus(rows, rows.Keys, message, Delivering)|
      ensures failed == |WithStatus(rows, rows.Keys, message, Failed)|
      ensures delivered == |WithStatus(rows, rows.Keys, message, Delivered)|
    {
      ghost var seen: set<Id> := {};
      var left := rows.Keys;
      queued, delivering, failed, delivered := 0, 0, 0, 0;
      while left != {}
        invariant seen !! left && seen + left == rows.Keys
        invariant queued == |WithStatus(rows, seen, message, Queued)|
        invariant delivering == |WithStatus(rows, seen, message, Delivering)|
        invariant failed == |WithStatus(rows, seen, message, Failed)|
        invariant delivered == |WithStatus(rows, seen, message, Delivered)|
        decreases left
      {
        var r :| r in left;
        forall status ensures
          |WithStatus(rows, seen + {r}, message, status)| ==
          |WithStatus(rows, seen, message, status)|
            + if rows[r].message == message && rows[r].status == status then 1 else 0
        {
          CountOne(rows, seen, r, message, status);
        }
        if rows[r].message == message {
          match rows[r].status
          case Queued => queued := queued + 1;
          case Delivering => delivering := delivering + 1;
          case Failed => failed := failed + 1;
          case Delivered => delivered := delivered + 1;
        }
        left := left - {r};
        seen := seen + {r};
      }
      assert seen == rows.Keys;
    }

    /** Writes the summary of a message's rows as its transport status. */
    method RefreshMessageTransportStatus(message: Id, stored: bool)
      requires Valid() && worker.Refreshing? && worker.item.message == message
      modifies `transport, `worker, `states, `actions
      ensures Valid() && actions == old(actions) + [Refresh(stored)] && states == old(states) + [State()]
      ensures transport ==
              if stored && message in old(transport) then old(transport)[message := Summary(rows, message)]
              else old(transport)
      ensures worker == Scanning(old(worker.rest))
      ensures stored && message in old(transport) ==> Reports(rows, message, transport[message])
    {
      SummaryReports(rows, message);
      hide Reports;
      var queued, delivering, failed, delivered := CountRows(message);
      var status := "delivered";
      if queued + delivering > 0 {
        status := "queued";
      } else if failed > 0 {
        if delivered > 0 {
          status := "partial";
        } else {
          status := "failed";
        }
      }
      assert status == Summary(rows, message) by {
        CountShowsRow(rows, message, Queued);
        CountShowsRow(rows, message, Delivering);
        CountShowsRow(rows, message, Failed);
        CountShowsRow(rows, message, Delivered);
      }
      if stored && message in transport {
        transport := transport[message := status];
      }
      worker := Scanning(worker.rest);
      Record(Refresh(stored));
    }

    /** The deliverer answers for the claimed row; write it back and refresh. */
    method Finish(item: Item, turn: Turn)
      requires Valid() && worker.Claimed? && worker.item == item
      requires item.row in rows && rows[item.row].message == item.message && rows[item.row].attempts == item.attempts
      modifies this
      ensures Valid() && old(states) <= states && worker == Scanning(old(worker.rest))
      ensures OnlyTouches(old(rows), rows, old(transport), transport, item)
      ensures turn.Smooth() && item.attempts > 0 && item.message in old(transport) ==>
                Attempted(rows, transport, maxAttempts, item.(attempts := item.attempts - 1), turn.accepts)
    {
      hide Run, Summary, Delay, Effect, Enabled;
      Advance(turn.elapsed);
      Answer(turn.accepts);
      if turn.accepts {
        CompleteQueue(item.row, turn.writeStored);
      } else {
        RetryQueue(item.row, item.attempts, turn.writeStored);
      }
      RefreshMessageTransportStatus(item.message, turn.refreshStored);
    }

    /** One iteration of the batch loop. */
    method Attempt(item: Item, turn: Turn)
      requires Valid() && worker.Scanning? && worker.rest != [] && worker.rest[0] == item
      modifies this
      ensures Valid() && old(states) <= states && worker == Scanning(old(worker.rest[1..]))
      ensures OnlyTouches(old(rows), rows, old(transport), transport, item)
      ensures turn.Smooth() ==> Attempted(rows, transport, maxAttempts, item, turn.accepts)
      ensures turn.Smooth() ==> item.message in transport && Reports(rows, item.message, transport[item.message])
    {
      assert Fresh(State(), item) && item.message in transport by {
        RunKeepsInvariant(maxAttempts, states, actions, |states| - 1);
      }
      hide Run, Summary, Delay, Effect, Enabled, Attempted;
      var claimed := ClaimQueue(item.row, turn.claimStored, turn.claimSeen && turn.claimStored);
      if claimed {
        Finish(item.(attempts := item.attempts + 1), turn);
      }
      if turn.Smooth() {
        AttemptedReports(rows, transport, maxAttempts, item, turn.accepts);
      }
    }

    /** The batch loop, up to the end of the list or of the turns. */
    method AttemptAll(items: seq<Item>, turns: seq<Turn>, ghost limit: nat)
      requires Valid() && worker == Scanning(items) && Listing(rows, now, limit, items)
      modifies this
      ensures Valid() && worker.Scanning? && old(states) <= states
      ensures OthersSame(old(rows), rows, items)
      ensures |turns| >= |items| ==> AllAttempted(rows, transport, maxAttempts, items, turns, |items|)
    {
      var k := 0;
      hide Valid, Attempted, Listing, Distinct, AllAttempted, OthersSame, OnlyTouches, Reports;
      ListedOnce(rows, now, limit, items);
      NoneAttempted(rows, transport, maxAttempts, items, turns);
      while k < |items| && k < |turns|
        invariant 0 <= k <= |items| && k <= |turns|
        invariant Valid() && old(states) <= states && worker == Scanning(items[k..])
        invariant OthersSame(old(rows), rows, items)
        invariant AllAttempted(rows, transport, maxAttempts, items, turns, k)
      {
        ghost var beforeRows, beforeTransport := rows, transport;
        Attempt(items[k], turns[k]);
        OthersSameStep(old(rows), beforeRows, rows, beforeTransport, transport, items, k);
        OneMoreAttempted(beforeRows, rows, beforeTransport, transport, maxAttempts, items, turns, k);
        k := k + 1;
      }
    }

    /** Recover, list, then attempt each listed row until the context is done
        (the turns run out). The tables move by steps of the protocol only. When
        every write is stored, each listed row has been attempted once and its
        message reports the summary of all its rows. */
    method RunBatch(limit: int, turns: seq<Turn>) returns (items: seq<Item>)
      requires Valid() && worker.Idle?
      modifies this
      ensures Valid() && worker.Idle? && old(states) <= states
      ensures Listing(RecoveredRows(old(rows), old(now)), old(now),
                      if limit < 1 || limit > 100 then 20 else limit, items)
      ensures OthersSame(RecoveredRows(old(rows), old(now)), rows, items)
      ensures |turns| >= |items| ==> AllAttempted(rows, transport, maxAttempts, items, turns, |items|)
      ensures |turns| >= |items| && (forall k :: 0 <= k < |items| ==> turns[k].Smooth()) ==>
                forall k :: 0 <= k < |items| ==>
                  items[k].message in transport && Reports(rows, items[k].message, transport[items[k].message])
    {
      hide Run, Summary, Effect, Enabled, Listing, AllAttempted, OthersSame, Reports;
      var _ := RecoverStaleQueue();
      items := QueueReady(limit);
      AttemptAll(items, turns, if limit < 1 || limit > 100 then 20 else limit);
      if |turns| >= |items| && forall k :: 0 <= k < |items| ==> turns[k].Smooth() {
        AllReport(rows, transport, maxAttempts, items, turns);
      }
      Stopped();
    }

    ghost method Stopped()
      requires Valid()
      modifies `worker, `states, `actions
      ensures Valid() && worker.Idle? && old(states) <= states
    {
      worker := Idle;
      Record(Stop);
    }
  }
}
