/** The outgoing queue as a protocol: one worker that claims, delivers and writes
    back, with crashes and lost writes at any point, over the queue rows. */
module OutgoingQueue {
  import opened Common
  import Times

  type Id = nat
  type Time = Times.Time

  const MINUTE: Time := Times.MINUTE
  const STALE_AFTER: Time := 30 * MINUTE

  datatype Status = Queued | Delivering | Delivered | Failed
  datatype Row = Row(message: Id, recipient: string, status: Status, attempts: nat, nextAttempt: Time, updatedAt: Time)

  /** The worker's copy of a row, taken when it listed the ready ones. */
  datatype Item = Item(row: Id, message: Id, attempts: nat)

  datatype Worker =
    | Idle
    | Scanning(rest: seq<Item>)
    | Claimed(item: Item, rest: seq<Item>)
    | Accepted(item: Item, rest: seq<Item>)
    | Rejected(item: Item, rest: seq<Item>)
    | Refreshing(item: Item, rest: seq<Item>)

  /** What happened to a row so far; not stored by the program. */
  datatype History = History(recoveries: nat, accepted: bool, claims: seq<Time>)

  datatype System = System(
    rows: map<Id, Row>,
    transport: map<Id, string>,
    history: map<Id, History>,
    now: Time,
    worker: Worker)

  // ------------------------------------------------------------ row updates

  predicate Stale(row: Row, now: Time) {
    row.status == Delivering && row.updatedAt < now - STALE_AFTER
  }

  predicate Ready(row: Row, now: Time) {
    row.status == Queued && row.nextAttempt <= now
  }

  function RecoveredRow(row: Row, now: Time): Row {
    if Stale(row, now) then row.(status := Queued, nextAttempt := now, updatedAt := now) else row
  }

  function RecoveredRows(rows: map<Id, Row>, now: Time): map<Id, Row> {
    map r | r in rows :: RecoveredRow(rows[r], now)
  }

  function ClaimedRow(row: Row, now: Time): Row {
    row.(status := Delivering, attempts := row.attempts + 1, updatedAt := now)
  }

  function CompletedRow(row: Row, now: Time): Row {
    row.(status := Delivered, updatedAt := now)
  }

  function Pow2(n: nat): nat {
    if n == 0 then 1 else 2 * Pow2(n - 1)
  }

  /** The pause after the given number of attempts. */
  function Delay(attempts: int): Time {
    var delay := 30 * MINUTE * Pow2(Min(Max(attempts - 1, 0), 6));
    if delay > 1440 * MINUTE then 1440 * MINUTE else delay
  }

  function RetriedRow(row: Row, attempts: nat, maxAttempts: nat, now: Time): Row {
    row.(status := if attempts >= maxAttempts then Failed else Queued,
         nextAttempt := now + Delay(attempts), updatedAt := now)
  }

  // ---------------------------------------------------------------- summary

  predicate HasRow(rows: map<Id, Row>, message: Id, status: Status) {
    exists r :: r in rows && rows[r].message == message && rows[r].status == status
  }

  predicate Pending(rows: map<Id, Row>, message: Id) {
    HasRow(rows, message, Queued) || HasRow(rows, message, Delivering)
  }

  /** The transport status the queue rows of a message add up to. */
  function Summary(rows: map<Id, Row>, message: Id): string {
    if Pending(rows, message) then "queued"
    else if !HasRow(rows, message, Failed) then "delivered"
    else if HasRow(rows, message, Delivered) then "partial"
    else "failed"
  }

  /** The status says of the rows of a message what it is for: some are still to
      be delivered, or all have been, or none has, or some have and some have not. */
  ghost predicate Reports(rows: map<Id, Row>, message: Id, status: string) {
    var open := exists r ::
                  r in rows && rows[r].message == message && (rows[r].status == Queued || rows[r].status == Delivering);
    var failed := exists r :: r in rows && rows[r].message == message && rows[r].status == Failed;
    var delivered := exists r :: r in rows && rows[r].message == message && rows[r].status == Delivered;
    && (status == "queued" <==> open)
    && (status == "delivered" <==> !open && !failed)
    && (status == "failed" <==> !open && failed && !delivered)
    && (status == "partial" <==> !open && failed && delivered)
  }

  lemma SummaryReports(rows: map<Id, Row>, message: Id)
    ensures Reports(rows, message, Summary(rows, message))
  {
    assert "queued" != "delivered" && "queued" != "failed" && "queued" != "partial" by {
      assert "queued"[0] == 'q' && "delivered"[0] == 'd' && "failed"[0] == 'f' && "partial"[0] == 'p';
    }
    assert "delivered" != "failed" && "delivered" != "partial" && "failed" != "partial" by {
      assert "delivered"[0] == 'd' && "failed"[0] == 'f' && "partial"[0] == 'p';
    }
  }

  // ---------------------------------------------------------------- actions

  /** The batch the worker lists: ready rows, each once, earliest due first, cut
      off at the limit. */
  ghost predicate Listing(rows: map<Id, Row>, now: Time, limit: nat, items: seq<Item>) {
    && |items| <= limit
    && (forall k :: 0 <= k < |items| ==>
          && items[k].row in rows && Ready(rows[items[k].row], now)
          && items[k] == Item(items[k].row, rows[items[k].row].message, rows[items[k].row].attempts))
    && (forall j, k :: 0 <= j < k < |items| ==>
          items[j].row != items[k].row && rows[items[j].row].nextAttempt <= rows[items[k].row].nextAttempt)
    && (forall r :: r in rows && Ready(rows[r], now) && (forall k :: 0 <= k < |items| ==> items[k].row != r) ==>
          |items| == limit && forall k :: 0 <= k < |items| ==> rows[items[k].row].nextAttempt <= rows[r].nextAttempt)
  }

  datatype Action =
    | Enqueue(message: Id, status: string, first: Id, recipients: seq<string>)
    | Tick(elapsed: nat)
    | Recover
    | Snapshot(limit: nat, items: seq<Item>)
    | Claim(stored: bool, seen: bool)
    | Deliver(accepts: bool)
    | Complete(stored: bool)
    | Retry(stored: bool)
    | Refresh(stored: bool)
    | Stop

  function NewRow(message: Id, first: Id, recipients: seq<string>, now: Time, r: Id): Row
    requires first <= r < first + |recipients|
  {
    Row(message, recipients[r - first], Queued, 0, now, now)
  }

  function NewRows(message: Id, first: Id, recipients: seq<string>, now: Time): map<Id, Row> {
    map r | first <= r < first + |recipients| :: NewRow(message, first, recipients, now, r)
  }

  function NewNotes(rows: map<Id, Row>): map<Id, History> {
    map r | r in rows :: History(0, false, [])
  }

  /** When an action can happen. `Stop` is both the end of a batch and a crash. */
  ghost predicate Enabled(s: System, a: Action) {
    match a
    case Enqueue(message, _, first, recipients) =>
      message !in s.transport && forall r :: first <= r < first + |recipients| ==> r !in s.rows
    case Tick(_) => true
    case Recover => s.worker.Idle?
    case Snapshot(limit, items) => s.worker.Idle? && Listing(s.rows, s.now, limit, items)
    case Claim(stored, seen) => s.worker.Scanning? && s.worker.rest != [] && (seen ==> stored)
    case Deliver(_) => s.worker.Claimed?
    case Complete(_) => s.worker.Accepted?
    case Retry(_) => s.worker.Rejected?
    case Refresh(_) => s.worker.Refreshing?
    case Stop => true
  }

  function Noted(s: System, r: Id): History {
    if r in s.history then s.history[r] else History(0, false, [])
  }

  /** ClaimQueue: a conditional update; the worker goes on with the row only if
      the update was stored, hit a queued row and the reply was seen. */
  function ClaimEffect(s: System, stored: bool, seen: bool): System
    requires s.worker.Scanning? && s.worker.rest != []
  {
    var item := s.worker.rest[0];
    var rest := s.worker.rest[1..];
    if !stored || item.row !in s.rows || s.rows[item.row].status != Queued then s.(worker := Scanning(rest))
    else
      var note := Noted(s, item.row);
      s.(rows := s.rows[item.row := ClaimedRow(s.rows[item.row], s.now)],
         history := s.history[item.row := note.(claims := note.claims + [s.now])],
         worker := if seen then Claimed(item.(attempts := item.attempts + 1), rest) else Scanning(rest))
  }

  ghost function Effect(maxAttempts: nat, s: System, a: Action): System
    requires Enabled(s, a)
  {
    match a
    case Enqueue(message, status, first, recipients) =>
      s.(rows := s.rows + NewRows(message, first, recipients, s.now),
         history := s.history + NewNotes(NewRows(message, first, recipients, s.now)),
         transport := s.transport[message := status])
    case Tick(elapsed) => s.(now := s.now + elapsed)
    case Recover =>
      s.(rows := RecoveredRows(s.rows, s.now),
         history := map r | r in s.history ::
           if r in s.rows && Stale(s.rows[r], s.now) then s.history[r].(recoveries := s.history[r].recoveries + 1)
             else s.history[r])
    case Snapshot(_, items) => s.(worker := Scanning(items))
    case Claim(stored, seen) => ClaimEffect(s, stored, seen)
    case Deliver(accepts) =>
      var item := s.worker.item;
      if accepts then s.(worker := Accepted(item, s.worker.rest),
        history := s.history[item.row := Noted(s, item.row).(accepted := true)])
      else s.(worker := Rejected(item, s.worker.rest))
    case Complete(stored) =>
      var item := s.worker.item;
      var rows := if stored && item.row in s.rows then s.rows[item.row := CompletedRow(s.rows[item.row], s.now)]
        else s.rows;
      s.(rows := rows, worker := Refreshing(item, s.worker.rest))
    case Retry(stored) =>
      var item := s.worker.item;
      var rows := if stored && item.row in s.rows
                  then s.rows[item.row := RetriedRow(s.rows[item.row], item.attempts, maxAttempts, s.now)] else s.rows;
      s.(rows := rows, worker := Refreshing(item, s.worker.rest))
    case Refresh(stored) =>
      var message := s.worker.item.message;
      var transport := if stored && message in s.transport then s.transport[message := Summary(s.rows, message)]
        else s.transport;
      s.(transport := transport, worker := Scanning(s.worker.rest))
    case Stop => s.(worker := Idle)
  }

  const EmptySystem := System(map[], map[], map[], 0, Idle)

  ghost predicate Run(maxAttempts: nat, states: seq<System>, actions: seq<Action>) {
    && |states| == |actions| + 1
    && states[0] == EmptySystem
    && forall i :: 0 <= i < |actions| ==>
       Enabled(states[i], actions[i]) && states[i + 1] == Effect(maxAttempts, states[i], actions[i])
  }

  // -------------------------------------------------------------- invariant

  /** Facts about one row and what happened to it. */
  predicate RowOk(maxAttempts: nat, row: Row, note: History, now: Time) {
    && row.attempts == |note.claims|
    && row.attempts <= maxAttempts + note.recoveries
    && (row.status == Queued ==> row.attempts < maxAttempts + note.recoveries)
    && (row.status == Delivered ==> note.accepted)
  }

  /** Without a recovery, each claim waits out the delay of the attempt before. */
  predicate Spaced(row: Row, note: History, now: Time) {
    && (forall k :: 0 <= k < |note.claims| ==> note.claims[k] <= now)
    && (note.recoveries == 0 ==>
          && (forall k :: 0 < k < |note.claims| ==> note.claims[k] >= note.claims[k - 1] + Delay(k))
          && (row.status == Queued && note.claims != [] ==>
                row.nextAttempt >= note.claims[|note.claims| - 1] + Delay(|note.claims|)))
  }

  ghost predicate RowsOk(maxAttempts: nat, s: System) {
    && s.rows.Keys == s.history.Keys
    && (forall r :: r in s.rows ==>
          && s.rows[r].message in s.transport
          && RowOk(maxAttempts, s.rows[r], s.history[r], s.now)
          && Spaced(s.rows[r], s.history[r], s.now))
  }

  /** An item still to be claimed: the row is as it was when it was listed. */
  predicate Fresh(s: System, item: Item) {
    && item.row in s.rows
    && Ready(s.rows[item.row], s.now)
    && item == Item(item.row, s.rows[item.row].message, s.rows[item.row].attempts)
  }

  /** The row the worker holds: nobody else touches it, attempts agree. */
  predicate Held(s: System, item: Item) {
    && item.row in s.rows
    && s.rows[item.row].status == Delivering
    && item == Item(item.row, s.rows[item.row].message, s.rows[item.row].attempts)
  }

  ghost predicate RestOk(s: System, rest: seq<Item>) {
    && (forall k :: 0 <= k < |rest| ==> Fresh(s, rest[k]))
    && (forall j, k :: 0 <= j < k < |rest| ==> rest[j].row != rest[k].row)
  }

  ghost predicate WorkerOk(s: System) {
    match s.worker
    case Idle => true
    case Scanning(rest) => RestOk(s, rest)
    case Claimed(item, rest) => Held(s, item) && RestOk(s, rest)
    case Accepted(item, rest) => Held(s, item) && RestOk(s, rest) && item.row in s.history
      && s.history[item.row].accepted
    case Rejected(item, rest) => Held(s, item) && RestOk(s, rest)
    case Refreshing(item, rest) =>
      item.row in s.rows && s.rows[item.row].message == item.message && s.rows[item.row].attempts == item.attempts
        && RestOk(s, rest)
                               && forall k :: 0 <= k < |rest| ==> rest[k].row != item.row
  }

  ghost predicate Inv(maxAttempts: nat, s: System) {
    RowsOk(maxAttempts, s) && WorkerOk(s)
  }

  lemma NewRowsAreNew(message: Id, first: Id, recipients: seq<string>, now: Time)
    ensures var rows := NewRows(message, first, recipients, now);
            forall r :: r in rows ==> first <= r < first + |recipients| && rows[r].message == message
                                      && rows[r].status == Queued && rows[r].attempts == 0
  {
  }

  lemma EnqueueRows(maxAttempts: nat, s: System, a: Action)
    requires maxAttempts >= 1 && RowsOk(maxAttempts, s) && a.Enqueue? && Enabled(s, a)
    ensures RowsOk(maxAttempts, Effect(maxAttempts, s, a))
  {
    NewRowsAreNew(a.message, a.first, a.recipients, s.now);
    hide NewRows;
  }

  lemma EnqueueWorker(maxAttempts: nat, s: System, a: Action)
    requires WorkerOk(s) && a.Enqueue? && Enabled(s, a)
    ensures WorkerOk(Effect(maxAttempts, s, a))
  {
    NewRowsAreNew(a.message, a.first, a.recipients, s.now);
    hide NewRows;
    var u := Effect(maxAttempts, s, a);
    assert forall r :: r in s.rows ==> r in u.rows && u.rows[r] == s.rows[r];
    assert forall r :: r in s.history && r in s.rows ==> r in u.history && u.history[r] == s.history[r];
    assert u.worker == s.worker && u.now == s.now;
    assert forall item :: Fresh(s, item) ==> Fresh(u, item);
  }

  lemma TickKeeps(maxAttempts: nat, s: System, a: Action)
    requires Inv(maxAttempts, s) && (a.Tick? || a.Stop? || a.Snapshot? || a.Refresh?) && Enabled(s, a)
    ensures Inv(maxAttempts, Effect(maxAttempts, s, a))
  {
  }

  lemma RecoverKeeps(maxAttempts: nat, s: System)
    requires Inv(maxAttempts, s) && s.worker.Idle?
    ensures Inv(maxAttempts, Effect(maxAttempts, s, Recover))
  {
  }

  lemma ClaimedRowOk(maxAttempts: nat, row: Row, note: History, now: Time)
    requires RowOk(maxAttempts, row, note, now) && Spaced(row, note, now) && Ready(row, now)
    ensures var more := note.(claims := note.claims + [now]);
            RowOk(maxAttempts, ClaimedRow(row, now), more, now) && Spaced(ClaimedRow(row, now), more, now)
  {
    hide Delay;
  }

  lemma ClaimKeepsRows(maxAttempts: nat, s: System, stored: bool, seen: bool)
    requires Inv(maxAttempts, s) && Enabled(s, Claim(stored, seen))
    ensures RowsOk(maxAttempts, Effect(maxAttempts, s, Claim(stored, seen)))
  {
    var item := s.worker.rest[0];
    assert Fresh(s, item);
    hide Delay, WorkerOk, RestOk;
    if stored && s.rows[item.row].status == Queued {
      ClaimedRowOk(maxAttempts, s.rows[item.row], s.history[item.row], s.now);
      hide RowOk, Spaced, ClaimedRow;
    }
  }

  lemma ClaimKeepsWorker(maxAttempts: nat, s: System, stored: bool, seen: bool)
    requires WorkerOk(s) && Enabled(s, Claim(stored, seen))
    ensures WorkerOk(Effect(maxAttempts, s, Claim(stored, seen)))
  {
    var item := s.worker.rest[0];
    var rest := s.worker.rest[1..];
    assert Fresh(s, item);
    forall k | 0 <= k < |rest| ensures rest[k] == s.worker.rest[k + 1] && Fresh(s, rest[k]) && rest[k].row != item.row {
    }
  }

  lemma ClaimKeeps(maxAttempts: nat, s: System, stored: bool, seen: bool)
    requires Inv(maxAttempts, s) && Enabled(s, Claim(stored, seen))
    ensures Inv(maxAttempts, Effect(maxAttempts, s, Claim(stored, seen)))
  {
    ClaimKeepsRows(maxAttempts, s, stored, seen);
    ClaimKeepsWorker(maxAttempts, s, stored, seen);
    hide RowsOk, WorkerOk, Effect;
  }

  lemma DeliverKeepsRows(maxAttempts: nat, s: System, accepts: bool)
    requires RowsOk(maxAttempts, s) && s.worker.Claimed? && Held(s, s.worker.item)
    ensures RowsOk(maxAttempts, Effect(maxAttempts, s, Deliver(accepts)))
  {
    hide Delay;
  }

  lemma DeliverKeepsWorker(maxAttempts: nat, s: System, accepts: bool)
    requires RowsOk(maxAttempts, s) && WorkerOk(s) && s.worker.Claimed?
    ensures WorkerOk(Effect(maxAttempts, s, Deliver(accepts)))
  {
    hide RowOk, Spaced;
    var u := Effect(maxAttempts, s, Deliver(accepts));
    assert forall item :: Fresh(s, item) ==> Fresh(u, item);
  }

  lemma DeliverKeeps(maxAttempts: nat, s: System, accepts: bool)
    requires Inv(maxAttempts, s) && s.worker.Claimed?
    ensures Inv(maxAttempts, Effect(maxAttempts, s, Deliver(accepts)))
  {
    assert Held(s, s.worker.item);
    hide RowsOk, WorkerOk, Held, Effect;
    DeliverKeepsRows(maxAttempts, s, accepts);
    DeliverKeepsWorker(maxAttempts, s, accepts);
  }

  /** Writing the held row leaves the other listed rows as they were. */
  lemma RestAfterWrite(s: System, u: System, rest: seq<Item>, r: Id)
    requires RestOk(s, rest) && r in s.rows && s.rows[r].status == Delivering
    requires u.now == s.now && r in u.rows && u.rows == s.rows[r := u.rows[r]]
    ensures RestOk(u, rest) && forall k :: 0 <= k < |rest| ==> rest[k].row != r
  {
    assert forall k :: 0 <= k < |rest| ==> Fresh(s, rest[k]) && rest[k].row != r;
  }

  lemma CompleteKeeps(maxAttempts: nat, s: System, stored: bool)
    requires Inv(maxAttempts, s) && s.worker.Accepted?
    ensures Inv(maxAttempts, Effect(maxAttempts, s, Complete(stored)))
  {
    var u := Effect(maxAttempts, s, Complete(stored));
    RestAfterWrite(s, u, s.worker.rest, s.worker.item.row);
    hide Fresh, RestOk;
  }

  lemma RetryKeepsRows(maxAttempts: nat, s: System, stored: bool)
    requires RowsOk(maxAttempts, s) && s.worker.Rejected? && Held(s, s.worker.item)
    ensures RowsOk(maxAttempts, Effect(maxAttempts, s, Retry(stored)))
  {
    hide Delay;
  }

  lemma RetryKeeps(maxAttempts: nat, s: System, stored: bool)
    requires Inv(maxAttempts, s) && s.worker.Rejected?
    ensures Inv(maxAttempts, Effect(maxAttempts, s, Retry(stored)))
  {
    var u := Effect(maxAttempts, s, Retry(stored));
    RetryKeepsRows(maxAttempts, s, stored);
    RestAfterWrite(s, u, s.worker.rest, s.worker.item.row);
    hide Fresh, RestOk, Delay, RowsOk;
  }

  lemma StepKeeps(maxAttempts: nat, s: System, a: Action)
    requires maxAttempts >= 1 && Inv(maxAttempts, s) && Enabled(s, a)
    ensures Inv(maxAttempts, Effect(maxAttempts, s, a))
  {
    hide RowsOk, WorkerOk, Effect, Listing;
    match a
    case Enqueue(_, _, _, _) => EnqueueRows(maxAttempts, s, a); EnqueueWorker(maxAttempts, s, a);
    case Recover => RecoverKeeps(maxAttempts, s);
    case Claim(stored, seen) => ClaimKeeps(maxAttempts, s, stored, seen);
    case Deliver(accepts) => DeliverKeeps(maxAttempts, s, accepts);
    case Complete(stored) => CompleteKeeps(maxAttempts, s, stored);
    case Retry(stored) => RetryKeeps(maxAttempts, s, stored);
    case _ => TickKeeps(maxAttempts, s, a);
  }

  /** Every state of every run, whatever crashes and whichever writes are lost. */
  lemma {:induction false} RunKeepsInvariant(maxAttempts: nat, states: seq<System>, actions: seq<Action>, i: nat)
    requires maxAttempts >= 1 && Run(maxAttempts, states, actions) && i < |states|
    ensures Inv(maxAttempts, states[i])
    decreases i
  {
    hide Effect, Enabled;
    if i > 0 {
      RunKeepsInvariant(maxAttempts, states, actions, i - 1);
      StepKeeps(maxAttempts, states[i - 1], actions[i - 1]);
    }
  }

  // ----------------------------------------------------------------- safety

  /** "delivered" is only ever written after the deliverer accepted the message. */
  lemma DeliveredWasAccepted(maxAttempts: nat, states: seq<System>, actions: seq<Action>, i: nat, r: Id)
    requires maxAttempts >= 1 && Run(maxAttempts, states, actions) && i < |states|
    requires r in states[i].rows && states[i].rows[r].status == Delivered
    ensures r in states[i].history && states[i].history[r].accepted
  {
    RunKeepsInvariant(maxAttempts, states, actions, i);
  }

  /** Attempts are claims, at most one per allowed attempt and per recovery. */
  lemma AttemptsAreBounded(maxAttempts: nat, states: seq<System>, actions: seq<Action>, i: nat, r: Id)
    requires maxAttempts >= 1 && Run(maxAttempts, states, actions) && i < |states| && r in states[i].rows
    ensures r in states[i].history
    ensures states[i].rows[r].attempts == |states[i].history[r].claims|
    ensures states[i].rows[r].attempts <= maxAttempts + states[i].history[r].recoveries
  {
    RunKeepsInvariant(maxAttempts, states, actions, i);
  }

  /** From claim to write-back the worker's attempt count is the row's. */
  lemma WorkerCountsLikeTheRow(maxAttempts: nat, states: seq<System>, actions: seq<Action>, i: nat)
    requires maxAttempts >= 1 && Run(maxAttempts, states, actions) && i < |states|
    ensures var w := states[i].worker;
            w.Claimed? || w.Accepted? || w.Rejected? || w.Refreshing? ==>
              w.item.row in states[i].rows && states[i].rows[w.item.row].attempts == w.item.attempts
  {
    RunKeepsInvariant(maxAttempts, states, actions, i);
  }

  predicate Final(row: Row) {
    row.status == Delivered || row.status == Failed
  }

  lemma FinalRowsStay(maxAttempts: nat, s: System, a: Action, r: Id)
    requires Inv(maxAttempts, s) && Enabled(s, a) && r in s.rows && Final(s.rows[r])
    ensures var u := Effect(maxAttempts, s, a); r in u.rows && u.rows[r] == s.rows[r]
  {
    if a.Enqueue? {
      NewRowsAreNew(a.message, a.first, a.recipients, s.now);
    }
  }

  /** "delivered" and "failed" are terminal: the row never changes again. */
  lemma {:induction false} FinalForever(maxAttempts: nat, states: seq<System>, actions: seq<Action>, i: nat, j: nat,
      r: Id)
    requires maxAttempts >= 1 && Run(maxAttempts, states, actions) && i <= j < |states|
    requires r in states[i].rows && Final(states[i].rows[r])
    ensures r in states[j].rows && states[j].rows[r] == states[i].rows[r]
    decreases j - i
  {
    hide Effect, Enabled;
    if i < j {
      FinalForever(maxAttempts, states, actions, i, j - 1, r);
      RunKeepsInvariant(maxAttempts, states, actions, j - 1);
      FinalRowsStay(maxAttempts, states[j - 1], actions[j - 1], r);
    }
  }

  // ------------------------------------------------------ transport summary

  /** All rows of a message are final, and there is one. */
  predicate Settled(rows: map<Id, Row>, message: Id) {
    !Pending(rows, message) && exists r :: r in rows && rows[r].message == message
  }

  lemma SameSummary(a: map<Id, Row>, b: map<Id, Row>, message: Id)
    requires forall status :: HasRow(a, message, status) <==> HasRow(b, message, status)
    ensures Summary(a, message) == Summary(b, message) && Pending(a, message) == Pending(b, message)
  {
  }

  lemma PendingWitness(rows: map<Id, Row>, r: Id)
    requires r in rows && !Final(rows[r])
    ensures Pending(rows, rows[r].message)
  {
    assert HasRow(rows, rows[r].message, rows[r].status);
  }

  /** Rows that differ in one pending row, still pending, for its own message. */
  lemma RowStillPending(rows: map<Id, Row>, r: Id, row: Row, message: Id)
    requires r in rows && !Final(rows[r]) && !Final(row) && row.message == rows[r].message
    ensures Summary(rows[r := row], message) == Summary(rows, message)
  {
    var after := rows[r := row];
    PendingWitness(rows, r);
    PendingWitness(after, r);
    if message != row.message {
      forall status ensures HasRow(rows, message, status) <==> HasRow(after, message, status) {
        if HasRow(rows, message, status) {
          var q :| q in rows && rows[q].message == message && rows[q].status == status;
          assert q in after && after[q] == rows[q];
        }
      }
      SameSummary(rows, after, message);
    }
  }

  /** Claiming a row keeps the summary of every message. */
  lemma ClaimKeepsSummary(maxAttempts: nat, s: System, stored: bool, seen: bool, message: Id)
    requires Enabled(s, Claim(stored, seen))
    ensures Summary(Effect(maxAttempts, s, Claim(stored, seen)).rows, message) == Summary(s.rows, message)
  {
    hide Summary;
    var r := s.worker.rest[0].row;
    if stored && r in s.rows && s.rows[r].status == Queued {
      RowStillPending(s.rows, r, ClaimedRow(s.rows[r], s.now), message);
    }
  }

  lemma RecoveredPending(rows: map<Id, Row>, now: Time, message: Id)
    ensures Pending(rows, message) <==> Pending(RecoveredRows(rows, now), message)
    ensures HasRow(rows, message, Failed) <==> HasRow(RecoveredRows(rows, now), message, Failed)
    ensures HasRow(rows, message, Delivered) <==> HasRow(RecoveredRows(rows, now), message, Delivered)
  {
    var after := RecoveredRows(rows, now);
    forall r | r in rows && rows[r].message == message
      ensures r in after && after[r].message == message && (Final(after[r]) <==> Final(rows[r]))
      ensures Final(rows[r]) ==> after[r] == rows[r]
    {
    }
    if Pending(rows, message) {
      var r :| r in rows && rows[r].message == message && !Final(rows[r]);
      PendingWitness(after, r);
    }
    if Pending(after, message) {
      var r :| r in after && after[r].message == message && !Final(after[r]);
      PendingWitness(rows, r);
    }
    if HasRow(rows, message, Failed) {
      var r :| r in rows && rows[r].message == message && rows[r].status == Failed;
      assert after[r] == rows[r];
    }
    if HasRow(rows, message, Delivered) {
      var r :| r in rows && rows[r].message == message && rows[r].status == Delivered;
      assert after[r] == rows[r];
    }
  }

  /** Recovering stale rows keeps the summary of every message. */
  lemma RecoverKeepsSummary(maxAttempts: nat, s: System, message: Id)
    requires s.worker.Idle?
    ensures Summary(Effect(maxAttempts, s, Recover).rows, message) == Summary(s.rows, message)
  {
    RecoveredPending(s.rows, s.now, message);
  }

  /** One iteration of the batch loop whose writes all succeed leaves the
      message's transport status equal to the summary over all its rows, and the
      row delivered, failed or queued for later. */
  lemma IterationSettles(maxAttempts: nat, s: System, accepts: bool)
    requires maxAttempts >= 1 && Inv(maxAttempts, s) && s.worker.Scanning? && s.worker.rest != []
    ensures var item := s.worker.rest[0];
            var claimed := Effect(maxAttempts, s, Claim(true, true));
            && Enabled(claimed, Deliver(accepts))
            && var answered := Effect(maxAttempts, claimed, Deliver(accepts));
            var write := if accepts then Complete(true) else Retry(true);
            && Enabled(answered, write)
            && var written := Effect(maxAttempts, answered, write);
            && Enabled(written, Refresh(true))
            && var done := Effect(maxAttempts, written, Refresh(true));
            && done.worker == Scanning(s.worker.rest[1..])
            && item.message in done.transport && done.transport[item.message] == Summary(done.rows, item.message)
            && item.row in done.rows && done.rows[item.row].attempts == item.attempts + 1
            && (done.rows[item.row].status == Delivered <==> accepts)
            && (done.rows[item.row].status == Failed <==> !accepts && item.attempts + 1 >= maxAttempts)
  {
    hide Summary, Delay;
    assert Fresh(s, s.worker.rest[0]);
  }

  lemma SettledStays(maxAttempts: nat, s: System, a: Action, message: Id)
    requires Inv(maxAttempts, s) && Enabled(s, a) && Settled(s.rows, message)
    ensures var u := Effect(maxAttempts, s, a);
            Settled(u.rows, message) && Summary(u.rows, message) == Summary(s.rows, message)
  {
    var u := Effect(maxAttempts, s, a);
    SettledRows(s.rows, message);
    RowsOfSettled(maxAttempts, s, a, message);
    SettledSame(s.rows, u.rows, message);
  }

  lemma SettledRows(rows: map<Id, Row>, message: Id)
    requires Settled(rows, message)
    ensures forall r :: r in rows && rows[r].message == message ==> Final(rows[r])
  {
    forall r | r in rows && rows[r].message == message ensures Final(rows[r]) {
      if !Final(rows[r]) {
        PendingWitness(rows, r);
      }
    }
  }

  /** A step adds rows to new messages only, and moves no row to another. */
  lemma RowsOfMessages(maxAttempts: nat, s: System, a: Action, r: Id)
    requires Inv(maxAttempts, s) && Enabled(s, a)
    ensures var u := Effect(maxAttempts, s, a);
            r in u.rows ==> if r in s.rows then u.rows[r].message == s.rows[r].message
              else u.rows[r].message !in s.transport
  {
    if a.Enqueue? {
      NewRowsAreNew(a.message, a.first, a.recipients, s.now);
    }
    hide Summary, Delay, NewRows;
  }

  lemma SettledRowsStay(maxAttempts: nat, s: System, a: Action, message: Id)
    requires Inv(maxAttempts, s) && Enabled(s, a)
    requires forall r :: r in s.rows && s.rows[r].message == message ==> Final(s.rows[r])
    ensures var u := Effect(maxAttempts, s, a);
            forall r :: r in s.rows && s.rows[r].message == message ==> r in u.rows && u.rows[r] == s.rows[r]
  {
    hide *;
    forall r | r in s.rows && s.rows[r].message == message
      ensures r in Effect(maxAttempts, s, a).rows && Effect(maxAttempts, s, a).rows[r] == s.rows[r]
    {
      FinalRowsStay(maxAttempts, s, a, r);
    }
  }

  /** A step adds no row to a known message and leaves its final rows alone. */
  lemma RowsOfSettled(maxAttempts: nat, s: System, a: Action, message: Id)
    requires Inv(maxAttempts, s) && Enabled(s, a)
    requires exists r :: r in s.rows && s.rows[r].message == message
    requires forall r :: r in s.rows && s.rows[r].message == message ==> Final(s.rows[r])
    ensures var u := Effect(maxAttempts, s, a);
            forall r :: r in s.rows && s.rows[r].message == message ==> r in u.rows && u.rows[r] == s.rows[r]
    ensures var u := Effect(maxAttempts, s, a);
            forall r :: r in u.rows && u.rows[r].message == message ==> r in s.rows && u.rows[r] == s.rows[r]
  {
    assert message in s.transport;
    hide *;
    SettledRowsStay(maxAttempts, s, a, message);
    var u := Effect(maxAttempts, s, a);
    forall r | r in u.rows && u.rows[r].message == message ensures r in s.rows {
      RowsOfMessages(maxAttempts, s, a, r);
    }
  }

  lemma SettledSame(a: map<Id, Row>, b: map<Id, Row>, message: Id)
    requires Settled(a, message)
    requires forall r :: r in a && a[r].message == message ==> r in b && b[r] == a[r]
    requires forall r :: r in b && b[r].message == message ==> r in a && b[r] == a[r]
    ensures Settled(b, message) && Summary(b, message) == Summary(a, message)
  {
    forall status ensures HasRow(a, message, status) <==> HasRow(b, message, status) {
      if HasRow(a, message, status) {
        var r :| r in a && a[r].message == message && a[r].status == status;
        assert r in b && b[r] == a[r];
      }
    }
    SameSummary(a, b, message);
    var r :| r in a && a[r].message == message;
    assert r in b && b[r].message == message;
  }

  lemma ReportStays(maxAttempts: nat, s: System, a: Action, message: Id)
    requires Inv(maxAttempts, s) && Enabled(s, a) && message in s.transport
    requires s.transport[message] == Summary(s.rows, message)
    ensures var u := Effect(maxAttempts, s, a);
            message in u.transport && u.transport[message] == Summary(s.rows, message)
  {
    hide Summary, Delay;
  }

  lemma {:induction false} SummaryForever(maxAttempts: nat, states: seq<System>, actions: seq<Action>, i: nat, j: nat,
      message: Id)
    requires maxAttempts >= 1 && Run(maxAttempts, states, actions) && i <= j < |states|
    requires Settled(states[i].rows, message)
    ensures Settled(states[j].rows, message) && Summary(states[j].rows, message) == Summary(states[i].rows, message)
    decreases j
  {
    hide Effect, Enabled, Settled, Summary;
    if i < j {
      SummaryForever(maxAttempts, states, actions, i, j - 1, message);
      RunKeepsInvariant(maxAttempts, states, actions, j - 1);
      SettledStays(maxAttempts, states[j - 1], actions[j - 1], message);
    }
  }

  lemma {:induction false} ReportForever(maxAttempts: nat, states: seq<System>, actions: seq<Action>, i: nat, j: nat,
      message: Id)
    requires maxAttempts >= 1 && Run(maxAttempts, states, actions) && i <= j < |states|
    requires Settled(states[i].rows, message)
    requires message in states[i].transport && states[i].transport[message] == Summary(states[i].rows, message)
    ensures message in states[j].transport && states[j].transport[message] == Summary(states[i].rows, message)
    decreases j
  {
    hide Effect, Enabled, Settled, Summary;
    if i < j {
      ReportForever(maxAttempts, states, actions, i, j - 1, message);
      SummaryForever(maxAttempts, states, actions, i, j - 1, message);
      RunKeepsInvariant(maxAttempts, states, actions, j - 1);
      ReportStays(maxAttempts, states[j - 1], actions[j - 1], message);
    }
  }

  /** Once all rows of a message are final its summary is delivered, partial or
      failed for good, and a status reported then is never changed again. */
  lemma SettledForever(maxAttempts: nat, states: seq<System>, actions: seq<Action>, i: nat, j: nat, message: Id)
    requires maxAttempts >= 1 && Run(maxAttempts, states, actions) && i <= j < |states|
    requires Settled(states[i].rows, message)
    ensures Settled(states[j].rows, message) && Summary(states[j].rows, message) == Summary(states[i].rows, message)
    ensures Summary(states[j].rows, message) in {"delivered", "partial", "failed"}
    ensures message in states[i].transport && states[i].transport[message] == Summary(states[i].rows, message) ==>
              message in states[j].transport && states[j].transport[message] == states[i].transport[message]
  {
    SummaryForever(maxAttempts, states, actions, i, j, message);
    if message in states[i].transport && states[i].transport[message] == Summary(states[i].rows, message) {
      ReportForever(maxAttempts, states, actions, i, j, message);
    }
    hide Run;
  }

  // ---------------------------------------------------------- retry schedule

  /** The least time from the first to the n-th attempt. */
  function Span(n: nat): Time
    requires n >= 1
  {
    MINUTE * (30 * (Pow2(Min(n - 1, 6)) - 1) + 1440 * Max(n - 7, 0))
  }

  lemma SmallPowers()
    ensures Pow2(0) == 1 && Pow2(1) == 2 && Pow2(2) == 4 && Pow2(3) == 8 && Pow2(4) == 16 && Pow2(5) == 32
            && Pow2(6) == 64
  {
    assert Pow2(2) == 4;
    assert Pow2(4) == 16;
  }

  /** Delays lie in [30 minutes, 24 hours] and never get shorter. */
  lemma DelaysGrow(k: int)
    ensures 30 * MINUTE <= Delay(k) <= Delay(k + 1) <= 24 * 60 * MINUTE
    ensures k >= 7 ==> Delay(k) == 24 * 60 * MINUTE
  {
    SmallPowers();
  }

  /** The delays in minutes: half an hour, doubled each time up to a day. */
  lemma DelayTable(k: int)
    ensures Delay(k) == 60_000_000_000 *
            (if k <= 1 then 30 else if k == 2 then 60 else if k == 3 then 120 else if k == 4 then 240
             else if k == 5 then 480 else if k == 6 then 960 else 1440)
  {
    SmallPowers();
  }

  lemma SpanGrows(n: nat)
    requires n >= 1
    ensures Span(n + 1) == Span(n) + Delay(n)
  {
    SmallPowers();
  }

  lemma {:induction false} ClaimsSpan(claims: seq<Time>, n: nat)
    requires 1 <= n <= |claims|
    requires forall k :: 0 < k < |claims| ==> claims[k] >= claims[k - 1] + Delay(k)
    ensures claims[n - 1] - claims[0] >= Span(n)
    decreases n
  {
    if n == 1 {
      SmallPowers();
    } else {
      ClaimsSpan(claims, n - 1);
      SpanGrows(n - 1);
    }
  }

  /** A row that was never recovered makes its n-th attempt at least Span(n)
      after its first. */
  lemma RetrySchedule(maxAttempts: nat, states: seq<System>, actions: seq<Action>, i: nat, r: Id, n: nat)
    requires maxAttempts >= 1 && Run(maxAttempts, states, actions) && i < |states|
    requires r in states[i].rows && r in states[i].history && states[i].history[r].recoveries == 0
    requires 1 <= n <= |states[i].history[r].claims|
    ensures var claims := states[i].history[r].claims; claims[n - 1] - claims[0] >= Span(n)
  {
    RunKeepsInvariant(maxAttempts, states, actions, i);
    ClaimsSpan(states[i].history[r].claims, n);
  }

  /** Twelve attempts span 151.5 hours at least, which is more than five days. A
      span of more than seven days needs a thirteenth attempt. */
  lemma SevenDaysNeedThirteen(n: nat)
    requires n >= 1
    ensures Span(12) == 9090 * MINUTE && Span(12) > 5 * 24 * 60 * MINUTE
    ensures Span(n) > 7 * 24 * 60 * MINUTE <==> n >= 13
  {
    SmallPowers();
  }

  // ------------------------------------------------------------- tight runs

  lemma Extend(maxAttempts: nat, states: seq<System>, actions: seq<Action>, a: Action)
      returns (longer: seq<System>, more: seq<Action>)
    requires Run(maxAttempts, states, actions) && Enabled(states[|states| - 1], a)
    ensures Run(maxAttempts, longer, more) && |longer| == |states| + 1 && more == actions + [a]
    ensures longer[|longer| - 1] == Effect(maxAttempts, states[|states| - 1], a)
  {
    hide Effect, Enabled;
    longer := states + [Effect(maxAttempts, states[|states| - 1], a)];
    more := actions + [a];
  }

  /** The worker holds row 0, its n-th attempt just claimed at `now`. */
  predicate HoldsAttempt(s: System, n: nat) {
    && s.worker == Claimed(Item(0, 0, n), [])
    && s.rows.Keys == {0} && s.rows[0].message == 0 && s.rows[0].status == Delivering && s.rows[0].attempts == n
    && 0 in s.history && s.history[0].recoveries == 0 && |s.history[0].claims| == n
  }

  lemma FirstAttempt(maxAttempts: nat) returns (states: seq<System>, actions: seq<Action>)
    ensures Run(maxAttempts, states, actions)
    ensures var s := states[|states| - 1]; HoldsAttempt(s, 1) && s.history[0].claims == [s.now]
  {
    states, actions := [EmptySystem], [];
    states, actions := Extend(maxAttempts, states, actions, Enqueue(0, "queued", 0, ["rcpt@example.org"]));
    var s := states[|states| - 1];
    assert s.rows == NewRows(0, 0, ["rcpt@example.org"], 0);
    assert s.rows.Keys == {0} && s.rows[0] == Row(0, "rcpt@example.org", Queued, 0, 0, 0);
    states, actions := Extend(maxAttempts, states, actions, Snapshot(1, [Item(0, 0, 0)]));
    states, actions := Extend(maxAttempts, states, actions, Claim(true, true));
  }

  /** Row 0 is queued again after n attempts and due now; the worker is idle. */
  predicate DueAgain(s: System, n: nat) {
    && s.worker == Idle
    && s.rows.Keys == {0} && s.rows[0].message == 0 && s.rows[0].status == Queued && s.rows[0].attempts == n
    && s.rows[0].nextAttempt == s.now
    && 0 in s.history && s.history[0].recoveries == 0 && |s.history[0].claims| == n
  }

  lemma RejectAndWait(maxAttempts: nat, states: seq<System>, actions: seq<Action>, n: nat)
      returns (longer: seq<System>, more: seq<Action>)
    requires 1 <= n < maxAttempts && Run(maxAttempts, states, actions) && HoldsAttempt(states[|states| - 1], n)
    ensures Run(maxAttempts, longer, more) && |longer| >= 1
    ensures var s := states[|states| - 1]; var u := longer[|longer| - 1];
            DueAgain(u, n) && u.now == s.now + Delay(n) && u.history == s.history
  {
    hide Delay, Summary, Run;
    DelaysGrow(n);
    longer, more := Extend(maxAttempts, states, actions, Deliver(false));
    longer, more := Extend(maxAttempts, longer, more, Retry(true));
    longer, more := Extend(maxAttempts, longer, more, Refresh(true));
    longer, more := Extend(maxAttempts, longer, more, Stop);
    longer, more := Extend(maxAttempts, longer, more, Tick(Delay(n)));
  }

  lemma ClaimDue(maxAttempts: nat, states: seq<System>, actions: seq<Action>, n: nat)
      returns (longer: seq<System>, more: seq<Action>)
    requires Run(maxAttempts, states, actions) && DueAgain(states[|states| - 1], n)
    ensures Run(maxAttempts, longer, more) && |longer| >= 1
    ensures var s := states[|states| - 1]; var u := longer[|longer| - 1];
            HoldsAttempt(u, n + 1) && u.now == s.now && u.history[0].claims == s.history[0].claims + [u.now]
  {
    hide Run;
    longer, more := Extend(maxAttempts, states, actions, Snapshot(1, [Item(0, 0, n)]));
    longer, more := Extend(maxAttempts, longer, more, Claim(true, true));
  }

  lemma NextAttempt(maxAttempts: nat, states: seq<System>, actions: seq<Action>, n: nat)
      returns (longer: seq<System>, more: seq<Action>)
    requires 1 <= n < maxAttempts && Run(maxAttempts, states, actions) && HoldsAttempt(states[|states| - 1], n)
    ensures Run(maxAttempts, longer, more) && |longer| >= 1
    ensures var s := states[|states| - 1]; var u := longer[|longer| - 1];
            HoldsAttempt(u, n + 1) && u.now == s.now + Delay(n) && u.history[0].claims == s.history[0].claims + [u.now]
  {
    hide Delay, Run, DueAgain;
    longer, more := RejectAndWait(maxAttempts, states, actions, n);
    longer, more := ClaimDue(maxAttempts, longer, more, n);
  }

  /** The bound is tight: some run makes its n-th attempt exactly Span(n) after
      the first, so twelve attempts need not span seven days. */
  lemma {:induction false} TightSchedule(maxAttempts: nat, n: nat) returns (states: seq<System>, actions: seq<Action>)
    requires 1 <= n <= maxAttempts
    ensures Run(maxAttempts, states, actions)
    ensures var s := states[|states| - 1];
            && HoldsAttempt(s, n)
            && s.history[0].claims[n - 1] == s.now
            && s.history[0].claims[n - 1] - s.history[0].claims[0] == Span(n)
    decreases n
  {
    hide Effect, Enabled, Run;
    if n == 1 {
      SmallPowers();
      states, actions := FirstAttempt(maxAttempts);
    } else {
      states, actions := TightSchedule(maxAttempts, n - 1);
      states, actions := NextAttempt(maxAttempts, states, actions, n - 1);
      SpanGrows(n - 1);
    }
  }
}
