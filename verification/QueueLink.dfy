/** The queue rows of the mail tables and those of the queue protocol are the same
    rows: what a save adds is what the protocol enqueues, and no step of the
    worker parts them. */
module QueueLink {
  import opened Common
  import M = MailTables
  import Q = OutgoingQueue

  type Id = nat

  /** Same rows for the same messages and recipients; the protocol's transport
      statuses are those of the messages. */
  predicate Linked(t: M.Tables, s: Q.System) {
    && s.rows.Keys == t.queue.Keys
    && (forall r :: r in t.queue ==>
       s.rows[r].message == t.queue[r].message && s.rows[r].recipient == t.queue[r].recipient)
    && (forall m :: m in s.transport && m in t.messages ==> t.messages[m].transportStatus == s.transport[m])
  }

  /** The recipients as the queue rows hold them. */
  function Normalized(recipients: seq<string>): seq<string> {
    seq(|recipients|, i requires 0 <= i < |recipients| => Lower(Trim(recipients[i])))
  }

  predicate Numbered(t: M.Tables) {
    forall r :: r in t.queue ==> r < t.nextId
  }

  /** What a save adds to the queue: one row per recipient, numbered upwards. */
  ghost predicate Appended(t: M.Tables, u: M.Tables, message: Id, recipients: seq<string>) {
    && (forall r :: r in u.queue <==> r in t.queue || t.nextId <= r < t.nextId + |recipients|)
    && (forall r :: r in t.queue ==> u.queue[r] == t.queue[r])
    && (forall r :: r in u.queue && r !in t.queue ==> u.queue[r] == M.QueueRow(message, recipients[r - t.nextId]))
    && u.messages == t.messages
  }

  lemma AppendedOneMore(t: M.Tables, u: M.Tables, message: Id, recipients: seq<string>)
    requires recipients != [] && Numbered(t)
    requires Appended(t.(queue := t.queue[t.nextId := M.QueueRow(message, recipients[0])], nextId := t.nextId + 1), u,
             message, recipients[1..])
    ensures Appended(t, u, message, recipients)
  {
    var v := t.(queue := t.queue[t.nextId := M.QueueRow(message, recipients[0])], nextId := t.nextId + 1);
    assert u.queue[t.nextId] == v.queue[t.nextId];
  }

  lemma {:induction false} QueueAllAppends(t: M.Tables, message: Id, recipients: seq<string>)
    requires Numbered(t) && M.QueueAll(t, message, recipients).Some?
    ensures Appended(t, M.QueueAll(t, message, recipients).value, message, Normalized(recipients))
    decreases |recipients|
  {
    if recipients != [] {
      var v := t.(queue := t.queue[t.nextId := M.QueueKey(message, recipients[0])], nextId := t.nextId + 1);
      QueueAllAppends(v, message, recipients[1..]);
      assert Normalized(recipients)[1..] == Normalized(recipients[1..]);
      hide Appended;
      AppendedOneMore(t, M.QueueAll(t, message, recipients).value, message, Normalized(recipients));
    }
  }

  lemma NewRowsAreAppended(t: M.Tables, u: M.Tables, message: Id, recipients: seq<string>, now: Q.Time)
    requires Appended(t, u, message, recipients) && Numbered(t)
    ensures var rows := Q.NewRows(message, t.nextId, recipients, now);
            && u.queue.Keys == t.queue.Keys + rows.Keys && u.messages == t.messages
            && (forall r :: r in t.queue ==> u.queue[r] == t.queue[r])
            && forall r :: r in rows ==>
              r !in t.queue && rows[r].message == u.queue[r].message && rows[r].recipient == u.queue[r].recipient
  {
  }

  lemma LinkedWithMore(t: M.Tables, u: M.Tables, s: Q.System, next: Q.System, rows: map<Id, Q.Row>, message: Id)
    requires Linked(t, s) && message in t.messages && u.messages == t.messages
    requires next.rows == s.rows + rows && next.transport == s.transport[message := t.messages[message].transportStatus]
    requires u.queue.Keys == t.queue.Keys + rows.Keys && forall r :: r in t.queue ==> u.queue[r] == t.queue[r]
    requires forall r :: r in rows ==>
             r !in t.queue && rows[r].message == u.queue[r].message && rows[r].recipient == u.queue[r].recipient
    ensures Linked(u, next)
  {
  }

  lemma EnqueueEffect(maxAttempts: nat, t: M.Tables, s: Q.System, a: Q.Action)
    requires Linked(t, s) && Numbered(t) && a.Enqueue? && a.message !in s.transport && a.first == t.nextId
    ensures Q.Enabled(s, a)
    ensures var next := Q.Effect(maxAttempts, s, a);
            next.rows == s.rows + Q.NewRows(a.message, a.first, a.recipients, s.now)
              && next.transport == s.transport[a.message := a.status]
  {
    assert forall r :: r in s.rows ==> r in t.queue;
    hide Q.NewRows, Q.NewNotes;
  }

  /** Storing the queue rows of a new message is the protocol's enqueueing of its
      normalised recipients. */
  lemma SaveEnqueues(maxAttempts: nat, t: M.Tables, s: Q.System, message: Id, recipients: seq<string>)
    requires Linked(t, s) && Numbered(t) && message in t.messages && message !in s.transport
    requires M.QueueAll(t, message, recipients).Some?
    ensures var a := Q.Enqueue(message, t.messages[message].transportStatus, t.nextId, Normalized(recipients));
            Q.Enabled(s, a) && Linked(M.QueueAll(t, message, recipients).value, Q.Effect(maxAttempts, s, a))
  {
    hide M.QueueAll, Normalized, Q.NewRows, Q.Effect, Q.Enabled, Appended, Linked, Numbered;
    QueueAllAppends(t, message, recipients);
    var u := M.QueueAll(t, message, recipients).value;
    var a := Q.Enqueue(message, t.messages[message].transportStatus, t.nextId, Normalized(recipients));
    NewRowsAreAppended(t, u, message, a.recipients, s.now);
    EnqueueEffect(maxAttempts, t, s, a);
    LinkedWithMore(t, u, s, Q.Effect(maxAttempts, s, a), Q.NewRows(message, a.first, a.recipients, s.now), message);
  }

  /** What a protocol step does to the mail tables: a stored refresh writes the
      message's status, nothing else touches them. */
  function Written(t: M.Tables, s: Q.System, a: Q.Action): M.Tables {
    if a == Q.Refresh(true) && s.worker.Refreshing? && s.worker.item.message in s.transport
    then M.SetTransportStatus(t, s.worker.item.message, Q.Summary(s.rows, s.worker.item.message))
    else t
  }

  lemma StepKeepsRows(maxAttempts: nat, s: Q.System, a: Q.Action)
    requires Q.Enabled(s, a) && !a.Enqueue?
    ensures var rows := Q.Effect(maxAttempts, s, a).rows;
            && rows.Keys == s.rows.Keys
            && forall r :: r in rows ==>
              rows[r].message == s.rows[r].message && rows[r].recipient == s.rows[r].recipient
  {
    hide Q.Summary, Q.Delay, Q.Listing;
  }

  lemma StepWritesStatus(maxAttempts: nat, t: M.Tables, s: Q.System, a: Q.Action)
    requires Linked(t, s) && Q.Enabled(s, a) && !a.Enqueue?
    ensures var u, next := Written(t, s, a), Q.Effect(maxAttempts, s, a);
            && u.queue == t.queue
            && forall m :: m in next.transport && m in u.messages ==> u.messages[m].transportStatus == next.transport[m]
  {
    hide Q.Summary, Q.Delay, Q.Listing;
  }

  /** No step of the worker or the clock changes whose rows they are. */
  lemma WorkerKeepsLink(maxAttempts: nat, t: M.Tables, s: Q.System, a: Q.Action)
    requires Linked(t, s) && Q.Enabled(s, a) && !a.Enqueue?
    ensures Linked(Written(t, s, a), Q.Effect(maxAttempts, s, a))
  {
    StepKeepsRows(maxAttempts, s, a);
    StepWritesStatus(maxAttempts, t, s, a);
    hide Q.Effect, Q.Enabled, Written;
  }
}
