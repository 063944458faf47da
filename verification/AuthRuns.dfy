/** Whole runs of the authentication limiter, and the exact condition under which
    it bounds the attempts of an address. */
module AuthRuns {
  import opened Common
  import opened Times
  import opened AuthLimiter

  datatype Event =
    | Attempt(ip: string, account: string, now: Time)
    | Failure(ip: string, account: string, now: Time)
    | Success(account: string, now: Time)

  datatype State = State(buckets: map<Key, Bucket>, nextSweep: Time, admitted: map<string, seq<Time>>)

  const Start := State(map[], 0, map[])

  function Play(o: Options, s: State, e: Event): State {
    match e
    case Attempt(ip, account, now) =>
      var v := Allowed(o, s.buckets, s.nextSweep, ip, account, now);
      State(v.buckets, if Sweeps(o, s.buckets, s.nextSweep, ip, account, now) then now + o.sweepEvery else s.nextSweep,
            Noted(s.admitted, ip, v.allowed, now))
    case Failure(ip, account, now) =>
      s.(buckets := AfterFailure(o, AfterFailure(o, s.buckets, Ip(ip), now), Account(account), now))
    case Success(account, now) => s.(buckets := s.buckets - {Account(account)})
  }

  function PlayAll(o: Options, events: seq<Event>): State {
    if events == [] then Start else Play(o, PlayAll(o, events[..|events| - 1]), events[|events| - 1])
  }

  ghost function View(l: Limiter): State
    reads l
  {
    State(l.buckets, l.nextSweep, l.admitted)
  }

  /** A limiter makes exactly these steps. */
  method Perform(l: Limiter, e: Event)
    requires l.Valid() && l.clock <= e.now
    modifies l
    ensures l.Valid() && l.clock <= e.now
    ensures View(l) == Play(l.options, old(View(l)), e)
  {
    match e
    case Attempt(ip, account, now) =>
      var allowed := l.Allow(ip, account, now);
    case Failure(ip, account, now) => l.Failure(ip, account, now);
    case Success(account, now) => l.Success(account);
    hide AllKnown, AllClocked, Reserve, Swept, AfterFailure;
  }

  /** The clock does not go back. */
  predicate InOrder(events: seq<Event>) {
    && (forall i :: 0 <= i < |events| ==> events[i].now >= 0)
    && (forall i, j :: 0 <= i < j < |events| ==> events[i].now <= events[j].now)
  }

  function Clock(events: seq<Event>): Time {
    if events == [] then 0 else events[|events| - 1].now
  }

  // ------------------------------------------------------------- the bound

  ghost predicate StateOk(o: Options, s: State, clock: Time) {
    && Proper(o) && |s.buckets| <= o.maxEntries && AllClocked(o, s.buckets, clock)
    && (o.ipAttemptBlock >= o.ipAttemptWindow ==> AllKnown(o, s.buckets, s.admitted, clock))
  }

  lemma StartOk(o: Options)
    requires Proper(o)
    ensures StateOk(o, Start, 0)
  {
    forall ip ensures Known(o, Start.buckets, Past(Start.admitted, ip), ip, 0) {
    }
  }

  lemma AttemptKeeps(o: Options, s: State, clock: Time, ip: string, account: string, now: Time)
    requires StateOk(o, s, clock) && clock <= now
    ensures StateOk(o, Play(o, s, Attempt(ip, account, now)), now)
  {
    var swept := if Due(s.nextSweep, now, false) then Swept(o, s.buckets, now) else s.buckets;
    var tidy := if |swept| + Missing(swept, Ip(ip), Account(account)) > o.maxEntries then Swept(o, swept, now)
      else swept;
    KeptBySweeps(o, s.buckets, swept, tidy, s.admitted, clock, now);
    ReserveClocked(o, tidy, ip, account, now);
    ReserveSize(o, tidy, ip, account, now);
    if o.ipAttemptBlock >= o.ipAttemptWindow {
      ReserveKnows(o, tidy, s.admitted, ip, account, now);
    }
    hide Reserve, Swept, AllKnown, AllClocked;
  }

  lemma FailureKeepsState(o: Options, s: State, clock: Time, ip: string, account: string, now: Time)
    requires StateOk(o, s, clock) && clock <= now
    ensures StateOk(o, Play(o, s, Failure(ip, account, now)), now)
  {
    FailureKeeps(o, s.buckets, s.admitted, Ip(ip), clock, now);
    FailureKeeps(o, AfterFailure(o, s.buckets, Ip(ip), now), s.admitted, Account(account), now, now);
    hide AfterFailure, AllKnown, AllClocked;
  }

  lemma WithoutAccount(o: Options, buckets: map<Key, Bucket>, admitted: map<string, seq<Time>>, key: Key, now: Time)
    requires key.Account? && AllKnown(o, buckets, admitted, now)
    ensures AllKnown(o, buckets - {key}, admitted, now)
  {
    hide Remembers, Spread;
    var after := buckets - {key};
    forall ip ensures Known(o, after, Past(admitted, ip), ip, now) {
      assert Known(o, buckets, Past(admitted, ip), ip, now);
      SameKnown(o, buckets, after, Past(admitted, ip), ip, now);
    }
  }

  lemma SuccessKeeps(o: Options, s: State, clock: Time, account: string, now: Time)
    requires StateOk(o, s, clock) && clock <= now
    ensures StateOk(o, Play(o, s, Success(account, now)), now)
  {
    var after := s.buckets - {Account(account)};
    SubsetSize(after.Keys, s.buckets.Keys);
    if o.ipAttemptBlock >= o.ipAttemptWindow {
      LaterKnows(o, s.buckets, s.admitted, clock, now);
      WithoutAccount(o, s.buckets, s.admitted, Account(account), now);
    }
    hide AllKnown;
  }

  lemma {:induction false} RunOk(o: Options, events: seq<Event>)
    requires Proper(o) && InOrder(events)
    ensures StateOk(o, PlayAll(o, events), Clock(events))
  {
    if events == [] {
      StartOk(o);
    } else {
      var front, e := events[..|events| - 1], events[|events| - 1];
      RunOk(o, front);
      hide StateOk, Play;
      match e
      case Attempt(ip, account, now) => AttemptKeeps(o, PlayAll(o, front), Clock(front), ip, account, now);
      case Failure(ip, account, now) => FailureKeepsState(o, PlayAll(o, front), Clock(front), ip, account, now);
      case Success(account, now) => SuccessKeeps(o, PlayAll(o, front), Clock(front), account, now);
    }
  }

  /** How many attempts of the address the run admitted in the window from x on. */
  function AdmittedIn(o: Options, events: seq<Event>, ip: string, x: int): nat {
    Within(Past(PlayAll(o, events).admitted, ip), x, x + o.ipAttemptWindow)
  }

  ghost predicate BoundHolds(o: Options) {
    forall events, ip, x :: InOrder(events) ==> AdmittedIn(o, events, ip, x) <= 2 * o.maxIPAttempts - 1
  }

  lemma BoundInRun(o: Options, events: seq<Event>, ip: string, x: int)
    requires Proper(o) && o.ipAttemptBlock >= o.ipAttemptWindow && InOrder(events)
    ensures AdmittedIn(o, events, ip, x) <= 2 * o.maxIPAttempts - 1
  {
    RunOk(o, events);
    var s := PlayAll(o, events);
    assert Known(o, s.buckets, Past(s.admitted, ip), ip, Clock(events));
    assert InWindow(o, Past(s.admitted, ip), x) <= 2 * o.maxIPAttempts - 1;
  }

  // ------------------------------------------- a run that breaks the bound

  /** The run so far. */
  ghost predicate At(o: Options, events: seq<Event>, s: State, clock: Time) {
    InOrder(events) && PlayAll(o, events) == s && Clock(events) <= clock
  }

  lemma Extend(o: Options, events: seq<Event>, s: State, clock: Time, e: Event)
    requires At(o, events, s, clock) && 0 <= clock <= e.now
    ensures At(o, events + [e], Play(o, s, e), e.now)
  {
    hide Play;
    assert (events + [e])[..|events|] == events;
  }

  /** Who takes part: an address, an account, and two other addresses. */
  datatype Cast = Cast(ip: string, account: string, first: string, second: string)

  predicate Apart(c: Cast) {
    c.ip != c.first && c.ip != c.second && c.first != c.second
  }

  /** The table holds at most the buckets of the address and the account and,
      where there is space for it, of the second other address. */
  predicate Small(o: Options, c: Cast, buckets: map<Key, Bucket>) {
    && (forall key :: key in buckets ==> key == Ip(c.ip) || key == Account(c.account) || key == Ip(c.second))
    && (Ip(c.second) in buckets ==> o.maxEntries >= 3)
  }

  lemma SmallFits(o: Options, c: Cast, buckets: map<Key, Bucket>)
    requires Proper(o) && Apart(c) && Small(o, c, buckets)
    ensures |buckets| + Missing(buckets, Ip(c.ip), Account(c.account)) <= o.maxEntries
  {
    var both := {Ip(c.ip), Account(c.account)};
    var all := buckets.Keys + both;
    assert |all| == |buckets| + Missing(buckets, Ip(c.ip), Account(c.account)) by {
      SizeAfter(buckets, Ip(c.ip), Fresh(0));
      var one := buckets[Ip(c.ip) := Fresh(0)];
      SizeAfter(one, Account(c.account), Fresh(0));
      assert one[Account(c.account) := Fresh(0)].Keys == all;
    }
    if Ip(c.second) in buckets {
      SubsetSize(all, both + {Ip(c.second)});
    } else {
      SubsetSize(all, both);
    }
  }

  /** In a small table an attempt is decided by the two buckets. */
  lemma SmallAttempt(o: Options, c: Cast, buckets: map<Key, Bucket>, nextSweep: Time, now: Time)
    requires Proper(o) && Apart(c) && Small(o, c, buckets)
    ensures var swept := if Due(nextSweep, now, false) then Swept(o, buckets, now) else buckets;
            Small(o, c, swept) && Allowed(o, buckets, nextSweep, c.ip, c.account, now)
              == Reserve(o, swept, c.ip, c.account, now)
  {
    var swept := if Due(nextSweep, now, false) then Swept(o, buckets, now) else buckets;
    SmallFits(o, c, swept);
    hide Reserve, Missing;
  }

  predicate AccountOpen(c: Cast, buckets: map<Key, Bucket>, now: Time) {
    Account(c.account) in buckets ==> !Blocked(buckets[Account(c.account)], now)
  }

  /** The address has a bucket with k attempts in a window begun at `start`; it
      has been touched since, and nothing blocks. */
  predicate Ready(o: Options, c: Cast, buckets: map<Key, Bucket>, start: Time, k: nat, now: Time) {
    && Small(o, c, buckets) && AccountOpen(c, buckets, now) && Ip(c.ip) in buckets
    && var b := buckets[Ip(c.ip)];
       b.attempts == k && b.attemptStart == start && !Blocked(b, now) && now - b.touchedAt < o.ipAttemptWindow
  }

  /** After an admitted attempt: k attempts, blocked if that was the maximum. */
  predicate Charged(o: Options, c: Cast, buckets: map<Key, Bucket>, start: Time, k: nat, now: Time) {
    && Small(o, c, buckets) && AccountOpen(c, buckets, now) && Ip(c.ip) in buckets
    && var b := buckets[Ip(c.ip)];
       && b.attempts == k && b.attemptStart == start && b.touchedAt == now && b.failureBlockedUntil <= now
       && (if k >= o.maxIPAttempts then b.attemptBlockedUntil == now + o.ipAttemptBlock
          else b.attemptBlockedUntil <= now)
  }

  lemma Admitted(o: Options, c: Cast, buckets: map<Key, Bucket>, nextSweep: Time, start: Time, k: nat, now: Time)
    requires Proper(o) && Apart(c) && Ready(o, c, buckets, start, k, now) && now >= 0
    ensures var v := Allowed(o, buckets, nextSweep, c.ip, c.account, now);
            && v.allowed
            && if now - start < o.ipAttemptWindow then Charged(o, c, v.buckets, start, k + 1, now)
               else Charged(o, c, v.buckets, now, 1, now)
  {
    SmallAttempt(o, c, buckets, nextSweep, now);
    var swept := if Due(nextSweep, now, false) then Swept(o, buckets, now) else buckets;
    assert swept[Ip(c.ip)] == buckets[Ip(c.ip)];
    hide Swept, Missing, Retention;
  }

  function StartOf(o: Options, start: Time, now: Time): Time {
    if now - start < o.ipAttemptWindow then start else now
  }

  /** n attempts at one time, all admitted, in the running window or, if it has
      run out, in a new one. */
  lemma {:induction false} Burst(o: Options, c: Cast, events: seq<Event>, s: State, clock: Time, start: Time, k: nat,
      now: Time, n: nat)
      returns (longer: seq<Event>, t: State)
    requires Proper(o) && Apart(c) && At(o, events, s, clock) && 0 <= clock <= now && 1 <= n <= o.maxIPAttempts
    requires Ready(o, c, s.buckets, start, k, now) && (now - start < o.ipAttemptWindow ==> k == 0)
    ensures At(o, longer, t, now) && Charged(o, c, t.buckets, StartOf(o, start, now), n, now)
    ensures Past(t.admitted, c.ip) == Past(s.admitted, c.ip) + Moments(n, now)
    decreases n
  {
    hide Allowed, Small, AccountOpen, Sweeps, At, PlayAll, InOrder;
    var e := Attempt(c.ip, c.account, now);
    if n == 1 {
      Admitted(o, c, s.buckets, s.nextSweep, start, k, now);
      Extend(o, events, s, clock, e);
      longer, t := events + [e], Play(o, s, e);
      assert Moments(1, now) == [now];
    } else {
      var front, mid := Burst(o, c, events, s, clock, start, k, now, n - 1);
      ChargedIsReady(o, c, mid.buckets, StartOf(o, start, now), n - 1, now);
      Admitted(o, c, mid.buckets, mid.nextSweep, StartOf(o, start, now), n - 1, now);
      Extend(o, front, mid, now, e);
      longer, t := front + [e], Play(o, mid, e);
      MomentsOneMore(n - 1, now);
    }
  }

  lemma ChargedIsReady(o: Options, c: Cast, buckets: map<Key, Bucket>, start: Time, k: nat, now: Time)
    requires Proper(o) && Charged(o, c, buckets, start, k, now) && k < o.maxIPAttempts
    ensures Ready(o, c, buckets, start, k, now)
  {
  }

  // -------------------------------------------------------- opening a window

  /** The account's bucket with n failures at one time. */
  predicate Failing(o: Options, b: Bucket, n: nat, now: Time) {
    && b.failures == n && b.failureStart == now && b.touchedAt == now && b.attempts == 0 && b.attemptBlockedUntil == 0
    && (if n >= o.maxFailures then b.failureBlockedUntil == now + o.block else b.failureBlockedUntil <= 1 + o.block)
  }

  predicate Idle(o: Options, b: Bucket) {
    b.touchedAt == 1 && b.failureBlockedUntil <= 1 + o.block && b.attemptBlockedUntil == 0
  }

  /** The table while the second address fails on the account: the first one's
      bucket is idle. */
  predicate Hunted(o: Options, c: Cast, buckets: map<Key, Bucket>, n: nat, now: Time) {
    && (forall key :: key in buckets ==> key == Ip(c.first) || key == Account(c.account) || key == Ip(c.second))
    && (Ip(c.second) in buckets ==> o.maxEntries >= 3 && buckets[Ip(c.second)].touchedAt == now)
    && Ip(c.first) in buckets && Account(c.account) in buckets
    && Idle(o, buckets[Ip(c.first)])
    && var b := buckets[Account(c.account)];
       if n == 0 then b == Failed(o, Fresh(1), 1) else Failing(o, b, n, now)
  }

  lemma FirstFailure(o: Options, c: Cast, now: Time)
    requires Proper(o) && Apart(c)
    ensures Hunted(o, c, Play(o, Start, Failure(c.first, c.account, 1)).buckets, 0, now)
  {
    var none: map<Key, Bucket> := map[];
    SizeAfter(none, Ip(c.first), Failed(o, Fresh(1), 1));
  }

  lemma HuntedSize(o: Options, c: Cast, buckets: map<Key, Bucket>, n: nat, now: Time)
    requires Proper(o) && Apart(c) && Hunted(o, c, buckets, n, now) && Ip(c.second) !in buckets
    ensures |buckets| == 2
  {
    assert buckets.Keys == {Ip(c.first), Account(c.account)};
  }

  lemma NextFailure(o: Options, c: Cast, s: State, n: nat, now: Time)
    requires Proper(o) && Apart(c) && Hunted(o, c, s.buckets, n, now) && now == 1 + Retention(o)
    ensures Hunted(o, c, Play(o, s, Failure(c.second, c.account, now)).buckets, n + 1, now)
    ensures Play(o, s, Failure(c.second, c.account, now)).nextSweep == s.nextSweep
    ensures Play(o, s, Failure(c.second, c.account, now)).admitted == s.admitted
  {
    if Ip(c.second) !in s.buckets {
      HuntedSize(o, c, s.buckets, n, now);
    }
    hide Retention;
    assert now >= 1 + o.window;
  }

  lemma {:induction false} Hunt(o: Options, c: Cast, n: nat) returns (events: seq<Event>, s: State)
    requires Proper(o) && Apart(c)
    ensures At(o, events, s, 1 + Retention(o)) && Hunted(o, c, s.buckets, n, 1 + Retention(o)) && s.nextSweep == 0
            && s.admitted == map[]
    decreases n
  {
    var now := 1 + Retention(o);
    if n == 0 {
      var e := Failure(c.first, c.account, 1);
      FirstFailure(o, c, now);
      hide Hunted, Play;
      assert At(o, [], Start, 0);
      Extend(o, [], Start, 0, e);
      events, s := [] + [e], Play(o, Start, e);
    } else {
      hide At, Hunted, Play, Retention;
      var front, before := Hunt(o, c, n - 1);
      NextFailure(o, c, before, n - 1, now);
      var e := Failure(c.second, c.account, now);
      Extend(o, front, before, now, e);
      events, s := front + [e], Play(o, before, e);
    }
  }

  /** The address comes while the account is blocked: it is refused, but a window
      has begun for it, without an attempt in it. */
  lemma OpenWindow(o: Options, c: Cast, s: State, now: Time)
    requires Proper(o) && Apart(c) && Hunted(o, c, s.buckets, o.maxFailures, 1 + Retention(o)) && s.nextSweep == 0
             && s.admitted == map[]
    requires now == Retention(o) + o.block
    ensures var t := Play(o, s, Attempt(c.ip, c.account, now));
            && t.admitted == map[] && Small(o, c, t.buckets) && Ip(c.ip) in t.buckets
               && t.buckets[Ip(c.ip)] == Fresh(now)
            && Account(c.account) in t.buckets
            && t.buckets[Account(c.account)].failureBlockedUntil == now + 1
               && t.buckets[Account(c.account)].attemptBlockedUntil == 0
  {
    var swept := Swept(o, s.buckets, now);
    assert Ip(c.first) !in swept && Account(c.account) in swept;
    assert Small(o, c, swept);
    SmallFits(o, c, swept);
    hide Missing, Swept, Retention;
  }

  /** What opening a window leaves, for an attempt later in that window. */
  lemma OpenedIsReady(o: Options, c: Cast, buckets: map<Key, Bucket>, start: Time, now: Time)
    requires Proper(o) && Small(o, c, buckets) && Ip(c.ip) in buckets && buckets[Ip(c.ip)] == Fresh(start)
    requires Account(c.account) in buckets && buckets[Account(c.account)].failureBlockedUntil == start + 1
    requires buckets[Account(c.account)].attemptBlockedUntil == 0 && 0 <= start < now < start + o.ipAttemptWindow
    ensures Ready(o, c, buckets, start, 0, now)
  {
  }

  /** A full window that began early blocks only until it has run out. */
  lemma FullIsReady(o: Options, c: Cast, buckets: map<Key, Bucket>, start: Time, touched: Time)
    requires Proper(o) && o.ipAttemptBlock < o.ipAttemptWindow
             && Charged(o, c, buckets, start, o.maxIPAttempts, touched)
    requires touched == start + o.ipAttemptWindow - o.ipAttemptBlock
    ensures Ready(o, c, buckets, start, o.maxIPAttempts, start + o.ipAttemptWindow)
  {
  }

  /** A window has begun for the address, with no attempt in it. */
  lemma Begun(o: Options, c: Cast, start: Time, now: Time) returns (events: seq<Event>, s: State)
    requires Proper(o) && Apart(c) && start == Retention(o) + o.block && start < now < start + o.ipAttemptWindow
    ensures At(o, events, s, start) && Ready(o, c, s.buckets, start, 0, now) && s.admitted == map[]
  {
    var hunt, hunted := Hunt(o, c, o.maxFailures);
    OpenWindow(o, c, hunted, start);
    var knock := Attempt(c.ip, c.account, start);
    hide Hunted, Play, Retention, Small, Ready, At;
    Extend(o, hunt, hunted, 1 + Retention(o), knock);
    events, s := hunt + [knock], Play(o, hunted, knock);
    OpenedIsReady(o, c, s.buckets, start, now);
  }

  lemma NothingPast(admitted: map<string, seq<Time>>, ip: string)
    requires admitted == map[]
    ensures Past(admitted, ip) == []
  {
  }

  lemma StartsOf(o: Options, start: Time, now: Time)
    ensures now < start + o.ipAttemptWindow ==> StartOf(o, start, now) == start
  {
  }

  lemma AtEnd(o: Options, events: seq<Event>, s: State, clock: Time)
    requires At(o, events, s, clock)
    ensures InOrder(events) && PlayAll(o, events) == s
  {
    hide PlayAll, InOrder;
  }

  lemma FirstBurst(o: Options, c: Cast, start: Time) returns (events: seq<Event>, s: State)
    requires Proper(o) && Apart(c) && o.ipAttemptBlock < o.ipAttemptWindow && start == Retention(o) + o.block
    ensures var x := start + o.ipAttemptWindow - o.ipAttemptBlock;
            x >= 0 && At(o, events, s, x) && Past(s.admitted, c.ip) == Moments(o.maxIPAttempts, x)
    ensures Ready(o, c, s.buckets, start, o.maxIPAttempts, start + o.ipAttemptWindow)
  {
    var x := start + o.ipAttemptWindow - o.ipAttemptBlock;
    assert 0 <= start < x < start + o.ipAttemptWindow && o.maxIPAttempts >= 1;
    hide *;
    var front, before := Begun(o, c, start, x);
    NothingPast(before.admitted, c.ip);
    events, s := Burst(o, c, front, before, start, start, 0, x, o.maxIPAttempts);
    StartsOf(o, start, x);
    FullIsReady(o, c, s.buckets, start, x);
  }

  lemma SecondBurst(o: Options, c: Cast, front: seq<Event>, before: State, start: Time, x: Time, y: Time)
      returns (events: seq<Event>, s: State)
    requires Proper(o) && Apart(c) && 0 <= x <= y == start + o.ipAttemptWindow && At(o, front, before, x)
    requires Past(before.admitted, c.ip) == Moments(o.maxIPAttempts, x)
    requires Ready(o, c, before.buckets, start, o.maxIPAttempts, y)
    ensures InOrder(events) && PlayAll(o, events) == s
    ensures Past(s.admitted, c.ip) == Moments(o.maxIPAttempts, x) + Moments(o.maxIPAttempts, y)
  {
    assert o.maxIPAttempts >= 1;
    hide *;
    events, s := Burst(o, c, front, before, x, start, o.maxIPAttempts, y, o.maxIPAttempts);
    AtEnd(o, events, s, y);
  }

  /** A refused attempt begins a window. The attempts of its end are followed, when
      their block has passed, by as many in the next window. */
  lemma TwoBursts(o: Options, c: Cast) returns (events: seq<Event>, s: State, x: Time)
    requires Proper(o) && Apart(c) && o.ipAttemptBlock < o.ipAttemptWindow
    ensures InOrder(events) && PlayAll(o, events) == s
    ensures Past(s.admitted, c.ip) == Moments(o.maxIPAttempts, x) + Moments(o.maxIPAttempts, x + o.ipAttemptBlock)
  {
    assert o.ipAttemptBlock >= 1;
    hide *;
    var start := Retention(o) + o.block;
    var first, half := FirstBurst(o, c, start);
    x := start + o.ipAttemptWindow - o.ipAttemptBlock;
    events, s := SecondBurst(o, c, first, half, start, x, start + o.ipAttemptWindow);
  }

  lemma CountedTwice(o: Options, times: seq<Time>, x: Time)
    requires Proper(o) && o.ipAttemptBlock < o.ipAttemptWindow
    requires times == Moments(o.maxIPAttempts, x) + Moments(o.maxIPAttempts, x + o.ipAttemptBlock)
    ensures Within(times, x, x + o.ipAttemptWindow) == 2 * o.maxIPAttempts
  {
    TwoMomentsWithin(o.maxIPAttempts, o.maxIPAttempts, x, x + o.ipAttemptBlock, x + o.ipAttemptWindow);
  }

  lemma AdmittedInIs(o: Options, events: seq<Event>, ip: string, x: int)
    ensures AdmittedIn(o, events, ip, x) == Within(Past(PlayAll(o, events).admitted, ip), x, x + o.ipAttemptWindow)
  {
    hide PlayAll, Past, Within;
  }

  /** With a shorter block some run admits twice the maximum in one window. */
  lemma ShortBlockBreaksTheBound(o: Options, c: Cast) returns (events: seq<Event>, x: Time)
    requires Proper(o) && Apart(c) && o.ipAttemptBlock < o.ipAttemptWindow
    ensures InOrder(events) && AdmittedIn(o, events, c.ip, x) == 2 * o.maxIPAttempts
  {
    hide *;
    var s: State;
    events, s, x := TwoBursts(o, c);
    CountedTwice(o, Past(s.admitted, c.ip), x);
    AdmittedInIs(o, events, c.ip, x);
  }

  /** At most 2 * max - 1 attempts of an address in any window, in every run:
      exactly with a block at least as long as the window. */
  lemma BoundHoldsExactlyWhen(o: Options)
    requires Proper(o)
    ensures BoundHolds(o) <==> o.ipAttemptBlock >= o.ipAttemptWindow
  {
    if o.ipAttemptBlock >= o.ipAttemptWindow {
      forall events, ip, x | InOrder(events) ensures AdmittedIn(o, events, ip, x) <= 2 * o.maxIPAttempts - 1 {
        BoundInRun(o, events, ip, x);
      }
    } else {
      var c := Cast("a", "b", "c", "d");
      assert c.ip[0] != c.first[0] && c.ip[0] != c.second[0] && c.first[0] != c.second[0];
      var events, x := ShortBlockBreaksTheBound(o, c);
    }
  }

  /** Half a window of block is not enough for a maximum of two: four attempts
      in six units of time, the block being three. */
  lemma HalfABlockIsTooShort(o: Options, c: Cast) returns (events: seq<Event>, x: Time)
    requires Proper(o) && Apart(c) && o.maxIPAttempts == 2 && o.ipAttemptWindow == 6 && o.ipAttemptBlock == 3
    ensures InOrder(events) && AdmittedIn(o, events, c.ip, x) == 4
  {
    events, x := ShortBlockBreaksTheBound(o, c);
  }
}
