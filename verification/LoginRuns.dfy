/** Whole runs of the login limiter, and the exact condition on its rules under
    which every key keeps to its own limit. */
module LoginRuns {
  import opened Common
  import opened Times
  import opened LoginLimiter

  datatype Event =
    | Attempt(key: string, now: Time)
    | Clear(key: string, now: Time)

  /** The table, the admissions of each key since it was last cleared, and the
      keys that have lost some to an eviction since. */
  datatype State = State(attempts: Table, admitted: Table, lost: set<string>)

  const Start := State(map[], map[], {})

  /** The admissions of the key, one more if this one is admitted. */
  function Noted(admitted: Table, key: string, allowed: bool, now: Time): Table {
    if allowed then admitted[key := Stored(admitted, key) + [now]] else admitted
  }

  function Play(p: Policy, s: State, e: Event): State {
    match e
    case Attempt(key, now) =>
      var outcome := Attempted(s.attempts, key, now, p);
      State(outcome.attempts, Noted(s.admitted, key, outcome.allowed, now), s.lost + LostBy(s.attempts, key, now, p))
    case Clear(key, _) => State(s.attempts - {key}, s.admitted - {key}, s.lost - {key})
  }

  function PlayAll(p: Policy, events: seq<Event>): State {
    if events == [] then Start else Play(p, PlayAll(p, events[..|events| - 1]), events[|events| - 1])
  }

  /** The clock does not go back. */
  predicate InOrder(events: seq<Event>) {
    && (forall i :: 0 <= i < |events| ==> events[i].now >= 0)
    && (forall i, j :: 0 <= i < j < |events| ==> events[i].now <= events[j].now)
  }

  function Clock(events: seq<Event>): Time {
    if events == [] then 0 else events[|events| - 1].now
  }

  ghost function View(l: Limiter): State
    reads l
  {
    State(l.attempts, l.admitted, l.lost)
  }

  /** A limiter makes exactly these steps. */
  method Perform(l: Limiter, limit: int, window: Time, e: Event)
    requires l.Valid() && l.clock <= e.now && limit == Limit(l.policy, e.key) && window == Window(l.policy, e.key)
    modifies l
    ensures l.Valid() && l.clock <= e.now
    ensures View(l) == Play(l.policy, old(View(l)), e)
  {
    hide AllFine, Attempted, LostBy, Limit, Window;
    match e
    case Attempt(key, now) =>
      var allowed := l.Allow(key, limit, window, now);
    case Clear(key, now) => l.Clear(key);
  }

  // ------------------------------------------------------------ every run

  ghost predicate StateOk(p: Policy, s: State, clock: Time) {
    |s.attempts| <= CAPACITY && AllFine(s.attempts, s.admitted, s.lost, clock, p) && LostAreLong(s.lost, p)
  }

  lemma StartOk(p: Policy)
    ensures StateOk(p, Start, 0)
  {
    forall key ensures KeyFine(Start.attempts, Start.admitted, Start.lost, key, 0, p) {
      NothingFine(0, Assured(p, Start.lost, key), Limit(p, key));
    }
  }

  /** A decision keeps what is known of the key. */
  lemma JudgedFine(kept: seq<Time>, past: seq<Time>, limit: int, window: Time, now: Time, assured: Time)
    requires Remembers(kept, past, now, assured) && Spread(past, limit, assured) && assured <= window
    ensures var recent := Recent(kept, now - window);
            if |recent| < limit then Remembers(recent + [now], past + [now], now, assured)
              && Spread(past + [now], limit, assured)
            else Remembers(recent, past, now, assured)
  {
    hide Remembers, Spread, After, Recent;
    Decision(kept, past, now, window, assured);
    if |Recent(kept, now - window)| < limit {
      AdmittedRemembers(Recent(kept, now - window), past, now, assured);
      AdmittedSpread(past, now, limit, assured);
    }
  }

  lemma DecidedFine(p: Policy, attempts: Table, admitted: Table, lost: set<string>, key: string, now: Time)
    requires |attempts| <= CAPACITY && HasPlace(attempts, key) && AllFine(attempts, admitted, lost, now, p)
    ensures var d := Decided(attempts, key, now, p);
            |d.attempts| <= CAPACITY && AllFine(d.attempts, Noted(admitted, key, d.allowed, now), lost, now, p)
  {
    hide AllFine, Remembers, Spread, Limit, Window, Recent, Stored;
    var past := Stored(admitted, key);
    var d := Decided(attempts, key, now, p);
    var recent := Recent(Stored(attempts, key), now - Window(p, key));
    OneFine(attempts, admitted, lost, key, now, p);
    JudgedFine(Stored(attempts, key), past, Limit(p, key), Window(p, key), now, Assured(p, lost, key));
    if d.allowed {
      SizeWith(attempts, key, recent + [now]);
      OthersFine(attempts, admitted, lost, key, recent + [now], past + [now], now, p);
    } else {
      assert recent + [] == recent;
      SizeWith(attempts, key, recent);
      OthersFineRefused(attempts, admitted, lost, key, recent, now, p);
    }
  }

  lemma AttemptKeeps(p: Policy, s: State, clock: Time, key: string, now: Time)
    requires StateOk(p, s, clock) && clock <= now
    ensures StateOk(p, Play(p, s, Attempt(key, now)), now)
  {
    hide AllFine, LostAreLong, Attempted, Decided, Room, Tidy, LostBy, HasPlace, Window;
    RoomOrNot(s.attempts, key, now, p);
    MadeRoom(s.attempts, s.admitted, s.lost, clock, key, now, p);
    var tidy, lost := Tidy(s.attempts, key, now - Window(p, key)), s.lost + LostBy(s.attempts, key, now, p);
    if Room(s.attempts, key, now - Window(p, key)) {
      DecidedFine(p, tidy, s.admitted, lost, key, now);
    }
  }

  lemma ClearKeeps(p: Policy, s: State, clock: Time, key: string, now: Time)
    requires StateOk(p, s, clock) && clock <= now
    ensures StateOk(p, Play(p, s, Clear(key, now)), now)
  {
    hide AllFine;
    LaterFine(s.attempts, s.admitted, s.lost, clock, now, p);
    ClearedFine(s.attempts, s.admitted, s.lost, key, now, p);
    SizeWithout(s.attempts, now, key);
  }

  lemma {:induction false} RunOk(p: Policy, events: seq<Event>)
    requires InOrder(events)
    ensures StateOk(p, PlayAll(p, events), Clock(events))
  {
    if events == [] {
      StartOk(p);
    } else {
      var front, e := events[..|events| - 1], events[|events| - 1];
      RunOk(p, front);
      hide StateOk, Play;
      match e
      case Attempt(key, now) => AttemptKeeps(p, PlayAll(p, front), Clock(front), key, now);
      case Clear(key, now) => ClearKeeps(p, PlayAll(p, front), Clock(front), key, now);
    }
  }

  // ------------------------------------------------------------- the limits

  predicate Proper(p: Policy) {
    p.setup.window >= 1 && p.loginIP.window >= 1 && p.loginAccount.window >= 1
  }

  /** How many admissions of the key, since it was last cleared, fall into its own
      window from x on. */
  function AdmittedIn(p: Policy, events: seq<Event>, key: string, x: int): nat {
    Within(Stored(PlayAll(p, events).admitted, key), x, x + Window(p, key))
  }

  /** In every run every key keeps to its own limit. */
  ghost predicate LimitsHold(p: Policy) {
    forall events, key, x :: InOrder(events) ==> AdmittedIn(p, events, key, x) <= Max(Limit(p, key), 0)
  }

  /** A window as long as the shortest, or one unit longer, or nothing admitted. */
  predicate Short(p: Policy, r: Rule) {
    r.limit > 0 ==> r.window <= Least(p) + 1
  }

  predicate AllShort(p: Policy) {
    Short(p, p.setup) && Short(p, p.loginIP) && Short(p, p.loginAccount)
  }

  lemma LastIsWithin(times: seq<Time>, length: int)
    requires length >= 1 && times != []
    ensures InWindow(times, times[|times| - 1], length) >= 1
  {
  }

  lemma ShortIsNotLost(p: Policy, lost: set<string>, key: string)
    requires AllShort(p) && LostAreLong(lost, p) && Limit(p, key) > 0
    ensures key !in lost && Assured(p, lost, key) == Window(p, key)
  {
  }

  lemma KeyLimit(p: Policy, s: State, clock: Time, key: string, x: int)
    requires Proper(p) && AllShort(p) && StateOk(p, s, clock)
    ensures Within(Stored(s.admitted, key), x, x + Window(p, key)) <= Max(Limit(p, key), 0)
  {
    var past, assured := Stored(s.admitted, key), Assured(p, s.lost, key);
    OneFine(s.attempts, s.admitted, s.lost, key, clock, p);
    assert assured >= 1;
    if Limit(p, key) > 0 {
      ShortIsNotLost(p, s.lost, key);
      hide AllFine, Remembers, Stored, AllShort, LostAreLong, Window, Limit, Assured;
      assert InWindow(past, x, assured) <= Limit(p, key);
    } else {
      hide AllFine, Remembers, Stored, AllShort, LostAreLong, Window, Limit, Assured;
      if past != [] {
        LastIsWithin(past, assured);
      }
    }
  }

  lemma AdmittedInIs(p: Policy, events: seq<Event>, key: string, x: int)
    ensures AdmittedIn(p, events, key, x) == Within(Stored(PlayAll(p, events).admitted, key), x, x + Window(p, key))
  {
    hide PlayAll, Stored, Within, Window;
  }

  lemma LimitInRun(p: Policy, events: seq<Event>, key: string, x: int)
    requires Proper(p) && AllShort(p) && InOrder(events)
    ensures AdmittedIn(p, events, key, x) <= Max(Limit(p, key), 0)
  {
    RunOk(p, events);
    hide *;
    KeyLimit(p, PlayAll(p, events), Clock(events), key, x);
    AdmittedInIs(p, events, key, x);
  }

  // ------------------------------------------- a run that breaks the limits

  datatype Kind = Setup | LoginIP | LoginAccount

  function Prefix(kind: Kind): string {
    match kind
    case Setup => "setup:"
    case LoginIP => "login-ip:"
    case LoginAccount => "login-account:"
  }

  function RuleFor(p: Policy, kind: Kind): Rule {
    match kind
    case Setup => p.setup
    case LoginIP => p.loginIP
    case LoginAccount => p.loginAccount
  }

  /** The n-th key of a kind. */
  function KeyOf(kind: Kind, n: nat): string {
    Prefix(kind) + seq(n, _ => 'x')
  }

  lemma KeyOfKind(p: Policy, kind: Kind, n: nat)
    ensures RuleOf(p, KeyOf(kind, n)) == RuleFor(p, kind)
  {
    var key, prefix := KeyOf(kind, n), Prefix(kind);
    assert key[..|prefix|] == prefix;
    assert key[0] == prefix[0] && (kind != Setup ==> key[6] == prefix[6]);
    assert "setup:"[0] == 's' && "login-ip:"[0] == "login-account:"[0] == 'l' && "login-ip:"[6] == 'i'
      && "login-account:"[6] == 'a';
  }

  /** The keys of a kind from the second to the n-th. */
  function KeysOf(kind: Kind, n: nat): set<string> {
    if n == 0 then {} else KeysOf(kind, n - 1) + {KeyOf(kind, n)}
  }

  lemma {:induction false} KeysOfSize(kind: Kind, n: nat)
    ensures |KeysOf(kind, n)| == n
    ensures forall key :: key in KeysOf(kind, n) ==> |Prefix(kind)| < |key| <= |Prefix(kind)| + n
  {
    if n > 0 {
      KeysOfSize(kind, n - 1);
      assert |KeyOf(kind, n)| == |Prefix(kind)| + n;
    }
  }

  lemma {:induction false} KeysOfRule(p: Policy, kind: Kind, n: nat)
    ensures forall key :: key in KeysOf(kind, n) ==> RuleOf(p, key) == RuleFor(p, kind)
  {
    hide RuleOf, KeyOf;
    if n > 0 {
      KeysOfRule(p, kind, n - 1);
      KeyOfKind(p, kind, n);
    }
  }

  /** The run so far. */
  ghost predicate At(p: Policy, events: seq<Event>, s: State, clock: Time) {
    InOrder(events) && PlayAll(p, events) == s && Clock(events) <= clock
  }

  lemma Extend(p: Policy, events: seq<Event>, s: State, clock: Time, e: Event)
    requires At(p, events, s, clock) && 0 <= clock <= e.now
    ensures At(p, events + [e], Play(p, s, e), e.now)
  {
    hide Play;
    assert (events + [e])[..|events|] == events;
  }

  lemma {:induction false} AllRecent(times: seq<Time>, cutoff: Time)
    requires forall i :: 0 <= i < |times| ==> times[i] > cutoff
    ensures Recent(times, cutoff) == times
  {
    if times != [] {
      AllRecent(times[..|times| - 1], cutoff);
    }
  }

  /** The key has n admissions at time 0, and each of the others has one. */
  predicate Filled(s: State, key: string, n: nat, others: set<string>) {
    && s.attempts.Keys == s.admitted.Keys == others + (if n == 0 then {} else {key})
    && key !in others
    && (n > 0 ==> s.attempts[key] == Moments(n, 0) && s.admitted[key] == Moments(n, 0))
    && forall other :: other in others ==> s.attempts[other] == [0]
  }

  /** An attempt for which there is place, and few enough before it. */
  lemma PlayAdmitted(p: Policy, s: State, key: string, now: Time)
    requires HasPlace(s.attempts, key)
             && Recent(Stored(s.attempts, key), now - Window(p, key)) == Stored(s.attempts, key)
    requires |Stored(s.attempts, key)| < Limit(p, key)
    ensures var t := Play(p, s, Attempt(key, now));
            && t.attempts == s.attempts[key := Stored(s.attempts, key) + [now]]
            && t.admitted == s.admitted[key := Stored(s.admitted, key) + [now]]
  {
    hide HasPlace, Limit, Window, Recent, LostBy, Stored;
  }

  lemma ListsOfFirst(s: State, key: string, n: nat)
    requires Filled(s, key, n, {})
    ensures HasPlace(s.attempts, key) && Stored(s.attempts, key) == Moments(n, 0) == Stored(s.admitted, key)
  {
    if n == 0 {
      assert |s.attempts.Keys| == 0;
    }
  }

  lemma GrowsFirst(s: State, t: State, key: string, n: nat)
    requires Filled(s, key, n, {}) && t.attempts == s.attempts[key := Moments(n + 1, 0)]
             && t.admitted == s.admitted[key := Moments(n + 1, 0)]
    ensures Filled(t, key, n + 1, {})
  {
    hide Moments;
  }

  lemma StepOfFirst(p: Policy, s: State, key: string, n: nat)
    requires Filled(s, key, n, {}) && n < Limit(p, key) && Window(p, key) >= 1
    ensures Filled(Play(p, s, Attempt(key, 0)), key, n + 1, {})
  {
    ListsOfFirst(s, key, n);
    AllRecent(Moments(n, 0), 0 - Window(p, key));
    assert |Moments(n, 0)| == n;
    hide *;
    PlayAdmitted(p, s, key, 0);
    MomentsOneMore(n, 0);
    GrowsFirst(s, Play(p, s, Attempt(key, 0)), key, n);
  }

  lemma {:induction false} Exhaust(p: Policy, key: string, n: nat) returns (events: seq<Event>, s: State)
    requires n <= Limit(p, key) && Window(p, key) >= 1
    ensures At(p, events, s, 0) && Filled(s, key, n, {})
  {
    if n == 0 {
      events, s := [], Start;
    } else {
      hide *;
      var front, before := Exhaust(p, key, n - 1);
      StepOfFirst(p, before, key, n - 1);
      Extend(p, front, before, 0, Attempt(key, 0));
      events, s := front + [Attempt(key, 0)], Play(p, before, Attempt(key, 0));
    }
  }

  lemma StepOfOther(p: Policy, s: State, key: string, n: nat, others: set<string>, other: string)
    requires Filled(s, key, n, others) && n > 0 && other !in others && other != key
    requires |others| + 1 < CAPACITY && Limit(p, other) > 0
    ensures Filled(Play(p, s, Attempt(other, 0)), key, n, others + {other})
  {
    assert |s.attempts.Keys| == |others| + 1;
    assert HasPlace(s.attempts, other);
    assert Stored(s.attempts, other) == [] && Stored(s.admitted, other) == [];
    assert Recent([], 0 - Window(p, other)) == [];
    hide HasPlace, Limit, Window, Recent, Moments, Stored, Play;
    PlayAdmitted(p, s, other, 0);
  }

  lemma FillFirst(p: Policy, kind: Kind, limit: nat) returns (events: seq<Event>, s: State)
    requires RuleFor(p, kind).limit == limit > 0 && RuleFor(p, kind).window >= 1
    ensures At(p, events, s, 0) && Filled(s, KeyOf(kind, 0), limit, {})
  {
    KeyOfKind(p, kind, 0);
    hide At, Filled, KeyOf, RuleOf;
    events, s := Exhaust(p, KeyOf(kind, 0), limit);
  }

  /** A table with so many keys of one kind, the first of which has used up its
      limit. */
  lemma {:induction false} Fill(p: Policy, kind: Kind, limit: nat, n: nat) returns (events: seq<Event>, s: State)
    requires RuleFor(p, kind).limit == limit > 0 && RuleFor(p, kind).window >= 1 && n < CAPACITY
    ensures At(p, events, s, 0) && Filled(s, KeyOf(kind, 0), limit, KeysOf(kind, n))
  {
    if n == 0 {
      events, s := FillFirst(p, kind, limit);
    } else {
      hide *;
      var front, before := Fill(p, kind, limit, n - 1);
      FillMore(p, before, kind, limit, n);
      Extend(p, front, before, 0, Attempt(KeyOf(kind, n), 0));
      events, s := front + [Attempt(KeyOf(kind, n), 0)], Play(p, before, Attempt(KeyOf(kind, n), 0));
    }
  }

  lemma FillMore(p: Policy, s: State, kind: Kind, limit: nat, n: nat)
    requires 0 < n < CAPACITY && RuleFor(p, kind).limit > 0 && limit > 0
             && Filled(s, KeyOf(kind, 0), limit, KeysOf(kind, n - 1))
    ensures Filled(Play(p, s, Attempt(KeyOf(kind, n), 0)), KeyOf(kind, 0), limit, KeysOf(kind, n))
  {
    KeyOfKind(p, kind, n);
    KeysOfSize(kind, n - 1);
    KeySizes(kind, n);
    hide Filled, Play, KeyOf, RuleOf, RuleFor, Prefix;
    StepOfOther(p, s, KeyOf(kind, 0), limit, KeysOf(kind, n - 1), KeyOf(kind, n));
  }

  lemma KeySizes(kind: Kind, n: nat)
    ensures |KeyOf(kind, 0)| == |Prefix(kind)| && |KeyOf(kind, n)| == |Prefix(kind)| + n
  {
  }

  /** The kind with the shortest window. */
  function Shortest(p: Policy): (kind: Kind)
    ensures RuleFor(p, kind).window == Least(p)
  {
    if p.setup.window == Least(p) then Setup else if p.loginIP.window == Least(p) then LoginIP else LoginAccount
  }

  /** Full and idle for the shortest window, the table is about to lose the key
      that has used up its limit. */
  lemma FilledIsAboutToLose(p: Policy, s: State, kind: Kind, n: nat, limit: nat, now: Time)
    requires Proper(p) && n + 1 == CAPACITY && Filled(s, KeyOf(kind, 0), limit, KeysOf(kind, n)) && limit > 0
    requires RuleFor(p, kind) == Rule(limit, RuleFor(p, kind).window)
    requires RuleFor(p, kind).window >= Least(p) + 2 && now == Least(p) + 1
    ensures AboutToLose(s.attempts, KeyOf(kind, 0), KeyOf(kind, n), KeyOf(Shortest(p), 0), now, p)
  {
    var key, other, login := KeyOf(kind, 0), KeyOf(kind, n), KeyOf(Shortest(p), 0);
    KeyOfKind(p, kind, 0);
    KeyOfKind(p, Shortest(p), 0);
    KeysOfRule(p, kind, n);
    KeysOfSize(kind, n);
    KeySizes(kind, n);
    assert other in KeysOf(kind, n);
    hide KeyOf, RuleOf, Least, KeysOf, RuleFor, Prefix, Filled;
    ListsOfFilled(s, key, limit, KeysOf(kind, n), now - Window(p, key), now - Window(p, login));
    assert Window(p, login) != Window(p, key);
  }

  lemma ListsOfFilled(s: State, key: string, limit: nat, others: set<string>, own: Time, shorter: Time)
    requires Filled(s, key, limit, others) && limit > 0 && own < 0 < shorter
    ensures s.attempts.Keys == others + {key} && |s.attempts| == |others| + 1 && key !in others
    ensures |Recent(s.attempts[key], own)| == limit
    ensures forall other :: other in s.attempts ==> Idle(s.attempts[other], shorter)
  {
    AllRecent(Moments(limit, 0), own);
    hide Recent;
    assert |s.attempts.Keys| == |others| + 1;
  }

  /** Where the window of a kind is two units longer than the shortest, some run
      admits one attempt above the limit of a key of that kind in its window. */
  lemma LongRuleBreaksTheLimit(p: Policy, kind: Kind, n: nat) returns (events: seq<Event>)
    requires Proper(p) && RuleFor(p, kind).limit > 0 && RuleFor(p, kind).window >= Least(p) + 2 && n + 1 == CAPACITY
    ensures InOrder(events) && AdmittedIn(p, events, KeyOf(kind, 0), 0) == RuleFor(p, kind).limit + 1
  {
    var limit, now := RuleFor(p, kind).limit, Least(p) + 1;
    var key, other, login := KeyOf(kind, 0), KeyOf(kind, n), KeyOf(Shortest(p), 0);
    KeyOfKind(p, kind, 0);
    var front, s := Fill(p, kind, limit, n);
    FilledIsAboutToLose(p, s, kind, n, limit, now);
    assert Stored(s.admitted, key) == Moments(limit, 0);
    assert login != key;
    hide KeyOf, RuleOf, RuleFor, Least, Filled, Attempted, AboutToLose, At, LostBy, After, Moments, Within;
    EvictionOverAdmits(s.attempts, key, other, login, now, p);
    var first, second := Attempt(login, now), Attempt(key, now);
    Extend(p, front, s, 0, first);
    var t := Play(p, s, first);
    Extend(p, front + [first], t, now, second);
    events := front + [first] + [second];
    OneMoreAdmitted(p, events, Play(p, t, second), key, limit, now);
  }

  lemma OneMoreAdmitted(p: Policy, events: seq<Event>, s: State, key: string, limit: nat, now: Time)
    requires At(p, events, s, now) && Stored(s.admitted, key) == Moments(limit, 0) + [now] && 0 <= now < Window(p, key)
    ensures InOrder(events) && AdmittedIn(p, events, key, 0) == limit + 1
  {
    assert Moments(1, now) == [now];
    TwoMomentsWithin(limit, 1, 0, now, Window(p, key));
  }

  /** In every run every key keeps to its own limit exactly when no kind with a
      positive limit has a window two units longer than the shortest. */
  lemma LimitsHoldExactlyWhen(p: Policy)
    requires Proper(p)
    ensures LimitsHold(p) <==> AllShort(p)
  {
    if AllShort(p) {
      forall events, key, x | InOrder(events) ensures AdmittedIn(p, events, key, x) <= Max(Limit(p, key), 0) {
        LimitInRun(p, events, key, x);
      }
    } else {
      var kind := if !Short(p, p.setup) then Setup else if !Short(p, p.loginIP) then LoginIP else LoginAccount;
      KeyOfKind(p, kind, 0);
      var key, limit := KeyOf(kind, 0), RuleFor(p, kind).limit;
      var events := LongRuleBreaksTheLimit(p, kind, CAPACITY - 1);
      hide AdmittedIn, RuleOf, InOrder, KeyOf;
      assert AdmittedIn(p, events, key, 0) > Max(Limit(p, key), 0);
    }
  }

  /** Under the server's rules: eleven setups of one address within an hour. */
  lemma SetupsCanBeLost() returns (events: seq<Event>)
    ensures InOrder(events) && AdmittedIn(SERVER_POLICY, events, KeyOf(Setup, 0), 0) == 11
  {
    events := LongRuleBreaksTheLimit(SERVER_POLICY, Setup, CAPACITY - 1);
  }
}
