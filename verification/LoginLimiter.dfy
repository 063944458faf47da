/** The sliding-window limiter in front of web logins: a list of admission times
    per key, compacted in place on every call. */
module LoginLimiter {
  import opened Common
  import opened Times

  const CAPACITY := 10000

  datatype Rule = Rule(limit: int, window: Time)

  /** The limit and window of each kind of key, told by its prefix. */
  datatype Policy = Policy(setup: Rule, loginIP: Rule, loginAccount: Rule)

  /** What the server uses: ten setups an hour, a hundred logins per address and
      ten per account in a quarter of one. */
  const SERVER_POLICY := Policy(Rule(10, 60 * MINUTE), Rule(100, 15 * MINUTE), Rule(10, 15 * MINUTE))

  function RuleOf(p: Policy, key: string): Rule {
    if "setup:" <= key then p.setup else if "login-ip:" <= key then p.loginIP else p.loginAccount
  }

  function Limit(p: Policy, key: string): int {
    RuleOf(p, key).limit
  }

  function Window(p: Policy, key: string): (w: Time)
    ensures Least(p) <= w
  {
    RuleOf(p, key).window
  }

  /** The shortest window in use. */
  function Least(p: Policy): Time {
    Min(p.setup.window, Min(p.loginIP.window, p.loginAccount.window))
  }

  /** The times after the cutoff, in order. */
  function Recent(times: seq<Time>, cutoff: Time): seq<Time> {
    if times == [] then []
    else
      var last := times[|times| - 1];
      Recent(times[..|times| - 1], cutoff) + if last > cutoff then [last] else []
  }

  predicate Sorted(times: seq<Time>) {
    forall i, j :: 0 <= i < j < |times| ==> times[i] <= times[j]
  }

  lemma {:induction false} RecentCounts(times: seq<Time>, cutoff: Time)
    ensures |Recent(times, cutoff)| == After(times, cutoff)
  {
    if times != [] {
      RecentCounts(times[..|times| - 1], cutoff);
    }
  }

  /** Of a sorted list the recent times are what is left after a prefix. */
  lemma {:induction false} RecentIsSuffix(times: seq<Time>, cutoff: Time) returns (k: nat)
    requires Sorted(times)
    ensures k <= |times| && Recent(times, cutoff) == times[k..] && UpTo(times[..k], cutoff)
    ensures k < |times| ==> times[k] > cutoff
  {
    if times == [] {
      k := 0;
    } else {
      var n := |times| - 1;
      var front := times[..n];
      k := RecentIsSuffix(front, cutoff);
      assert times == front + [times[n]];
      if times[n] > cutoff {
        OneMoreRecent(front, times[n], cutoff, k);
      } else {
        OneMoreOld(front, times[n], cutoff, k);
        k := n + 1;
      }
    }
  }

  lemma OneMoreRecent(front: seq<Time>, last: Time, cutoff: Time, k: nat)
    requires k <= |front| && Recent(front, cutoff) == front[k..] && UpTo(front[..k], cutoff)
             && (k < |front| ==> front[k] > cutoff)
    requires last > cutoff
    ensures var times := front + [last];
              Recent(times, cutoff) == times[k..] && UpTo(times[..k], cutoff) && times[k] > cutoff
  {
    var times := front + [last];
    assert times[..|front|] == front;
    assert times[..k] == front[..k] && times[k..] == front[k..] + [last];
  }

  lemma OneMoreOld(front: seq<Time>, last: Time, cutoff: Time, k: nat)
    requires k <= |front| && Recent(front, cutoff) == front[k..] && UpTo(front[..k], cutoff)
             && (k < |front| ==> front[k] > cutoff)
    requires last <= cutoff && Sorted(front + [last])
    ensures var times := front + [last]; Recent(times, cutoff) == times[|times|..] && UpTo(times[..|times|], cutoff)
  {
    var times := front + [last];
    assert times[..|front|] == front && times[|front|] == last && times[..|times|] == times;
    assert forall i :: 0 <= i < |front| ==> front[i] == times[i] && times[i] <= times[|front|];
    assert k == |front| && front[..k] == front;
  }

  /** Compacts an array to its recent times and returns how many there are. */
  method CompactInPlace(a: array<Time>, cutoff: Time) returns (n: nat)
    modifies a
    ensures n <= a.Length && a[..n] == Recent(old(a[..]), cutoff)
  {
    n := 0;
    ghost var before := a[..];
    for i := 0 to a.Length
      invariant n <= i && a[..n] == Recent(before[..i], cutoff)
      invariant forall k :: i <= k < a.Length ==> a[k] == before[k]
    {
      assert before[..i + 1][..i] == before[..i];
      if a[i] > cutoff {
        a[n] := a[i];
        n := n + 1;
      }
    }
    assert before[..a.Length] == before;
  }

  /** The table without the keys whose last admission lies before the cutoff. */
  function Evicted(attempts: map<string, seq<Time>>, cutoff: Time): map<string, seq<Time>> {
    map key | key in attempts && !Idle(attempts[key], cutoff) :: attempts[key]
  }

  predicate Idle(times: seq<Time>, cutoff: Time) {
    times == [] || times[|times| - 1] < cutoff
  }

  /** An eviction forgets an admission that another key's longer window still
      covers exactly when that key's last one lies between the two cutoffs. */
  lemma EvictionForgets(attempts: map<string, seq<Time>>, key: string, cutoff: Time, longer: Time)
    requires key in attempts && Sorted(attempts[key]) && longer <= cutoff
    ensures key !in Evicted(attempts, cutoff) && After(attempts[key], longer) > 0 <==>
            attempts[key] != [] && longer < attempts[key][|attempts[key]| - 1] < cutoff
  {
    var times := attempts[key];
    if times != [] && times[|times| - 1] <= longer {
      NoneAfter(times, longer);
    }
  }

  function Stored(attempts: map<string, seq<Time>>, key: string): seq<Time> {
    if key in attempts then attempts[key] else []
  }

  /** What is stored for a key are its latest admissions; the others are at least
      a window old. */
  predicate Remembers(stored: seq<Time>, admitted: seq<Time>, clock: Time, least: Time) {
    && Sorted(admitted) && UpTo(admitted, clock)
    && |stored| <= |admitted| && stored == admitted[|admitted| - |stored|..]
    && UpTo(admitted[..|admitted| - |stored|], clock - least)
  }

  function InWindow(admitted: seq<Time>, x: int, least: Time): nat {
    Within(admitted, x, x + least)
  }

  ghost predicate Spread(admitted: seq<Time>, limit: int, least: Time) {
    forall x: int :: InWindow(admitted, x, least) <= Max(limit, 0)
  }

  lemma SortedSuffix(stored: seq<Time>, admitted: seq<Time>)
    requires Sorted(admitted) && |stored| <= |admitted| && stored == admitted[|admitted| - |stored|..]
    ensures Sorted(stored)
  {
  }

  lemma SuffixOfSuffix(stored: seq<Time>, admitted: seq<Time>, j: nat, moment: Time)
    requires |stored| <= |admitted| && stored == admitted[|admitted| - |stored|..] && j <= |stored|
    requires UpTo(admitted[..|admitted| - |stored|], moment) && UpTo(stored[..j], moment)
    ensures stored[j..] == admitted[|admitted| - |stored| + j..]
    ensures UpTo(admitted[..|admitted| - |stored| + j], moment)
  {
    var k := |admitted| - |stored|;
    assert admitted[..k + j] == admitted[..k] + stored[..j];
  }

  /** Forgetting what is older than a window, by compaction or eviction. */
  lemma RecentRemembers(stored: seq<Time>, admitted: seq<Time>, now: Time, window: Time, least: Time)
    requires Remembers(stored, admitted, now, least) && least <= window
    ensures Remembers(Recent(stored, now - window), admitted, now, least)
  {
    SortedSuffix(stored, admitted);
    var j := RecentIsSuffix(stored, now - window);
    hide Recent, Sorted;
    SuffixOfSuffix(stored, admitted, j, now - least);
  }

  lemma NothingRemembers(stored: seq<Time>, admitted: seq<Time>, now: Time, window: Time, least: Time)
    requires Remembers(stored, admitted, now, least) && least <= window && Idle(stored, now - window)
    ensures Remembers([], admitted, now, least)
    ensures UpTo(admitted, now - least)
  {
    SortedSuffix(stored, admitted);
    assert stored[..|stored|] == stored;
    SuffixOfSuffix(stored, admitted, |stored|, now - least);
    assert admitted[..|admitted|] == admitted;
    hide Sorted;
  }

  /** In a window no longer than the shortest one, nothing is forgotten. */
  lemma StoredCounts(stored: seq<Time>, admitted: seq<Time>, now: Time, window: Time, least: Time)
    requires Remembers(stored, admitted, now, least) && least <= window
    ensures After(stored, now - window) <= After(admitted, now - window)
    ensures After(stored, now - least) == After(admitted, now - least) <= After(stored, now - window)
  {
    var k := |admitted| - |stored|;
    assert admitted == admitted[..k] + admitted[k..];
    AfterSplit(admitted[..k], admitted[k..], now - window);
    AfterSplit(admitted[..k], admitted[k..], now - least);
    NoneAfter(admitted[..k], now - least);
    FewerAfter(stored, now - window, now - least);
  }

  lemma AdmittedRemembers(stored: seq<Time>, admitted: seq<Time>, now: Time, least: Time)
    requires Remembers(stored, admitted, now, least)
    ensures Remembers(stored + [now], admitted + [now], now, least)
  {
    var k := |admitted| - |stored|;
    assert (admitted + [now])[..k] == admitted[..k];
    assert (admitted + [now])[k..] == admitted[k..] + [now];
  }

  lemma AdmittedSpread(admitted: seq<Time>, now: Time, limit: int, least: Time)
    requires Spread(admitted, limit, least) && After(admitted, now - least) < limit
    ensures Spread(admitted + [now], limit, least)
  {
    forall x: int ensures InWindow(admitted + [now], x, least) <= Max(limit, 0) {
      assert (admitted + [now])[..|admitted|] == admitted;
      assert InWindow(admitted, x, least) <= Max(limit, 0);
      if x <= now < x + least {
        WithinIsAfter(admitted, x, x + least, now - least);
      }
    }
  }

  /** Counting the recent stored times decides like counting the admissions. */
  lemma Decision(stored: seq<Time>, admitted: seq<Time>, now: Time, window: Time, least: Time)
    requires Remembers(stored, admitted, now, least) && least <= window
    ensures Remembers(Recent(stored, now - window), admitted, now, least)
    ensures After(admitted, now - least) <= |Recent(stored, now - window)| <= After(admitted, now - window)
  {
    hide Remembers;
    RecentRemembers(stored, admitted, now, window, least);
    StoredCounts(stored, admitted, now, window, least);
    RecentCounts(stored, now - window);
  }

  // ---------------------------------------------------------------- tables

  type Table = map<string, seq<Time>>

  /** The keys an eviction drops although their own window still covers one of
      their admissions. */
  function Lossy(attempts: Table, cutoff: Time, now: Time, p: Policy): set<string> {
    set key | key in attempts && Idle(attempts[key], cutoff) && After(attempts[key], now - Window(p, key)) > 0
  }

  /** The window over which all admissions of a key are remembered: its own or,
      once an eviction has lost some, the shortest in use. */
  function Assured(p: Policy, lost: set<string>, key: string): (w: Time)
    ensures Least(p) <= w <= Window(p, key)
  {
    if key in lost then Least(p) else Window(p, key)
  }

  ghost predicate KeyFine(attempts: Table, admitted: Table, lost: set<string>, key: string, clock: Time, p: Policy) {
    && Remembers(Stored(attempts, key), Stored(admitted, key), clock, Assured(p, lost, key))
    && Spread(Stored(admitted, key), Limit(p, key), Assured(p, lost, key))
  }

  ghost predicate AllFine(attempts: Table, admitted: Table, lost: set<string>, clock: Time, p: Policy) {
    forall key :: KeyFine(attempts, admitted, lost, key, clock, p)
  }

  lemma LaterFine(attempts: Table, admitted: Table, lost: set<string>, clock: Time, now: Time, p: Policy)
    requires AllFine(attempts, admitted, lost, clock, p) && clock <= now
    ensures AllFine(attempts, admitted, lost, now, p)
  {
    forall key ensures KeyFine(attempts, admitted, lost, key, now, p) {
      assert KeyFine(attempts, admitted, lost, key, clock, p);
      hide Spread, Assured;
    }
  }

  lemma WithinShorter(times: seq<Time>, from: int, until: int, longer: int)
    requires until <= longer
    ensures Within(times, from, until) <= Within(times, from, longer)
  {
  }

  lemma ShorterFine(stored: seq<Time>, admitted: seq<Time>, now: Time, limit: int, window: Time, least: Time)
    requires Remembers(stored, admitted, now, window) && Spread(admitted, limit, window) && least <= window
    ensures Remembers(stored, admitted, now, least) && Spread(admitted, limit, least)
  {
    forall x: int ensures InWindow(admitted, x, least) <= Max(limit, 0) {
      assert InWindow(admitted, x, window) <= Max(limit, 0);
      WithinShorter(admitted, x, x + least, x + window);
    }
  }

  lemma NoneAfterIsUpTo(times: seq<Time>, moment: int)
    requires Sorted(times) && After(times, moment) == 0
    ensures UpTo(times, moment)
  {
    if times != [] {
      assert times[|times| - 1] <= moment;
    }
  }

  /** Dropping a list none of whose admissions the window covers. */
  lemma DroppedRemembers(stored: seq<Time>, admitted: seq<Time>, now: Time, window: Time)
    requires Remembers(stored, admitted, now, window) && After(stored, now - window) == 0
    ensures Remembers([], admitted, now, window)
  {
    SortedSuffix(stored, admitted);
    NoneAfterIsUpTo(stored, now - window);
    assert stored[..|stored|] == stored;
    SuffixOfSuffix(stored, admitted, |stored|, now - window);
    hide Sorted, After;
  }

  lemma EvictedKeyFine(attempts: Table, admitted: Table, lost: set<string>, key: string, now: Time, window: Time,
      p: Policy)
    requires KeyFine(attempts, admitted, lost, key, now, p) && Least(p) <= window
    ensures KeyFine(Evicted(attempts, now - window), admitted, lost + Lossy(attempts, now - window, now, p), key, now,
            p)
  {
    hide Remembers, Spread, Limit, Window, After, Least;
    var after, more := Evicted(attempts, now - window), lost + Lossy(attempts, now - window, now, p);
    if key in attempts && key !in after {
      var stored, past := attempts[key], Stored(admitted, key);
      if key in more {
        ShorterFine(stored, past, now, Limit(p, key), Assured(p, lost, key), Least(p));
        NothingRemembers(stored, past, now, window, Least(p));
      } else {
        DroppedRemembers(stored, past, now, Window(p, key));
      }
    }
  }

  lemma EvictedFine(attempts: Table, admitted: Table, lost: set<string>, now: Time, window: Time, p: Policy)
    requires AllFine(attempts, admitted, lost, now, p) && Least(p) <= window
    ensures AllFine(Evicted(attempts, now - window), admitted, lost + Lossy(attempts, now - window, now, p), now, p)
  {
    var after, more := Evicted(attempts, now - window), lost + Lossy(attempts, now - window, now, p);
    forall key ensures KeyFine(after, admitted, more, key, now, p) {
      assert KeyFine(attempts, admitted, lost, key, now, p);
      hide KeyFine;
      EvictedKeyFine(attempts, admitted, lost, key, now, window, p);
    }
  }

  /** Only keys whose own window is longer than the shortest, by two units or
      more, can be lost. */
  predicate LostAreLong(lost: set<string>, p: Policy) {
    forall key :: key in lost ==> Window(p, key) >= Least(p) + 2
  }

  lemma LossyAreLong(attempts: Table, now: Time, window: Time, p: Policy)
    requires Least(p) <= window && forall key :: key in attempts ==> Sorted(attempts[key])
    ensures LostAreLong(Lossy(attempts, now - window, now, p), p)
  {
    forall key | key in Lossy(attempts, now - window, now, p) ensures Window(p, key) >= Least(p) + 2 {
      if attempts[key] != [] && Window(p, key) <= window + 1 {
        NoneAfter(attempts[key], now - Window(p, key));
      }
    }
  }

  lemma StoredAreSorted(attempts: Table, admitted: Table, lost: set<string>, clock: Time, p: Policy)
    requires AllFine(attempts, admitted, lost, clock, p)
    ensures forall key :: key in attempts ==> Sorted(attempts[key])
  {
    forall key | key in attempts ensures Sorted(attempts[key]) {
      assert KeyFine(attempts, admitted, lost, key, clock, p);
      SortedSuffix(attempts[key], Stored(admitted, key));
    }
  }

  lemma OneFine(attempts: Table, admitted: Table, lost: set<string>, key: string, clock: Time, p: Policy)
    requires AllFine(attempts, admitted, lost, clock, p)
    ensures Remembers(Stored(attempts, key), Stored(admitted, key), clock, Assured(p, lost, key))
    ensures Spread(Stored(admitted, key), Limit(p, key), Assured(p, lost, key))
  {
    hide Remembers, Spread;
    assert KeyFine(attempts, admitted, lost, key, clock, p);
  }

  /** A change to one key leaves the others fine. */
  lemma OthersFine(attempts: Table, admitted: Table, lost: set<string>, key: string, times: seq<Time>, past: seq<Time>,
      clock: Time, p: Policy)
    requires AllFine(attempts, admitted, lost, clock, p)
    requires Remembers(times, past, clock, Assured(p, lost, key)) && Spread(past, Limit(p, key), Assured(p, lost, key))
    ensures AllFine(attempts[key := times], admitted[key := past], lost, clock, p)
  {
    hide Remembers, Spread, Assured, Limit;
    var after, afterAdmitted := attempts[key := times], admitted[key := past];
    forall other ensures KeyFine(after, afterAdmitted, lost, other, clock, p) {
      assert KeyFine(attempts, admitted, lost, other, clock, p);
    }
  }

  lemma OthersFineRefused(attempts: Table, admitted: Table, lost: set<string>, key: string, times: seq<Time>,
      clock: Time, p: Policy)
    requires AllFine(attempts, admitted, lost, clock, p)
             && Remembers(times, Stored(admitted, key), clock, Assured(p, lost, key))
    ensures AllFine(attempts[key := times], admitted, lost, clock, p)
  {
    hide Remembers, Spread, Assured, Limit;
    var after := attempts[key := times];
    forall other ensures KeyFine(after, admitted, lost, other, clock, p) {
      assert KeyFine(attempts, admitted, lost, other, clock, p);
    }
  }

  lemma ClearedFine(attempts: Table, admitted: Table, lost: set<string>, key: string, clock: Time, p: Policy)
    requires AllFine(attempts, admitted, lost, clock, p)
    ensures AllFine(attempts - {key}, admitted - {key}, lost - {key}, clock, p)
  {
    hide Remembers, Spread, Limit;
    forall other ensures KeyFine(attempts - {key}, admitted - {key}, lost - {key}, other, clock, p) {
      assert KeyFine(attempts, admitted, lost, other, clock, p);
      NothingFine(clock, Assured(p, lost - {key}, other), Limit(p, other));
    }
  }

  lemma NothingFine(clock: Time, window: Time, limit: int)
    ensures Remembers([], [], clock, window) && Spread([], limit, window)
  {
  }

  lemma SizeWith(attempts: Table, key: string, times: seq<Time>)
    requires |attempts| <= CAPACITY && (key in attempts || |attempts| < CAPACITY)
    ensures |attempts[key := times]| <= CAPACITY
  {
    assert attempts[key := times].Keys == attempts.Keys + {key};
  }

  lemma SizeWithout(attempts: Table, cutoff: Time, key: string)
    ensures |Evicted(attempts, cutoff)| <= |attempts| && |attempts - {key}| <= |attempts|
  {
    SubsetSize(Evicted(attempts, cutoff).Keys, attempts.Keys);
    SubsetSize((attempts - {key}).Keys, attempts.Keys);
  }

  // -------------------------------------------------------------- decisions

  predicate HasPlace(attempts: Table, key: string) {
    key in attempts || |attempts| < CAPACITY
  }

  /** The table a decision starts from: idle keys go when it has no place. */
  function Tidy(attempts: Table, key: string, cutoff: Time): Table {
    if HasPlace(attempts, key) then attempts else Evicted(attempts, cutoff)
  }

  /** Room for a key: the table has a place, if need be after an eviction. */
  predicate Room(attempts: Table, key: string, cutoff: Time) {
    HasPlace(Tidy(attempts, key, cutoff), key)
  }

  datatype Outcome = Outcome(allowed: bool, attempts: Table)

  /** The table after a decision on a key: its list is compacted, and has this
      admission at its end. */
  function Settled(attempts: Table, key: string, now: Time, window: Time, allowed: bool): Table {
    attempts[key := Recent(Stored(attempts, key), now - window) + if allowed then [now] else []]
  }

  function Decided(attempts: Table, key: string, now: Time, p: Policy): Outcome {
    var allowed := |Recent(Stored(attempts, key), now - Window(p, key))| < Limit(p, key);
    Outcome(allowed, Settled(attempts, key, now, Window(p, key), allowed))
  }

  /** What an attempt gets. */
  function Attempted(attempts: Table, key: string, now: Time, p: Policy): Outcome {
    var cutoff := now - Window(p, key);
    if !Room(attempts, key, cutoff) then Outcome(false, Tidy(attempts, key, cutoff))
      else Decided(Tidy(attempts, key, cutoff), key, now, p)
  }

  /** The keys the attempt loses admissions of. */
  function LostBy(attempts: Table, key: string, now: Time, p: Policy): set<string> {
    if HasPlace(attempts, key) then {} else Lossy(attempts, now - Window(p, key), now, p)
  }

  class Limiter {
    var attempts: Table
    /** The rules, the last time seen, the admissions of each key since it was
        last cleared, and the keys that have lost some to an eviction since. */
    ghost const policy: Policy
    ghost var clock: Time
    ghost var admitted: Table
    ghost var lost: set<string>

    ghost predicate Valid()
      reads this
    {
      |attempts| <= CAPACITY && AllFine(attempts, admitted, lost, clock, policy) && LostAreLong(lost, policy)
    }

    constructor (ghost p: Policy)
      ensures Valid() && attempts == map[] && admitted == map[] && lost == {} && policy == p && clock == 0
    {
      attempts, policy, clock, admitted, lost := map[], p, 0, map[], {};
      new;
      forall key ensures KeyFine(attempts, admitted, lost, key, clock, policy) {
        NothingFine(clock, Assured(policy, lost, key), Limit(policy, key));
      }
    }

    /** Drops the idle keys. */
    method Evict(cutoff: Time)
      modifies `attempts
      ensures attempts == Evicted(old(attempts), cutoff)
    {
      ghost var before := attempts;
      var left := attempts.Keys;
      while left != {}
        invariant left <= before.Keys
        invariant forall key :: key in attempts <==> key in before && (key in left || !Idle(before[key], cutoff))
        invariant forall key :: key in attempts ==> attempts[key] == before[key]
        decreases left
      {
        var key :| key in left;
        var times := attempts[key];
        if |times| == 0 || times[|times| - 1] < cutoff {
          attempts := attempts - {key};
        }
        left := left - {key};
      }
      assert attempts == Evicted(before, cutoff);
    }

    /** Makes room for a new key in a full table, if idle keys can go. */
    method MakeRoom(key: string, cutoff: Time) returns (room: bool)
      modifies `attempts
      ensures attempts == Tidy(old(attempts), key, cutoff) && (room <==> Room(old(attempts), key, cutoff))
    {
      if key !in attempts && |attempts| >= CAPACITY {
        Evict(cutoff);
        if |attempts| >= CAPACITY {
          return false;
        }
      }
      return true;
    }

    /** Admits an attempt if the key has room and fewer than its limit of
        admissions are remembered in its window. As long as no eviction has lost
        one of them, that is exactly: fewer than `limit` admissions happened in
        it. Afterwards nothing is refused that the true count would admit. */
    method Allow(key: string, limit: int, window: Time, now: Time) returns (allowed: bool)
      requires Valid() && clock <= now && limit == Limit(policy, key) && window == Window(policy, key)
      modifies `attempts, `clock, `admitted, `lost
      ensures Valid() && clock == now
      ensures Outcome(allowed, attempts) == Attempted(old(attempts), key, now, policy)
      ensures admitted == if allowed then old(admitted)[key := Stored(old(admitted), key) + [now]] else old(admitted)
      ensures lost == old(lost) + LostBy(old(attempts), key, now, policy)
      ensures key !in old(lost) ==>
                (allowed <==>
                  Room(old(attempts), key, now - window) && After(Stored(old(admitted), key), now - window) < limit)
      ensures Room(old(attempts), key, now - window) && After(Stored(old(admitted), key), now - window) < limit ==>
              allowed
    {
      hide AllFine, After, Limit, Window, Stored, LostAreLong, Attempted, Decided, Room, Tidy, LostBy, HasPlace;
      RoomOrNot(attempts, key, now, policy);
      MadeRoom(attempts, admitted, lost, clock, key, now, policy);
      clock := now;
      lost := lost + LostBy(attempts, key, now, policy);
      var room := MakeRoom(key, now - window);
      allowed := false;
      if room {
        allowed := Decide(key, limit, window, now);
      }
    }

    /** The decision once there is room. */
    method Decide(key: string, limit: int, window: Time, now: Time) returns (allowed: bool)
      requires Valid() && clock == now && limit == Limit(policy, key) && window == Window(policy, key)
               && HasPlace(attempts, key)
      modifies `attempts, `admitted
      ensures Valid() && Outcome(allowed, attempts) == Decided(old(attempts), key, now, policy)
      ensures admitted == if allowed then old(admitted)[key := Stored(old(admitted), key) + [now]] else old(admitted)
      ensures key !in lost ==> (allowed <==> After(Stored(old(admitted), key), now - window) < limit)
      ensures After(Stored(old(admitted), key), now - window) < limit ==> allowed
    {
      hide AllFine, Remembers, Spread, After, Limit, Window, Stored, Recent, LostAreLong, Least;
      var kept := Stored(attempts, key);
      ghost var past := Stored(admitted, key);
      OneFine(attempts, admitted, lost, key, clock, policy);
      var times;
      allowed, times := Judge(kept, past, limit, window, now, Assured(policy, lost, key));
      SizeWith(attempts, key, times);
      if allowed {
        OthersFine(attempts, admitted, lost, key, times, past + [now], clock, policy);
        admitted := admitted[key := past + [now]];
      } else {
        OthersFineRefused(attempts, admitted, lost, key, times, clock, policy);
      }
      attempts := attempts[key := times];
    }

    /** Counts the recent times of a key and adds this one if there is room. */
    static method Judge(kept: seq<Time>, ghost past: seq<Time>, limit: int, window: Time, now: Time,
        ghost assured: Time)
        returns (allowed: bool, times: seq<Time>)
      requires Remembers(kept, past, now, assured) && Spread(past, limit, assured) && assured <= window
      ensures window == assured ==> (allowed <==> After(past, now - window) < limit)
      ensures After(past, now - window) < limit ==> allowed
      ensures allowed ==> Remembers(times, past + [now], now, assured) && Spread(past + [now], limit, assured)
      ensures !allowed ==> Remembers(times, past, now, assured)
      ensures (allowed <==> |Recent(kept, now - window)| < limit)
              && times == Recent(kept, now - window) + if allowed then [now] else []
    {
      hide Remembers, Spread, After, Recent;
      Decision(kept, past, now, window, assured);
      times := Compacted(kept, now - window);
      allowed := |times| < limit;
      if allowed {
        AdmittedRemembers(times, past, now, assured);
        AdmittedSpread(past, now, limit, assured);
        times := times + [now];
      }
    }

    /** The recent times of a list, compacted in the list's own storage. */
    static method Compacted(kept: seq<Time>, cutoff: Time) returns (recent: seq<Time>)
      ensures recent == Recent(kept, cutoff)
    {
      var previous := new Time[|kept|](i requires 0 <= i < |kept| => kept[i]);
      assert previous[..] == kept;
      var n := CompactInPlace(previous, cutoff);
      recent := previous[..n];
    }

    method Clear(key: string)
      requires Valid()
      modifies `attempts, `admitted, `lost
      ensures Valid() && attempts == old(attempts) - {key} && admitted == old(admitted) - {key}
              && lost == old(lost) - {key}
    {
      ClearedFine(attempts, admitted, lost, key, clock, policy);
      SizeWithout(attempts, clock, key);
      hide AllFine;
      attempts, admitted, lost := attempts - {key}, admitted - {key}, lost - {key};
    }
  }

  lemma RoomOrNot(attempts: Table, key: string, now: Time, p: Policy)
    ensures var cutoff := now - Window(p, key);
            var tidy := Tidy(attempts, key, cutoff);
            && (Room(attempts, key, cutoff) ==>
               HasPlace(tidy, key) && Attempted(attempts, key, now, p) == Decided(tidy, key, now, p))
            && (!Room(attempts, key, cutoff) ==> Attempted(attempts, key, now, p) == Outcome(false, tidy))
  {
    hide Tidy, Decided, HasPlace;
  }

  lemma MadeRoom(attempts: Table, admitted: Table, lost: set<string>, clock: Time, key: string, now: Time, p: Policy)
    requires |attempts| <= CAPACITY && AllFine(attempts, admitted, lost, clock, p) && LostAreLong(lost, p)
             && clock <= now
    ensures var tidy, more := Tidy(attempts, key, now - Window(p, key)), lost + LostBy(attempts, key, now, p);
            && |tidy| <= CAPACITY && AllFine(tidy, admitted, more, now, p) && LostAreLong(more, p)
            && (key in more <==> key in lost) && Stored(tidy, key) == Stored(attempts, key)
  {
    LaterFine(attempts, admitted, lost, clock, now, p);
    if HasPlace(attempts, key) {
      assert lost + {} == lost;
    } else {
      EvictedFine(attempts, admitted, lost, now, Window(p, key), p);
      SizeWithout(attempts, now - Window(p, key), key);
      StoredAreSorted(attempts, admitted, lost, now, p);
      LossyAreLong(attempts, now, Window(p, key), p);
    }
    hide AllFine, Window, After, Idle, Least;
  }

  // --------------------------------------------------------------- whole runs

  /** Between two clearings of a key that no eviction has taken admissions from,
      no interval as long as the key's own window holds more than its limit, in
      any run; and in no case does one as long as the shortest window. */
  lemma AdmissionsAreLimited(l: Limiter, key: string, x: int)
    requires l.Valid()
    ensures key !in l.lost ==>
              Within(Stored(l.admitted, key), x, x + Window(l.policy, key)) <= Max(Limit(l.policy, key), 0)
    ensures Within(Stored(l.admitted, key), x, x + Least(l.policy)) <= Max(Limit(l.policy, key), 0)
  {
    assert KeyFine(l.attempts, l.admitted, l.lost, key, l.clock, l.policy);
    var assured := Assured(l.policy, l.lost, key);
    assert InWindow(Stored(l.admitted, key), x, assured) <= Max(Limit(l.policy, key), 0);
    WithinShorter(Stored(l.admitted, key), x, x + Least(l.policy), x + assured);
  }

  /** Keys with a window not two units longer than the shortest never lose an
      admission to an eviction; under the server's rules, those are the login keys. */
  lemma LoginKeysLoseNothing(l: Limiter, key: string)
    requires l.Valid()
    ensures Window(l.policy, key) <= Least(l.policy) + 1 ==> key !in l.lost
    ensures l.policy == SERVER_POLICY && key in l.lost ==> "setup:" <= key
  {
  }

  /** The stored lists are sorted, lie in the past, and hold every admission of
      the window that is assured. */
  lemma StoredListsAreComplete(l: Limiter, key: string)
    requires l.Valid()
    ensures Sorted(Stored(l.attempts, key)) && UpTo(Stored(l.attempts, key), l.clock)
    ensures var assured := Assured(l.policy, l.lost, key);
            After(Stored(l.attempts, key), l.clock - assured) == After(Stored(l.admitted, key), l.clock - assured)
  {
    var stored, past := Stored(l.attempts, key), Stored(l.admitted, key);
    var assured := Assured(l.policy, l.lost, key);
    assert KeyFine(l.attempts, l.admitted, l.lost, key, l.clock, l.policy);
    StoredCounts(stored, past, l.clock, assured, assured);
    SortedSuffix(stored, past);
    hide AllFine, Spread;
  }

  // ------------------------------------------------------------ lost setups

  /** A full table in which a setup key has used up its hour but has been idle
      for the login window, as has one other key. */
  predicate AboutToLose(attempts: Table, setup: string, other: string, login: string, now: Time, p: Policy) {
    && |attempts| == CAPACITY && setup in attempts && other in attempts && setup != other && login !in attempts
    && Window(p, login) <= Window(p, setup) && Limit(p, setup) > 0
    && |Recent(attempts[setup], now - Window(p, setup))| >= Limit(p, setup)
    && Idle(attempts[setup], now - Window(p, login)) && Idle(attempts[other], now - Window(p, login))
  }

  lemma EvictedKeys(attempts: Table, cutoff: Time)
    ensures Evicted(attempts, cutoff).Keys <= attempts.Keys
  {
  }

  lemma TwoGo(attempts: Table, setup: string, other: string, cutoff: Time)
    requires setup in attempts && other in attempts && setup != other && Idle(attempts[setup], cutoff)
             && Idle(attempts[other], cutoff)
    ensures setup !in Evicted(attempts, cutoff) && |Evicted(attempts, cutoff)| <= |attempts| - 2
  {
    hide Idle;
    SubsetSize(Evicted(attempts, cutoff).Keys, attempts.Keys - {setup, other});
    assert |attempts.Keys - {setup, other}| == |attempts| - 2;
  }

  /** A key the table has no list of, but a place for, is admitted. */
  lemma FreshIsAttempted(attempts: Table, key: string, now: Time, p: Policy)
    requires key !in attempts && |attempts| < CAPACITY
    ensures Attempted(attempts, key, now, p) == Decided(attempts, key, now, p)
    ensures Attempted(attempts, key, now, p).allowed <==> Limit(p, key) > 0
    ensures Attempted(attempts, key, now, p).attempts.Keys == attempts.Keys + {key}
  {
    hide Limit, Window;
    FreshIsAllowed(attempts, key, now, p);
  }

  lemma UsedUpIsRefused(attempts: Table, key: string, now: Time, p: Policy)
    requires key in attempts && |Recent(attempts[key], now - Window(p, key))| >= Limit(p, key)
    ensures !Attempted(attempts, key, now, p).allowed
    ensures After(attempts[key], now - Window(p, key)) >= Limit(p, key)
  {
    RecentCounts(attempts[key], now - Window(p, key));
    hide Limit, Window, Recent, After;
  }

  /** In a full table that has room after an eviction, a new key starts from the
      evicted one. */
  lemma EvictsFirst(attempts: Table, key: string, now: Time, p: Policy)
    requires key !in attempts && |attempts| >= CAPACITY && |Evicted(attempts, now - Window(p, key))| < CAPACITY
    ensures Attempted(attempts, key, now, p) == Attempted(Evicted(attempts, now - Window(p, key)), key, now, p)
  {
    hide Limit, Window, Evicted, Decided;
  }

  lemma CoveredIsLost(attempts: Table, key: string, login: string, now: Time, p: Policy)
    requires key in attempts && Idle(attempts[key], now - Window(p, login))
    requires login !in attempts && |attempts| >= CAPACITY
    requires After(attempts[key], now - Window(p, key)) > 0
    ensures key in LostBy(attempts, login, now, p)
  {
    hide Idle, After, Window;
  }

  /** Then a login attempt evicts the setup key, and a setup attempt that would
      have been refused is admitted, one above the limit of its hour. */
  lemma EvictionOverAdmits(attempts: Table, setup: string, other: string, login: string, now: Time, p: Policy)
    requires AboutToLose(attempts, setup, other, login, now, p)
    ensures !Attempted(attempts, setup, now, p).allowed
    ensures var first := Attempted(attempts, login, now, p);
            && (first.allowed <==> Limit(p, login) > 0) && Attempted(first.attempts, setup, now, p).allowed
            && After(attempts[setup], now - Window(p, setup)) >= Limit(p, setup)
    ensures setup in LostBy(attempts, login, now, p)
  {
    var cutoff := now - Window(p, login);
    var tidy := Evicted(attempts, cutoff);
    hide Limit, Window, Idle, Evicted, After, Attempted, Decided, LostBy, Recent;
    UsedUpIsRefused(attempts, setup, now, p);
    CoveredIsLost(attempts, setup, login, now, p);
    TwoGo(attempts, setup, other, cutoff);
    EvictedKeys(attempts, cutoff);
    EvictsFirst(attempts, login, now, p);
    FreshIsAttempted(tidy, login, now, p);
    var next := Attempted(tidy, login, now, p).attempts;
    assert |next.Keys| <= |tidy.Keys| + 1;
    FreshIsAttempted(next, setup, now, p);
  }

  lemma FreshIsAllowed(attempts: Table, key: string, now: Time, p: Policy)
    requires key !in attempts
    ensures Decided(attempts, key, now, p).allowed <==> Limit(p, key) > 0
  {
    assert Recent([], now - Window(p, key)) == [];
  }
}
