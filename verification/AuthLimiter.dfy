/** The bounded-memory limiter in front of credential checks: one bucket per
    remote address and per account, with an attempt budget per address. */
module AuthLimiter {
  import opened Common
  import opened Times

  datatype Key = Ip(name: string) | Account(name: string)

  datatype Bucket = Bucket(
    failures: nat, failureStart: Time, failureBlockedUntil: Time,
    attempts: nat, attemptStart: Time, attemptBlockedUntil: Time,
    touchedAt: Time)

  datatype Options = Options(
    maxFailures: int, window: int, block: int, maxEntries: int, sweepEvery: int,
    maxIPAttempts: int, ipAttemptWindow: int, ipAttemptBlock: int)

  function Or(value: int, least: int, fallback: int): int {
    if value < least then fallback else value
  }

  /** Missing options fall back to the standard ones. */
  function Normalized(o: Options): Options {
    Options(Or(o.maxFailures, 1, 5), Or(o.window, 1, 10 * MINUTE), Or(o.block, 1, 15 * MINUTE),
            Or(o.maxEntries, 2, 16 * 1024), Or(o.sweepEvery, 1, MINUTE),
            Or(o.maxIPAttempts, 1, 60), Or(o.ipAttemptWindow, 1, MINUTE), Or(o.ipAttemptBlock, 1, MINUTE))
  }

  predicate Proper(o: Options) {
    && o.maxFailures >= 1 && o.window >= 1 && o.block >= 1 && o.maxEntries >= 2 && o.sweepEvery >= 1
    && o.maxIPAttempts >= 1 && o.ipAttemptWindow >= 1 && o.ipAttemptBlock >= 1
  }

  /** How long an idle bucket is kept: the longest of the four periods. */
  function Retention(o: Options): (r: int)
    ensures o.window <= r && o.block <= r && o.ipAttemptWindow <= r && o.ipAttemptBlock <= r
  {
    Max(Max(o.window, o.block), Max(o.ipAttemptWindow, o.ipAttemptBlock))
  }

  // ---------------------------------------------------------------- buckets

  predicate Blocked(b: Bucket, now: Time) {
    now < b.failureBlockedUntil || now < b.attemptBlockedUntil
  }

  predicate Sweepable(o: Options, b: Bucket, now: Time) {
    !Blocked(b, now) && now - b.touchedAt >= Retention(o)
  }

  /** Nothing the bucket still counts: it blocks nobody, and a counter that is
      not zero counts in a window that has run out. */
  predicate Expired(o: Options, b: Bucket, now: Time) {
    && !Blocked(b, now)
    && (b.failures > 0 ==> now - b.failureStart >= o.window)
    && (b.attempts > 0 ==> now - b.attemptStart >= o.ipAttemptWindow)
  }

  function Fresh(now: Time): Bucket {
    Bucket(0, now, 0, 0, now, 0, now)
  }

  function Opened(buckets: map<Key, Bucket>, key: Key, now: Time): Bucket {
    if key in buckets then buckets[key] else Fresh(now)
  }

  /** Windows that have run out start again, empty. */
  function Rolled(o: Options, b: Bucket, now: Time): Bucket {
    var c := if now - b.failureStart >= o.window then b.(failures := 0, failureStart := now) else b;
    if now - c.attemptStart >= o.ipAttemptWindow then c.(attempts := 0, attemptStart := now) else c
  }

  function Charged(o: Options, b: Bucket, now: Time): Bucket {
    var c := b.(attempts := b.attempts + 1, touchedAt := now);
    if c.attempts >= o.maxIPAttempts then c.(attemptBlockedUntil := now + o.ipAttemptBlock) else c
  }

  function Failed(o: Options, b: Bucket, now: Time): Bucket {
    var c := if now - b.failureStart >= o.window then b.(failures := 0, failureStart := now) else b;
    var d := c.(failures := c.failures + 1, touchedAt := now);
    if d.failures >= o.maxFailures then d.(failureBlockedUntil := now + o.block) else d
  }

  /** Starts and touches lie in the past, a block ends within its period, and what is counted was counted no
      later than the bucket was last touched. */
  predicate Clocked(o: Options, b: Bucket, clock: Time) {
    && b.failureBlockedUntil <= clock + o.block
    && b.failureStart <= clock && b.attemptStart <= clock && b.touchedAt <= clock
    && (b.failures > 0 ==> b.failureStart <= b.touchedAt)
    && (b.attempts > 0 ==> b.attemptStart <= b.touchedAt)
  }

  /** Sweeping forgets nothing that counts. */
  lemma SweepableIsExpired(o: Options, b: Bucket, clock: Time, now: Time)
    requires Clocked(o, b, clock) && Sweepable(o, b, now)
    ensures Expired(o, b, now)
  {
  }

  // ------------------------------------------------------- attempt budget

  /** How many of the times lie in the interval of window length from x on. */
  function InWindow(o: Options, times: seq<Time>, x: int): nat {
    Within(times, x, x + o.ipAttemptWindow)
  }

  /** No interval as long as the window holds more than 2 * max - 1 of the times. */
  ghost predicate Spread(o: Options, times: seq<Time>) {
    forall x: int :: InWindow(o, times, x) <= 2 * o.maxIPAttempts - 1
  }

  /** What the bucket of an address knows of its admitted attempts: the last
      ones are those of the running window, fewer than the maximum of the others
      are less than a window older than its start, and a full window blocks. */
  predicate Remembers(o: Options, b: Bucket, times: seq<Time>, clock: Time) {
    && b.attempts <= |times| && b.attempts <= o.maxIPAttempts
    && UpTo(times, b.touchedAt) && b.touchedAt <= clock && b.attemptStart <= clock
    && (forall i :: |times| - b.attempts <= i < |times| ==>
       b.attemptStart <= times[i] < b.attemptStart + o.ipAttemptWindow)
    && UpTo(times[..|times| - b.attempts], b.attemptStart)
    && After(times[..|times| - b.attempts], b.attemptStart - o.ipAttemptWindow) <= o.maxIPAttempts - 1
    && (b.attempts >= o.maxIPAttempts ==> UpTo(times, b.attemptBlockedUntil - o.ipAttemptBlock))
  }

  /** The bucket of an address and its attempts; without a bucket they are all
      at least a window old. */
  ghost predicate Known(o: Options, buckets: map<Key, Bucket>, times: seq<Time>, ip: string, clock: Time) {
    && (if Ip(ip) in buckets then Remembers(o, buckets[Ip(ip)], times, clock)
       else UpTo(times, clock - o.ipAttemptWindow))
    && Spread(o, times)
  }

  lemma FreshRemembers(o: Options, times: seq<Time>, now: Time)
    requires Proper(o) && UpTo(times, now - o.ipAttemptWindow)
    ensures Remembers(o, Fresh(now), times, now)
  {
    assert times[..|times|] == times;
    NoneAfter(times, now - o.ipAttemptWindow);
  }

  /** When the window has run out and nothing blocks, fewer than the maximum of
      attempts lie within a window of now. */
  lemma AfterReset(o: Options, b: Bucket, times: seq<Time>, clock: Time, now: Time)
    requires Proper(o) && o.ipAttemptBlock >= o.ipAttemptWindow && Remembers(o, b, times, clock)
    requires now >= b.attemptBlockedUntil && now - b.attemptStart >= o.ipAttemptWindow
    ensures After(times, now - o.ipAttemptWindow) <= o.maxIPAttempts - 1
  {
    var k := |times| - b.attempts;
    var since := now - o.ipAttemptWindow;
    if b.attempts >= o.maxIPAttempts {
      NoneAfter(times, since);
    } else {
      assert times == times[..k] + times[k..];
      AfterSplit(times[..k], times[k..], since);
      NoneAfter(times[..k], since);
      AfterAtMostAll(times[k..], since);
    }
  }

  lemma FullWindowBlocks(o: Options, b: Bucket, times: seq<Time>, clock: Time, now: Time)
    requires Proper(o) && o.ipAttemptBlock >= o.ipAttemptWindow && Remembers(o, b, times, clock)
    requires now >= b.attemptBlockedUntil && now - b.attemptStart < o.ipAttemptWindow
    ensures b.attempts < o.maxIPAttempts
  {
    hide After;
    assert b.attempts > 0 ==> b.attemptStart <= times[|times| - 1];
  }

  lemma RolledRemembers(o: Options, b: Bucket, times: seq<Time>, clock: Time, now: Time)
    requires Proper(o) && o.ipAttemptBlock >= o.ipAttemptWindow && clock <= now
    requires Remembers(o, b, times, clock) && !Blocked(b, now)
    ensures Remembers(o, Rolled(o, b, now), times, now)
    ensures Rolled(o, b, now).attempts < o.maxIPAttempts && now < Rolled(o, b, now).attemptStart + o.ipAttemptWindow
  {
    hide After;
    if now - b.attemptStart >= o.ipAttemptWindow {
      AfterReset(o, b, times, clock, now);
      assert times[..|times|] == times;
    } else {
      FullWindowBlocks(o, b, times, clock, now);
    }
  }

  lemma ChargedRemembers(o: Options, b: Bucket, times: seq<Time>, now: Time)
    requires Proper(o) && Remembers(o, b, times, now) && b.attempts < o.maxIPAttempts
             && now < b.attemptStart + o.ipAttemptWindow
    ensures Remembers(o, Charged(o, b, now), times + [now], now)
  {
    var k := |times| - b.attempts;
    assert (times + [now])[..k] == times[..k];
    hide After;
  }

  lemma RoomInWindow(o: Options, b: Bucket, times: seq<Time>, now: Time)
    requires Proper(o) && Remembers(o, b, times, now) && b.attempts < o.maxIPAttempts
    ensures After(times, now - o.ipAttemptWindow) <= 2 * o.maxIPAttempts - 2
  {
    var k := |times| - b.attempts;
    var since := now - o.ipAttemptWindow;
    assert times == times[..k] + times[k..];
    AfterSplit(times[..k], times[k..], since);
    AfterAtMostAll(times[k..], since);
    FewerAfter(times[..k], b.attemptStart - o.ipAttemptWindow, since);
  }

  /** One more attempt in a window with room keeps the attempts spread out. */
  lemma ChargedSpread(o: Options, b: Bucket, times: seq<Time>, now: Time)
    requires Proper(o) && Remembers(o, b, times, now) && b.attempts < o.maxIPAttempts && Spread(o, times)
    ensures Spread(o, times + [now])
  {
    RoomInWindow(o, b, times, now);
    hide Remembers, After;
    forall x: int ensures InWindow(o, times + [now], x) <= 2 * o.maxIPAttempts - 1 {
      assert (times + [now])[..|times|] == times;
      assert InWindow(o, times, x) <= 2 * o.maxIPAttempts - 1;
      if x <= now < x + o.ipAttemptWindow {
        WithinIsAfter(times, x, x + o.ipAttemptWindow, now - o.ipAttemptWindow);
      }
    }
  }

  lemma FailedRemembers(o: Options, b: Bucket, times: seq<Time>, clock: Time, now: Time)
    requires Remembers(o, b, times, clock) && clock <= now
    ensures Remembers(o, Failed(o, b, now), times, now)
  {
    hide After;
  }

  // ---------------------------------------------------------------- limiter

  predicate AllClocked(o: Options, buckets: map<Key, Bucket>, clock: Time) {
    0 <= clock && forall key :: key in buckets ==> Clocked(o, buckets[key], clock)
  }

  function Past(admitted: map<string, seq<Time>>, ip: string): seq<Time> {
    if ip in admitted then admitted[ip] else []
  }

  ghost predicate AllKnown(o: Options, buckets: map<Key, Bucket>, admitted: map<string, seq<Time>>, clock: Time) {
    forall ip :: Known(o, buckets, Past(admitted, ip), ip, clock)
  }

  /** The table after a sweep. */
  function Swept(o: Options, buckets: map<Key, Bucket>, now: Time): map<Key, Bucket> {
    map key | key in buckets && !Sweepable(o, buckets[key], now) :: buckets[key]
  }

  function Missing(buckets: map<Key, Bucket>, first: Key, second: Key): nat {
    (if first in buckets then 0 else 1) + if second in buckets then 0 else 1
  }

  datatype Verdict = Verdict(allowed: bool, buckets: map<Key, Bucket>)

  /** Opens both buckets, rolls their windows and charges the address, unless one
      of them blocks. */
  function Reserve(o: Options, buckets: map<Key, Bucket>, ip: string, account: string, now: Time): Verdict {
    var i := Opened(buckets, Ip(ip), now);
    if Blocked(i, now) then Verdict(false, buckets[Ip(ip) := i])
    else
      var first := buckets[Ip(ip) := Rolled(o, i, now)];
      var a := Opened(first, Account(account), now);
      if Blocked(a, now) then Verdict(false, first[Account(account) := a])
      else Verdict(true, first[Account(account) := Rolled(o, a, now).(touchedAt := now)]
                              [Ip(ip) := Charged(o, Rolled(o, i, now), now)])
  }

  lemma SweepShrinks(o: Options, buckets: map<Key, Bucket>, now: Time)
    ensures |Swept(o, buckets, now)| <= |buckets|
  {
    SubsetSize(Swept(o, buckets, now).Keys, buckets.Keys);
  }

  lemma SweepKnows(o: Options, buckets: map<Key, Bucket>, admitted: map<string, seq<Time>>, clock: Time, now: Time)
    requires clock <= now && AllKnown(o, buckets, admitted, clock) && AllClocked(o, buckets, clock)
    ensures AllKnown(o, Swept(o, buckets, now), admitted, now) && AllClocked(o, Swept(o, buckets, now), now)
  {
    hide Spread, After;
    forall ip ensures Known(o, Swept(o, buckets, now), Past(admitted, ip), ip, now) {
      assert Known(o, buckets, Past(admitted, ip), ip, clock);
    }
  }

  lemma LaterKnows(o: Options, buckets: map<Key, Bucket>, admitted: map<string, seq<Time>>, clock: Time, now: Time)
    requires clock <= now && AllKnown(o, buckets, admitted, clock) && AllClocked(o, buckets, clock)
    ensures AllKnown(o, buckets, admitted, now) && AllClocked(o, buckets, now)
  {
    hide Spread, After;
    forall ip ensures Known(o, buckets, Past(admitted, ip), ip, now) {
      assert Known(o, buckets, Past(admitted, ip), ip, clock);
    }
  }

  lemma OpenedRemembers(o: Options, buckets: map<Key, Bucket>, times: seq<Time>, ip: string, now: Time)
    requires Proper(o) && Known(o, buckets, times, ip, now)
    ensures Remembers(o, Opened(buckets, Ip(ip), now), times, now)
  {
    hide Spread, After;
    if Ip(ip) !in buckets {
      FreshRemembers(o, times, now);
    }
  }

  /** Two tables that agree on the bucket of an address know the same of it. */
  lemma SameKnown(o: Options, before: map<Key, Bucket>, after: map<Key, Bucket>, times: seq<Time>, ip: string,
      clock: Time)
    requires Known(o, before, times, ip, clock)
    requires Ip(ip) in before <==> Ip(ip) in after
    requires Ip(ip) in before ==> before[Ip(ip)] == after[Ip(ip)]
    ensures Known(o, after, times, ip, clock)
  {
  }

  /** The attempts of the address, one more if this one is admitted. */
  function Noted(admitted: map<string, seq<Time>>, ip: string, allowed: bool, now: Time): map<string, seq<Time>> {
    if allowed then admitted[ip := Past(admitted, ip) + [now]] else admitted
  }

  lemma ReserveKnowsThis(o: Options, buckets: map<Key, Bucket>, times: seq<Time>, ip: string, account: string,
      now: Time)
    requires Proper(o) && o.ipAttemptBlock >= o.ipAttemptWindow && Known(o, buckets, times, ip, now)
    ensures var v := Reserve(o, buckets, ip, account, now);
            Known(o, v.buckets, if v.allowed then times + [now] else times, ip, now)
  {
    var i := Opened(buckets, Ip(ip), now);
    OpenedRemembers(o, buckets, times, ip, now);
    if !Blocked(i, now) {
      RolledRemembers(o, i, times, now, now);
      ChargedRemembers(o, Rolled(o, i, now), times, now);
      ChargedSpread(o, Rolled(o, i, now), times, now);
    }
    hide Remembers, Spread, Rolled, Charged;
  }

  lemma ReserveKnows(o: Options, buckets: map<Key, Bucket>, admitted: map<string, seq<Time>>, ip: string,
      account: string, now: Time)
    requires Proper(o) && o.ipAttemptBlock >= o.ipAttemptWindow && AllKnown(o, buckets, admitted, now)
    ensures var v := Reserve(o, buckets, ip, account, now);
            AllKnown(o, v.buckets, Noted(admitted, ip, v.allowed, now), now)
  {
    var v := Reserve(o, buckets, ip, account, now);
    forall other ensures Known(o, v.buckets, Past(Noted(admitted, ip, v.allowed, now), other), other, now) {
      assert Known(o, buckets, Past(admitted, other), other, now);
      if other == ip {
        ReserveKnowsThis(o, buckets, Past(admitted, ip), ip, account, now);
        hide Known, Reserve;
      } else {
        hide Known, Rolled, Charged, Blocked;
        SameKnown(o, buckets, v.buckets, Past(admitted, other), other, now);
      }
    }
  }

  lemma ReserveClocked(o: Options, buckets: map<Key, Bucket>, ip: string, account: string, now: Time)
    requires Proper(o) && AllClocked(o, buckets, now)
    ensures AllClocked(o, Reserve(o, buckets, ip, account, now).buckets, now)
  {
  }

  lemma ReserveSize(o: Options, buckets: map<Key, Bucket>, ip: string, account: string, now: Time)
    ensures |Reserve(o, buckets, ip, account, now).buckets| <= |buckets| + Missing(buckets, Ip(ip), Account(account))
  {
    hide Rolled, Charged, Blocked, Fresh;
    var i := Opened(buckets, Ip(ip), now);
    SizeAfter(buckets, Ip(ip), i);
    var first := buckets[Ip(ip) := Rolled(o, i, now)];
    SizeAfter(buckets, Ip(ip), Rolled(o, i, now));
    var a := Opened(first, Account(account), now);
    SizeAfter(first, Account(account), a);
    var second := first[Account(account) := Rolled(o, a, now).(touchedAt := now)];
    SizeAfter(first, Account(account), Rolled(o, a, now).(touchedAt := now));
    SizeAfter(second, Ip(ip), Charged(o, Rolled(o, i, now), now));
  }

  class Limiter {
    const options: Options
    var buckets: map<Key, Bucket>
    var nextSweep: Time
    /** The last time seen, and when each address was admitted. */
    ghost var clock: Time
    ghost var admitted: map<string, seq<Time>>

    ghost predicate Valid()
      reads this
    {
      && Proper(options) && |buckets| <= options.maxEntries && AllClocked(options, buckets, clock)
      && (options.ipAttemptBlock >= options.ipAttemptWindow ==> AllKnown(options, buckets, admitted, clock))
    }

    constructor (o: Options)
      ensures Valid() && options == Normalized(o) && buckets == map[] && clock == 0 && admitted == map[]
    {
      options := Normalized(o);
      buckets, nextSweep, clock, admitted := map[], 0, 0, map[];
      new;
      forall ip ensures Known(options, buckets, Past(admitted, ip), ip, clock) {
      }
    }

    /** Drops the idle buckets when the time has come, or when forced to. */
    method SweepIfDue(now: Time, force: bool)
      modifies `buckets, `nextSweep
      ensures buckets == if Due(old(nextSweep), now, force) then Swept(options, old(buckets), now) else old(buckets)
      ensures nextSweep == if Due(old(nextSweep), now, force) then now + options.sweepEvery else old(nextSweep)
    {
      if !force && nextSweep != 0 && now < nextSweep {
        return;
      }
      ghost var before := buckets;
      var left := buckets.Keys;
      while left != {}
        invariant left <= before.Keys
        invariant forall key ::
                    key in buckets <==> key in before && (key in left || !Sweepable(options, before[key], now))
        invariant forall key :: key in buckets ==> buckets[key] == before[key]
        decreases left
      {
        var key :| key in left;
        if !(now < buckets[key].failureBlockedUntil) && !(now < buckets[key].attemptBlockedUntil)
           && now - buckets[key].touchedAt >= Retention(options) {
          buckets := buckets - {key};
        }
        left := left - {key};
      }
      assert buckets == Swept(options, before, now);
      nextSweep := now + options.sweepEvery;
    }

    /** Opens a bucket and rolls its windows; false if the bucket blocks. */
    method Prepare(key: Key, now: Time) returns (open: bool)
      modifies `buckets
      ensures var b := Opened(old(buckets), key, now);
              && (open <==> !Blocked(b, now))
              && buckets == old(buckets)[key := if open then Rolled(options, b, now) else b]
    {
      var entry := if key in buckets then buckets[key] else Bucket(0, now, 0, 0, now, 0, now);
      buckets := buckets[key := entry];
      if now < entry.failureBlockedUntil || now < entry.attemptBlockedUntil {
        return false;
      }
      if now - entry.failureStart >= options.window {
        entry := entry.(failures := 0, failureStart := now);
      }
      if now - entry.attemptStart >= options.ipAttemptWindow {
        entry := entry.(attempts := 0, attemptStart := now);
      }
      buckets := buckets[key := entry];
      return true;
    }

    method ReserveBoth(ip: string, account: string, now: Time) returns (allowed: bool)
      modifies `buckets
      ensures Verdict(allowed, buckets) == Reserve(options, old(buckets), ip, account, now)
    {
      hide Rolled;
      allowed := Prepare(Ip(ip), now);
      if !allowed {
        return;
      }
      allowed := Prepare(Account(account), now);
      if !allowed {
        return;
      }
      var ipEntry := buckets[Ip(ip)].(touchedAt := now);
      buckets := buckets[Account(account) := buckets[Account(account)].(touchedAt := now)];
      ipEntry := ipEntry.(attempts := ipEntry.attempts + 1);
      if ipEntry.attempts >= options.maxIPAttempts {
        ipEntry := ipEntry.(attemptBlockedUntil := now + options.ipAttemptBlock);
      }
      buckets := buckets[Ip(ip) := ipEntry];
    }

    /** Reserves both keys: swept when due, swept by force when the table is full,
        refused when it stays full; else decided by the two buckets. */
    method Allow(ip: string, account: string, now: Time) returns (allowed: bool)
      requires Valid() && clock <= now
      modifies this
      ensures Valid() && clock == now && admitted == Noted(old(admitted), ip, allowed, now)
      ensures Verdict(allowed, buckets) == Allowed(options, old(buckets), old(nextSweep), ip, account, now)
      ensures nextSweep == if Sweeps(options, old(buckets), old(nextSweep), ip, account, now)
              then now + options.sweepEvery else old(nextSweep)
    {
      ghost var before := buckets;
      hide Reserve, Swept;
      SweepIfDue(now, false);
      ghost var swept := buckets;
      assert swept == before || swept == Swept(options, before, now);
      var missing := Missing(buckets, Ip(ip), Account(account));
      if |buckets| + missing > options.maxEntries {
        SweepIfDue(now, true);
        missing := Missing(buckets, Ip(ip), Account(account));
        if |buckets| + missing > options.maxEntries {
          KeptBySweeps(options, before, swept, buckets, admitted, clock, now);
          clock := now;
          return false;
        }
      }
      KeptBySweeps(options, before, swept, buckets, admitted, clock, now);
      ghost var tidy := buckets;
      allowed := ReserveBoth(ip, account, now);
      ReserveClocked(options, tidy, ip, account, now);
      ReserveSize(options, tidy, ip, account, now);
      if options.ipAttemptBlock >= options.ipAttemptWindow {
        ReserveKnows(options, tidy, admitted, ip, account, now);
      }
      clock, admitted := now, Noted(admitted, ip, allowed, now);
    }

    /** Counts a failure in one bucket, if there is one or room for one. */
    method Count(key: Key, now: Time)
      modifies `buckets
      ensures buckets == AfterFailure(options, old(buckets), key, now)
    {
      if key !in buckets {
        if |buckets| >= options.maxEntries {
          return;
        }
        buckets := buckets[key := Bucket(0, now, 0, 0, now, 0, 0)];
      }
      var entry := buckets[key];
      if now - entry.failureStart >= options.window {
        entry := entry.(failures := 0, failureStart := now);
      }
      entry := entry.(failures := entry.failures + 1, touchedAt := now);
      if entry.failures >= options.maxFailures {
        entry := entry.(failureBlockedUntil := now + options.block);
      }
      buckets := buckets[key := entry];
    }

    method Failure(ip: string, account: string, now: Time)
      requires Valid() && clock <= now
      modifies this
      ensures Valid() && clock == now && admitted == old(admitted) && nextSweep == old(nextSweep)
      ensures buckets == AfterFailure(options, AfterFailure(options, old(buckets), Ip(ip), now), Account(account), now)
    {
      ghost var before := buckets;
      Count(Ip(ip), now);
      ghost var middle := buckets;
      Count(Account(account), now);
      FailureKeeps(options, before, admitted, Ip(ip), clock, now);
      FailureKeeps(options, middle, admitted, Account(account), now, now);
      clock := now;
      hide AfterFailure, AllKnown, AllClocked;
    }

    method Success(account: string)
      requires Valid()
      modifies `buckets
      ensures Valid() && buckets == old(buckets) - {Account(account)}
    {
      ghost var before := buckets;
      buckets := buckets - {Account(account)};
      SubsetSize(buckets.Keys, before.Keys);
      if options.ipAttemptBlock >= options.ipAttemptWindow {
        hide Remembers, Spread;
        forall ip ensures Known(options, buckets, Past(admitted, ip), ip, clock) {
          assert Known(options, before, Past(admitted, ip), ip, clock);
          SameKnown(options, before, buckets, Past(admitted, ip), ip, clock);
        }
      }
    }
  }

  predicate Due(nextSweep: Time, now: Time, force: bool) {
    force || nextSweep == 0 || now >= nextSweep
  }

  /** An attempt sweeps the table when a sweep is due or the table has no room. */
  predicate Sweeps(o: Options, buckets: map<Key, Bucket>, nextSweep: Time, ip: string, account: string, now: Time) {
    Due(nextSweep, now, false) || |buckets| + Missing(buckets, Ip(ip), Account(account)) > o.maxEntries
  }

  /** What an attempt gets: the table is swept when due, and by force if full. */
  function Allowed(o: Options, buckets: map<Key, Bucket>, nextSweep: Time, ip: string, account: string,
    now: Time): Verdict {
    var swept := if Due(nextSweep, now, false) then Swept(o, buckets, now) else buckets;
    var tidy := if |swept| + Missing(swept, Ip(ip), Account(account)) > o.maxEntries then Swept(o, swept, now)
      else swept;
    if |tidy| + Missing(tidy, Ip(ip), Account(account)) > o.maxEntries then Verdict(false, tidy)
    else Reserve(o, tidy, ip, account, now)
  }

  function AfterFailure(o: Options, buckets: map<Key, Bucket>, key: Key, now: Time): map<Key, Bucket> {
    if key in buckets then buckets[key := Failed(o, buckets[key], now)]
    else if |buckets| >= o.maxEntries then buckets
    else buckets[key := Failed(o, Fresh(now), now)]
  }

  lemma KeptBySweep(o: Options, buckets: map<Key, Bucket>, after: map<Key, Bucket>, admitted: map<string, seq<Time>>,
      clock: Time, now: Time)
    requires clock <= now && AllClocked(o, buckets, clock) && (after == buckets || after == Swept(o, buckets, now))
    requires o.ipAttemptBlock >= o.ipAttemptWindow ==> AllKnown(o, buckets, admitted, clock)
    ensures AllClocked(o, after, now) && |after| <= |buckets|
    ensures o.ipAttemptBlock >= o.ipAttemptWindow ==> AllKnown(o, after, admitted, now)
  {
    SweepShrinks(o, buckets, now);
    if o.ipAttemptBlock >= o.ipAttemptWindow {
      SweepKnows(o, buckets, admitted, clock, now);
      LaterKnows(o, buckets, admitted, clock, now);
    }
    hide AllKnown;
  }

  lemma KeptBySweeps(o: Options, buckets: map<Key, Bucket>, swept: map<Key, Bucket>, after: map<Key, Bucket>,
                     admitted: map<string, seq<Time>>, clock: Time, now: Time)
    requires clock <= now && AllClocked(o, buckets, clock)
    requires (swept == buckets || swept == Swept(o, buckets, now)) && (after == swept || after == Swept(o, swept, now))
    requires o.ipAttemptBlock >= o.ipAttemptWindow ==> AllKnown(o, buckets, admitted, clock)
    ensures AllClocked(o, after, now) && |after| <= |buckets|
    ensures o.ipAttemptBlock >= o.ipAttemptWindow ==> AllKnown(o, after, admitted, now)
  {
    hide AllKnown, AllClocked, Swept;
    KeptBySweep(o, buckets, swept, admitted, clock, now);
    KeptBySweep(o, swept, after, admitted, now, now);
  }

  lemma FailureKnows(o: Options, buckets: map<Key, Bucket>, admitted: map<string, seq<Time>>, key: Key, now: Time)
    requires Proper(o) && AllKnown(o, buckets, admitted, now)
    ensures AllKnown(o, AfterFailure(o, buckets, key, now), admitted, now)
  {
    var after := AfterFailure(o, buckets, key, now);
    forall ip ensures Known(o, after, Past(admitted, ip), ip, now) {
      var times := Past(admitted, ip);
      assert Known(o, buckets, times, ip, now);
      if key == Ip(ip) {
        OpenedRemembers(o, buckets, times, ip, now);
        FailedRemembers(o, Opened(buckets, key, now), times, now, now);
      }
      hide Remembers, Spread, Failed;
    }
  }

  lemma FailureKeeps(o: Options, buckets: map<Key, Bucket>, admitted: map<string, seq<Time>>, key: Key, clock: Time,
      now: Time)
    requires Proper(o) && clock <= now && |buckets| <= o.maxEntries && AllClocked(o, buckets, clock)
    requires o.ipAttemptBlock >= o.ipAttemptWindow ==> AllKnown(o, buckets, admitted, clock)
    ensures var after := AfterFailure(o, buckets, key, now);
            && |after| <= o.maxEntries && AllClocked(o, after, now)
            && (o.ipAttemptBlock >= o.ipAttemptWindow ==> AllKnown(o, after, admitted, now))
  {
    if o.ipAttemptBlock >= o.ipAttemptWindow {
      LaterKnows(o, buckets, admitted, clock, now);
      FailureKnows(o, buckets, admitted, key, now);
    }
    hide AllKnown;
    SizeAfter(buckets, key, Failed(o, Opened(buckets, key, now), now));
  }

  /** With a block at least as long as the window, in every run of the limiter no
      interval of window length has 2 * max attempts of one address admitted. */
  lemma AttemptsAreSpread(l: Limiter, ip: string, x: int)
    requires l.Valid() && l.options.ipAttemptBlock >= l.options.ipAttemptWindow
    ensures Within(Past(l.admitted, ip), x, x + l.options.ipAttemptWindow) <= 2 * l.options.maxIPAttempts - 1
  {
    assert Known(l.options, l.buckets, Past(l.admitted, ip), ip, l.clock);
    assert InWindow(l.options, Past(l.admitted, ip), x) <= 2 * l.options.maxIPAttempts - 1;
  }

  /** What a sweep drops from a limiter is expired at that moment. */
  lemma SweepDropsExpired(l: Limiter, now: Time, key: Key)
    requires l.Valid() && l.clock <= now && key in l.buckets && key !in Swept(l.options, l.buckets, now)
    ensures Expired(l.options, l.buckets[key], now)
  {
    SweepableIsExpired(l.options, l.buckets[key], l.clock, now);
  }

  /** The standard limiter admits at most 119 attempts of one address a minute. */
  lemma StandardAttemptsPerMinute(l: Limiter, ip: string, x: int)
    requires l.Valid() && l.options == Normalized(Options(0, 0, 0, 0, 0, 0, 0, 0))
    ensures Within(Past(l.admitted, ip), x, x + MINUTE) <= 119
  {
    AttemptsAreSpread(l, ip, x);
  }

  /** The bound needs the block: with one attempt per window and a shorter block,
      an empty limiter admits two attempts within one window. AuthRuns has the
      runs that exceed it for every other maximum. */
  lemma ShortBlockAdmitsTwo(o: Options, ip: string, account: string)
    requires Proper(o) && o.maxIPAttempts == 1 && o.ipAttemptBlock < o.ipAttemptWindow
    ensures var first := Allowed(o, map[], 0, ip, account, 1);
            var second := Allowed(o, first.buckets, 1 + o.sweepEvery, ip, account, 1 + o.ipAttemptBlock);
            && first.allowed && second.allowed
            && Within([1, 1 + o.ipAttemptBlock], 1, 1 + o.ipAttemptWindow) == 2 > 2 * o.maxIPAttempts - 1
  {
    var first := Allowed(o, map[], 0, ip, account, 1);
    var none: map<Key, Bucket> := map[];
    assert Swept(o, none, 1) == none;
    SizeAfter(none, Ip(ip), Fresh(1));
    var now := 1 + o.ipAttemptBlock;
    assert first.buckets.Keys == {Ip(ip), Account(account)};
    assert Swept(o, first.buckets, now) == first.buckets;
    assert |first.buckets| == 2;
    assert [1, now][..1] == [1] && [1][..0] == [];
    assert Within([1], 1, 1 + o.ipAttemptWindow) == 1;
  }

  /** The same blocks, for as long. */
  predicate SameBlocks(b: Bucket, c: Bucket) {
    b.failureBlockedUntil == c.failureBlockedUntil && b.attemptBlockedUntil == c.attemptBlockedUntil
  }

  /** A block holds until it ends: neither sweeps nor attempts by anybody shorten
      or lift it, and every attempt of the blocked address or account is refused. */
  lemma BlockHolds(o: Options, buckets: map<Key, Bucket>, nextSweep: Time, ip: string, account: string, now: Time,
      key: Key)
    requires key in buckets && Blocked(buckets[key], now)
    ensures var v := Allowed(o, buckets, nextSweep, ip, account, now);
            key in v.buckets && SameBlocks(buckets[key], v.buckets[key])
    ensures key == Ip(ip) || key == Account(account) ==> !Allowed(o, buckets, nextSweep, ip, account, now).allowed
  {
    var swept := if Due(nextSweep, now, false) then Swept(o, buckets, now) else buckets;
    var tidy := if |swept| + Missing(swept, Ip(ip), Account(account)) > o.maxEntries then Swept(o, swept, now)
      else swept;
    assert key in tidy && tidy[key] == buckets[key];
    BlockHoldsInReserve(o, tidy, ip, account, now, key);
    hide Reserve, Swept, Missing;
  }

  lemma BlockHoldsInReserve(o: Options, buckets: map<Key, Bucket>, ip: string, account: string, now: Time, key: Key)
    requires key in buckets && Blocked(buckets[key], now)
    ensures var v := Reserve(o, buckets, ip, account, now); key in v.buckets && SameBlocks(buckets[key], v.buckets[key])
    ensures key == Ip(ip) || key == Account(account) ==> !Reserve(o, buckets, ip, account, now).allowed
  {
  }

  /** Failures lengthen blocks only, and the one that reaches the maximum blocks
      its key for the whole period. */
  lemma FailureBlocks(l: Limiter, now: Time, key: Key, other: Key)
    requires l.Valid() && l.clock <= now && other in l.buckets
    ensures var after := AfterFailure(l.options, l.buckets, key, now);
            && other in after && after[other].failureBlockedUntil >= l.buckets[other].failureBlockedUntil
            && after[other].attemptBlockedUntil == l.buckets[other].attemptBlockedUntil
    ensures key in l.buckets && now - l.buckets[key].failureStart < l.options.window
            && l.buckets[key].failures + 1 >= l.options.maxFailures ==>
              AfterFailure(l.options, l.buckets, key, now)[key].failureBlockedUntil == now + l.options.block
  {
    assert Clocked(l.options, l.buckets[other], l.clock);
    hide AllKnown;
  }
}
