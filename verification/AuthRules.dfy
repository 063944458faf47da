/** The rules of the authentication limiter, said of the buckets before and after:
    what an attempt and a failure count, what blocks, and what a sweep keeps. */
module AuthRules {
  import opened Common
  import opened Times
  import opened AuthLimiter

  /** The standard limits, in counts and nanoseconds. */
  lemma StandardLimits(o: Options)
    ensures var n := Normalized(o);
            && n.maxFailures == (if o.maxFailures < 1 then 5 else o.maxFailures)
            && n.window == (if o.window < 1 then 600_000_000_000 else o.window)
            && n.block == (if o.block < 1 then 900_000_000_000 else o.block)
            && n.maxEntries == (if o.maxEntries < 2 then 16384 else o.maxEntries)
            && n.sweepEvery == (if o.sweepEvery < 1 then 60_000_000_000 else o.sweepEvery)
            && n.maxIPAttempts == (if o.maxIPAttempts < 1 then 60 else o.maxIPAttempts)
            && n.ipAttemptWindow == (if o.ipAttemptWindow < 1 then 60_000_000_000 else o.ipAttemptWindow)
            && n.ipAttemptBlock == (if o.ipAttemptBlock < 1 then 60_000_000_000 else o.ipAttemptBlock)
  {
  }

  /** The key may go on: it has no bucket, or one whose blocks are over. */
  predicate Open(buckets: map<Key, Bucket>, key: Key, now: Time) {
    key in buckets ==> buckets[key].failureBlockedUntil <= now && buckets[key].attemptBlockedUntil <= now
  }

  /** How many failures, or attempts, count in the window that is running. */
  function RunningFailures(o: Options, buckets: map<Key, Bucket>, key: Key, now: Time): nat {
    if key in buckets && now - buckets[key].failureStart < o.window then buckets[key].failures else 0
  }

  function RunningAttempts(o: Options, buckets: map<Key, Bucket>, key: Key, now: Time): nat {
    if key in buckets && now - buckets[key].attemptStart < o.ipAttemptWindow then buckets[key].attempts else 0
  }

  /** The windows of a bucket: those that are running go on, the others start now. */
  predicate Windows(o: Options, buckets: map<Key, Bucket>, key: Key, after: Bucket, now: Time) {
    && after.failureStart == (if key in buckets && now - buckets[key].failureStart < o.window
                              then buckets[key].failureStart else now)
    && after.attemptStart == (if key in buckets && now - buckets[key].attemptStart < o.ipAttemptWindow
                              then buckets[key].attemptStart else now)
  }

  function BlockOf(buckets: map<Key, Bucket>, key: Key): (Time, Time) {
    if key in buckets then (buckets[key].failureBlockedUntil, buckets[key].attemptBlockedUntil) else (0, 0)
  }

  /** An attempt that is let through counts for the address; the attempt that
      reaches the maximum blocks it for the period. */
  predicate Charges(o: Options, before: map<Key, Bucket>, after: map<Key, Bucket>, ip: string, account: string,
    now: Time) {
    && after.Keys == before.Keys + {Ip(ip), Account(account)}
    && (forall key :: key in before && key != Ip(ip) && key != Account(account) ==> after[key] == before[key])
    && var a, i := after[Account(account)], after[Ip(ip)];
       && Windows(o, before, Account(account), a, now) && Windows(o, before, Ip(ip), i, now)
       && a.touchedAt == now && i.touchedAt == now
       && a.failures == RunningFailures(o, before, Account(account), now)
       && i.failures == RunningFailures(o, before, Ip(ip), now)
       && a.attempts == RunningAttempts(o, before, Account(account), now)
       && i.attempts == RunningAttempts(o, before, Ip(ip), now) + 1
       && (a.failureBlockedUntil, a.attemptBlockedUntil) == BlockOf(before, Account(account))
       && i.failureBlockedUntil == BlockOf(before, Ip(ip)).0
       && i.attemptBlockedUntil == (if i.attempts >= o.maxIPAttempts then now + o.ipAttemptBlock
                                    else BlockOf(before, Ip(ip)).1)
  }

  /** In a table with room an attempt is let through exactly if neither the address
      nor the account is blocked. */
  lemma ReserveRules(o: Options, buckets: map<Key, Bucket>, ip: string, account: string, now: Time)
    requires Proper(o) && 0 <= now
    ensures var v := Reserve(o, buckets, ip, account, now);
            && (v.allowed <==> Open(buckets, Ip(ip), now) && Open(buckets, Account(account), now))
            && (v.allowed ==> Charges(o, buckets, v.buckets, ip, account, now))
  {
  }

  /** A refused attempt counts nothing: it adds buckets that have no attempts and
      no failures, and lets windows that have run out begin again. */
  lemma RefusalCountsNothing(o: Options, buckets: map<Key, Bucket>, ip: string, account: string, now: Time, key: Key)
    requires Proper(o) && 0 <= now && !Reserve(o, buckets, ip, account, now).allowed
             && key in Reserve(o, buckets, ip, account, now).buckets
    ensures var after := Reserve(o, buckets, ip, account, now).buckets[key];
            && (key in buckets ==> after.failures <= buckets[key].failures && after.attempts <= buckets[key].attempts
                                   && after.touchedAt == buckets[key].touchedAt)
            && (key !in buckets ==>
                  (key == Ip(ip) || key == Account(account)) && after == Bucket(0, now, 0, 0, now, 0, now))
            && RunningFailures(o, Reserve(o, buckets, ip, account, now).buckets, key, now) ==
               RunningFailures(o, buckets, key, now)
            && RunningAttempts(o, Reserve(o, buckets, ip, account, now).buckets, key, now) ==
               RunningAttempts(o, buckets, key, now)
  {
  }

  /** A failure counts in the bucket, or opens one if there is room; the failure
      that reaches the maximum blocks for the period. */
  lemma FailureRules(o: Options, buckets: map<Key, Bucket>, key: Key, now: Time)
    requires Proper(o)
    ensures var after := AfterFailure(o, buckets, key, now);
            if key !in buckets && |buckets| >= o.maxEntries then after == buckets
            else
              && after.Keys == buckets.Keys + {key}
              && (forall k :: k in buckets && k != key ==> after[k] == buckets[k])
              && var b := after[key];
                 && b.failures == RunningFailures(o, buckets, key, now) + 1 && b.touchedAt == now
                 && b.failureStart == (if key in buckets && now - buckets[key].failureStart < o.window
                                       then buckets[key].failureStart else now)
                 && b.attempts == (if key in buckets then buckets[key].attempts else 0)
                 && b.attemptStart == (if key in buckets then buckets[key].attemptStart else now)
                 && b.attemptBlockedUntil == BlockOf(buckets, key).1
                 && b.failureBlockedUntil == (if b.failures >= o.maxFailures then now + o.block
                                              else BlockOf(buckets, key).0)
  {
    if key in buckets || |buckets| < o.maxEntries {
      var before := if key in buckets then buckets[key] else Fresh(now);
      assert AfterFailure(o, buckets, key, now) == buckets[key := Failed(o, before, now)];
    }
  }

  /** A sweep keeps the buckets that block, and those touched within the longest
      of the four periods. */
  lemma SweepRules(o: Options, buckets: map<Key, Bucket>, now: Time, key: Key)
    ensures key in Swept(o, buckets, now) <==>
              && key in buckets
              && (!Open(buckets, key, now) || now - buckets[key].touchedAt < o.window
                  || now - buckets[key].touchedAt < o.block || now - buckets[key].touchedAt < o.ipAttemptWindow
                  || now - buckets[key].touchedAt < o.ipAttemptBlock)
    ensures key in Swept(o, buckets, now) ==> Swept(o, buckets, now)[key] == buckets[key]
  {
  }

  /** The buckets an attempt needs and the table does not have. */
  function New(buckets: map<Key, Bucket>, ip: string, account: string): set<Key> {
    {Ip(ip), Account(account)} - buckets.Keys
  }

  /** An attempt is decided on the table swept, when the sweep is due or the table
      would be above its cap; still above it, the attempt is refused. */
  lemma AttemptRules(o: Options, buckets: map<Key, Bucket>, nextSweep: Time, ip: string, account: string, now: Time)
    requires Proper(o)
    ensures var due := nextSweep == 0 || now >= nextSweep;
            var over := |buckets| + |New(buckets, ip, account)| > o.maxEntries;
            var table := if due || over then Swept(o, buckets, now) else buckets;
            var v := Allowed(o, buckets, nextSweep, ip, account, now);
            && (Sweeps(o, buckets, nextSweep, ip, account, now) <==> due || over)
            && if |table| + |New(table, ip, account)| > o.maxEntries then v == Verdict(false, table)
               else v == Reserve(o, table, ip, account, now)
  {
    NewSize(buckets, ip, account);
    NewSize(Swept(o, buckets, now), ip, account);
    SweptTwice(o, buckets, now);
    hide Reserve, Swept, Missing, New;
  }

  lemma SweptTwice(o: Options, buckets: map<Key, Bucket>, now: Time)
    ensures Swept(o, Swept(o, buckets, now), now) == Swept(o, buckets, now)
  {
  }

  lemma NewSize(buckets: map<Key, Bucket>, ip: string, account: string)
    ensures |New(buckets, ip, account)| == Missing(buckets, Ip(ip), Account(account))
  {
    var i, a := Ip(ip), Account(account);
    if i in buckets {
      assert New(buckets, ip, account) == if a in buckets then {} else {a};
    } else {
      assert New(buckets, ip, account) == if a in buckets then {i} else {i, a};
    }
  }
}
