/** Points in time on a clock that never goes back, and how many of them fall
    into an interval. */
module Times {

  /** 0 is the zero time. */
  type Time = int

  /** Times are counted in nanoseconds. */
  const MINUTE: Time := 60_000_000_000

  predicate UpTo(times: seq<Time>, moment: int) {
    forall i :: 0 <= i < |times| ==> times[i] <= moment
  }

  /** How many of the times lie in [from, until). */
  function Within(times: seq<Time>, from: int, until: int): nat {
    if times == [] then 0
    else Within(times[..|times| - 1], from, until) + if from <= times[|times| - 1] < until then 1 else 0
  }

  /** How many of the times lie after a moment. */
  function After(times: seq<Time>, moment: int): nat {
    if times == [] then 0
    else After(times[..|times| - 1], moment) + if times[|times| - 1] > moment then 1 else 0
  }

  lemma {:induction false} WithinIsAfter(times: seq<Time>, from: int, until: int, moment: int)
    requires moment < from
    ensures Within(times, from, until) <= After(times, moment)
  {
    if times != [] {
      WithinIsAfter(times[..|times| - 1], from, until, moment);
    }
  }

  lemma {:induction false} AfterSplit(first: seq<Time>, second: seq<Time>, moment: int)
    ensures After(first + second, moment) == After(first, moment) + After(second, moment)
  {
    if second == [] {
      assert first + second == first;
    } else {
      var n := |second| - 1;
      AfterSplit(first, second[..n], moment);
      assert (first + second)[..|first| + n] == first + second[..n];
    }
  }

  lemma {:induction false} AfterAtMostAll(times: seq<Time>, moment: int)
    ensures After(times, moment) <= |times|
  {
    if times != [] {
      AfterAtMostAll(times[..|times| - 1], moment);
    }
  }

  lemma {:induction false} NoneAfter(times: seq<Time>, moment: int)
    requires forall i :: 0 <= i < |times| ==> times[i] <= moment
    ensures After(times, moment) == 0
  {
    if times != [] {
      NoneAfter(times[..|times| - 1], moment);
    }
  }

  lemma {:induction false} FewerAfter(times: seq<Time>, earlier: int, later: int)
    requires earlier <= later
    ensures After(times, later) <= After(times, earlier)
  {
    if times != [] {
      FewerAfter(times[..|times| - 1], earlier, later);
    }
  }

  /** The same moment, n times. */
  function Moments(n: nat, now: Time): seq<Time> {
    seq(n, _ => now)
  }

  lemma MomentsOneMore(n: nat, now: Time)
    ensures Moments(n + 1, now) == Moments(n, now) + [now]
  {
  }

  lemma {:induction false} MomentsWithin(times: seq<Time>, n: nat, now: Time, x: int, y: int)
    requires x <= now < y
    ensures Within(times + Moments(n, now), x, y) == Within(times, x, y) + n
  {
    if n == 0 {
      assert times + Moments(0, now) == times;
    } else {
      MomentsOneMore(n - 1, now);
      var longer := times + Moments(n, now);
      assert longer[..|longer| - 1] == times + Moments(n - 1, now);
      MomentsWithin(times, n - 1, now, x, y);
    }
  }

  lemma TwoMomentsWithin(n: nat, k: nat, first: Time, second: Time, until: int)
    requires first <= second < until
    ensures Within(Moments(n, first) + Moments(k, second), first, until) == n + k
  {
    MomentsWithin([], n, first, first, until);
    assert [] + Moments(n, first) == Moments(n, first);
    MomentsWithin(Moments(n, first), k, second, first, until);
  }
}
