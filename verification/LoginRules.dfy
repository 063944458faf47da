/** The rules of the login limiter, said of the lists before and after. */
module LoginRules {
  import opened Common
  import opened Times
  import opened LoginLimiter

  /** The limits and windows of the server: ten setups an hour, a hundred logins of
      an address and ten of an account in a quarter of one. */
  lemma ServerRules(name: string)
    ensures Limit(SERVER_POLICY, "setup:" + name) == 10 && Window(SERVER_POLICY, "setup:" + name) == 3_600_000_000_000
    ensures Limit(SERVER_POLICY, "login-ip:" + name) == 100
            && Window(SERVER_POLICY, "login-ip:" + name) == 900_000_000_000
    ensures Limit(SERVER_POLICY, "login-account:" + name) == 10
            && Window(SERVER_POLICY, "login-account:" + name) == 900_000_000_000
  {
    var s, i, a := "setup:" + name, "login-ip:" + name, "login-account:" + name;
    assert s[..6] == "setup:" && i[..9] == "login-ip:" && a[..14] == "login-account:";
    assert s[0] == 's' && i[0] == 'l' && a[0] == 'l' && i[6] == 'i' && a[6] == 'a';
    assert "setup:"[0] == 's' && "login-ip:"[0] == 'l' && "login-ip:"[6] == 'i';
  }

  /** The recent times are those after the cutoff, in the order of the list. */
  lemma {:induction false} RecentPlaces(times: seq<Time>, cutoff: Time, n: nat) returns (places: seq<nat>)
    requires n <= |times|
    ensures |places| == |Recent(times[..n], cutoff)|
    ensures forall i, j :: 0 <= i < j < |places| ==> places[i] < places[j]
    ensures forall j :: 0 <= j < |places| ==> places[j] < n && Recent(times[..n], cutoff)[j] == times[places[j]]
    ensures forall i: nat :: i in places <==> i < n && times[i] > cutoff
  {
    if n == 0 {
      places := [];
    } else {
      places := RecentPlaces(times, cutoff, n - 1);
      assert times[..n][..n - 1] == times[..n - 1];
      assert forall j :: 0 <= j < |places| ==> places[j] in places;
      if times[n - 1] > cutoff {
        places := places + [n - 1];
      }
    }
  }

  /** The keys an eviction leaves: those with a time that is not before the cutoff. */
  lemma EvictionRules(attempts: Table, cutoff: Time, key: string)
    ensures key in Evicted(attempts, cutoff) <==>
              key in attempts && attempts[key] != [] && attempts[key][|attempts[key]| - 1] >= cutoff
    ensures key in Evicted(attempts, cutoff) ==> Evicted(attempts, cutoff)[key] == attempts[key]
  {
  }

  /** An attempt by a key that is new to a full table evicts first; if the table is
      still full it is refused. Otherwise it is let through exactly if fewer recent
      times than the limit are listed, and is then listed itself. */
  lemma AttemptRules(attempts: Table, key: string, now: Time, p: Policy)
    ensures var cutoff := now - Window(p, key);
            var full := key !in attempts && |attempts| >= 10000;
            var table := if full then Evicted(attempts, cutoff) else attempts;
            var recent := Recent(if key in attempts then attempts[key] else [], cutoff);
            var outcome := Attempted(attempts, key, now, p);
            if full && |table| >= 10000 then outcome == Outcome(false, table)
            else
              && (outcome.allowed <==> |recent| < Limit(p, key))
              && outcome.attempts == table[key := if outcome.allowed then recent + [now] else recent]
  {
    var cutoff := now - Window(p, key);
    assert key !in attempts ==> key !in Evicted(attempts, cutoff);
    var recent := Recent(Stored(attempts, key), cutoff);
    assert recent + [] == recent;
    hide Window, Limit, Recent, Evicted;
  }
}
