/** Counting live connections: in all and per address, under caps, for the TCP
    listeners and for the IMAP guard. */
module ConnectionLimits {
  import opened Common

  // --------------------------------------------------------------- counting

  /** The live connections that come from an address. */
  function From<T>(live: map<T, string>, ip: string): set<T> {
    set c | c in live && live[c] == ip
  }

  function Count(byIP: map<string, nat>, ip: string): nat {
    if ip in byIP then byIP[ip] else 0
  }

  /** The count of an address is the number of its live connections, and an
      address without one has no entry. */
  ghost predicate Counts<T>(byIP: map<string, nat>, live: map<T, string>) {
    forall ip :: Count(byIP, ip) == |From(live, ip)| && (ip in byIP ==> byIP[ip] > 0)
  }

  function Incremented(byIP: map<string, nat>, ip: string): map<string, nat> {
    byIP[ip := Count(byIP, ip) + 1]
  }

  function Decremented(byIP: map<string, nat>, ip: string): map<string, nat> {
    if Count(byIP, ip) <= 1 then byIP - {ip} else byIP[ip := byIP[ip] - 1]
  }

  lemma CountsNothing<T>(live: map<T, string>)
    requires live == map[]
    ensures Counts(map[], live)
  {
    forall ip ensures From(live, ip) == {} {
    }
  }

  lemma FromOneMore<T>(live: map<T, string>, c: T, ip: string, other: string)
    requires c !in live
    ensures |From(live[c := ip], other)| == |From(live, other)| + if other == ip then 1 else 0
  {
    var more := live[c := ip];
    assert From(more, other) == From(live, other) + if other == ip then {c} else {};
  }

  lemma CountsOneMore<T>(byIP: map<string, nat>, live: map<T, string>, c: T, ip: string)
    requires Counts(byIP, live) && c !in live
    ensures Counts(Incremented(byIP, ip), live[c := ip])
  {
    var more, counts := live[c := ip], Incremented(byIP, ip);
    forall other ensures Count(counts, other) == |From(more, other)| {
      FromOneMore(live, c, ip, other);
      hide From;
      assert Count(byIP, other) == |From(live, other)|;
    }
  }

  predicate Capped(byIP: map<string, nat>, most: int) {
    forall ip :: ip in byIP ==> byIP[ip] <= most
  }

  lemma DecrementedIs(byIP: map<string, nat>, ip: string)
    ensures Decremented(byIP, ip) == if Count(byIP, ip) <= 1 then byIP - {ip} else byIP[ip := byIP[ip] - 1]
  {
  }

  lemma IncrementedIs(byIP: map<string, nat>, ip: string)
    ensures Incremented(byIP, ip) == byIP[ip := Count(byIP, ip) + 1]
  {
  }

  lemma CappedOneMore(byIP: map<string, nat>, ip: string, most: int)
    requires Capped(byIP, most) && Count(byIP, ip) < most
    ensures Capped(Incremented(byIP, ip), most)
  {
  }

  lemma CappedOneLess(byIP: map<string, nat>, ip: string, most: int)
    requires Capped(byIP, most)
    ensures Capped(Decremented(byIP, ip), most)
  {
  }

  lemma CountsOneLess<T>(byIP: map<string, nat>, live: map<T, string>, c: T)
    requires Counts(byIP, live) && c in live
    ensures Counts(Decremented(byIP, live[c]), live - {c})
  {
    var ip := live[c];
    forall other ensures Count(Decremented(byIP, ip), other) == |From(live - {c}, other)| {
      assert Count(byIP, other) == |From(live, other)|;
      assert From(live - {c}, other) == From(live, other) - if other == ip then {c} else {};
      assert c in From(live, ip);
    }
  }

  lemma NobodyLeft<T>(byIP: map<string, nat>, live: map<T, string>)
    requires Counts(byIP, live) && live == map[]
    ensures byIP == map[]
  {
    forall ip ensures ip !in byIP {
      assert From(live, ip) == {};
      assert Count(byIP, ip) == 0;
    }
  }

  lemma FewerLive<T>(live: map<T, string>, c: T, ip: string)
    ensures |live - {c}| == |live| - (if c in live then 1 else 0)
    ensures |live[c := ip]| == |live| + (if c in live then 0 else 1)
  {
    assert (live - {c}).Keys == live.Keys - {c};
    assert live[c := ip].Keys == live.Keys + {c};
  }

  /** The connections handed out are numbered. */
  type Id = nat

  lemma NumberedOneMore(live: map<Id, string>, issued: Id, ip: string)
    requires forall c :: c in live ==> c < issued
    ensures issued !in live
    ensures var more := live[issued := ip]; forall c :: c in more ==> c < issued + 1
  {
  }

  // -------------------------------------------------------------- listeners

  /** Shared by listeners; a cap of zero or less is no cap. */
  class Limiter {
    const globalMax: int
    const perIPMax: int
    var global: nat
    var byIP: map<string, nat>
    /** How many connections were handed out, and those not closed yet. */
    ghost var issued: nat
    ghost var live: map<Id, string>

    ghost predicate Valid()
      reads this
    {
      && global == |live| && Counts(byIP, live)
      && (globalMax > 0 ==> global <= globalMax)
      && (perIPMax > 0 ==> Capped(byIP, perIPMax))
      && (forall c :: c in live ==> c < issued)
    }

    constructor (globalMax: int, perIPMax: int)
      ensures Valid() && this.globalMax == globalMax && this.perIPMax == perIPMax && issued == 0 && live == map[]
    {
      this.globalMax, this.perIPMax := globalMax, perIPMax;
      global, byIP, issued, live := 0, map[], 0, map[];
      new;
      CountsNothing(live);
    }

    predicate Full(ip: string)
      reads this
    {
      (globalMax > 0 && global >= globalMax) || (perIPMax > 0 && Count(byIP, ip) >= perIPMax)
    }

    /** Takes a place for an address and hands out its connection, unless a cap is
        reached. */
    method Acquire(ip: string) returns (conn: Option<TrackedConn>)
      requires Valid()
      modifies this
      ensures Valid() && (conn.Some? <==> !old(Full(ip)))
      ensures conn.Some? <==>
                (globalMax > 0 ==> |old(live)| < globalMax) && (perIPMax > 0 ==> |From(old(live), ip)| < perIPMax)
      ensures conn.None? ==> live == old(live) && byIP == old(byIP) && global == old(global)
      ensures conn.Some? ==>
                && fresh(conn.value) && conn.value.Valid() && conn.value.limiter == this && !conn.value.released
                && conn.value.ip == ip && conn.value.id == old(issued) && live == old(live)[conn.value.id := ip]
    {
      if (globalMax > 0 && global >= globalMax) || (perIPMax > 0 && Count(byIP, ip) >= perIPMax) {
        return None;
      }
      Take(ip);
      hide *;
      var c := new TrackedConn(this, issued - 1, ip);
      return Some(c);
    }

    method Take(ip: string)
      requires Valid() && !Full(ip)
      modifies this
      ensures Valid() && issued == old(issued) + 1 && live == old(live)[old(issued) := ip]
      ensures byIP == Incremented(old(byIP), ip) && global == old(global) + 1
    {
      hide Counts, Capped, Incremented, Count;
      CountsOneMore(byIP, live, issued, ip);
      FewerLive(live, issued, ip);
      IncrementedIs(byIP, ip);
      if perIPMax > 0 {
        CappedOneMore(byIP, ip, perIPMax);
      }
      NumberedOneMore(live, issued, ip);
      global := global + 1;
      byIP := byIP[ip := Count(byIP, ip) + 1];
      issued, live := issued + 1, live[issued := ip];
    }

    /** Gives a place back. */
    method Release(ghost c: Id, ip: string)
      requires Valid() && c in live && live[c] == ip
      modifies `global, `byIP, `live
      ensures Valid() && live == old(live) - {c} && byIP == Decremented(old(byIP), ip) && global == old(global) - 1
    {
      hide Counts, Capped;
      CountsOneLess(byIP, live, c);
      FewerLive(live, c, ip);
      if perIPMax > 0 {
        CappedOneLess(byIP, ip, perIPMax);
      }
      if global > 0 {
        global := global - 1;
      }
      if Count(byIP, ip) <= 1 {
        byIP := byIP - {ip};
      } else {
        byIP := byIP[ip := byIP[ip] - 1];
      }
      live := live - {c};
    }

    /** Accepts the first of the incoming connections that has a place; those
        before it are closed at once. */
    method Accept(incoming: seq<string>) returns (conn: Option<TrackedConn>, refused: nat)
      requires Valid()
      modifies this
      ensures Valid() && refused <= |incoming|
      ensures forall k :: 0 <= k < refused ==> old(Full(incoming[k]))
      ensures conn.None? ==> refused == |incoming| && live == old(live)
      ensures conn.Some? ==>
                && refused < |incoming| && !old(Full(incoming[refused])) && fresh(conn.value) && conn.value.Valid()
                && live == old(live)[conn.value.id := incoming[refused]]
    {
      refused := 0;
      while refused < |incoming|
        invariant refused <= |incoming| && Valid()
        invariant forall k :: 0 <= k < refused ==> old(Full(incoming[k]))
        invariant live == old(live) && byIP == old(byIP) && global == old(global)
      {
        conn := Acquire(incoming[refused]);
        if conn.Some? {
          return;
        }
        refused := refused + 1;
      }
      conn := None;
    }
  }

  class TrackedConn {
    const limiter: Limiter
    ghost const id: Id
    const ip: string
    var released: bool

    /** A connection is live in its limiter, under its address, until it is
        released. */
    ghost predicate Valid()
      reads this, limiter
    {
      id < limiter.issued && (!released <==> id in limiter.live) && (!released ==> limiter.live[id] == ip)
    }

    constructor (limiter: Limiter, ghost id: Id, ip: string)
      requires id < limiter.issued && id in limiter.live && limiter.live[id] == ip
      ensures Valid() && this.limiter == limiter && this.id == id && this.ip == ip && !released
    {
      this.limiter, this.id, this.ip, released := limiter, id, ip, false;
    }

    /** Gives the place back the first time; later calls change nothing. */
    method Close()
      requires Valid() && limiter.Valid()
      modifies this, limiter
      ensures Valid() && limiter.Valid() && released && limiter.issued == old(limiter.issued)
      ensures limiter.live == old(limiter.live) - {id}
      ensures old(released) ==> limiter.byIP == old(limiter.byIP) && limiter.global == old(limiter.global)
      ensures !old(released) ==>
                limiter.global == old(limiter.global) - 1 && limiter.byIP == Decremented(old(limiter.byIP), ip)
    {
      hide Counts, Capped, Decremented;
      if !released {
        released := true;
        limiter.Release(id, ip);
      }
    }
  }

  /** In every state the count of an address is the number of its live
      connections; when none is live any more, the limiter is empty again. */
  lemma LiveConnectionsAreCounted(l: Limiter, ip: string)
    requires l.Valid()
    ensures Count(l.byIP, ip) == |From(l.live, ip)| && (ip in l.byIP <==> From(l.live, ip) != {})
    ensures l.perIPMax > 0 ==> |From(l.live, ip)| <= l.perIPMax || From(l.live, ip) == {}
    ensures l.live == map[] ==> l.global == 0 && l.byIP == map[]
  {
    if l.live == map[] {
      NobodyLeft(l.byIP, l.live);
    }
  }

  // ------------------------------------------------------------------ guard

  datatype Peer = Peer(key: string, ip: string)

  /** The connection registered under the key. */
  predicate Holds(connections: map<string, Id>, key: string, c: Id) {
    key in connections && connections[key] == c
  }

  /** Each key leads to an open connection registered for it. */
  predicate KeysLead(connections: map<string, Id>, peers: map<Id, Peer>, open: map<Id, string>) {
    forall key :: key in connections ==>
      connections[key] in open && connections[key] in peers && peers[connections[key]].key == key
  }

  /** Each open connection is the one its key leads to. */
  predicate OpenHeld(connections: map<string, Id>, peers: map<Id, Peer>, open: map<Id, string>) {
    forall c :: c in open ==> c in peers && open[c] == peers[c].ip && Holds(connections, peers[c].key, c)
  }

  /** The registered connections are the open ones, each under its own key. */
  predicate Linked(connections: map<string, Id>, peers: map<Id, Peer>, open: map<Id, string>, next: Id) {
    KeysLead(connections, peers, open) && OpenHeld(connections, peers, open) && forall c :: c in peers ==> c < next
  }

  lemma KeysLeadOneMore(connections: map<string, Id>, peers: map<Id, Peer>, open: map<Id, string>, next: Id,
      key: string, ip: string)
    requires KeysLead(connections, peers, open) && next !in peers && key !in connections
    ensures KeysLead(connections[key := next], peers[next := Peer(key, ip)], open[next := ip])
  {
  }

  lemma OpenHeldOneMore(connections: map<string, Id>, peers: map<Id, Peer>, open: map<Id, string>, next: Id,
      key: string, ip: string)
    requires OpenHeld(connections, peers, open) && next !in peers && key !in connections
    ensures OpenHeld(connections[key := next], peers[next := Peer(key, ip)], open[next := ip])
  {
  }

  lemma LinkedOneMore(connections: map<string, Id>, peers: map<Id, Peer>, open: map<Id, string>, next: Id, key: string,
      ip: string)
    requires Linked(connections, peers, open, next) && key !in connections
    ensures next !in peers && next !in open
    ensures Linked(connections[key := next], peers[next := Peer(key, ip)], open[next := ip], next + 1)
    ensures |connections[key := next]| == |connections| + 1
  {
    KeysLeadOneMore(connections, peers, open, next, key, ip);
    OpenHeldOneMore(connections, peers, open, next, key, ip);
    assert connections[key := next].Keys == connections.Keys + {key};
    hide KeysLead, Holds;
  }

  lemma AddedAndRemoved<K, V>(m: map<K, V>, k: K, v: V)
    requires k !in m
    ensures m[k := v] - {k} == m
  {
  }

  lemma LinkedOneLess(connections: map<string, Id>, peers: map<Id, Peer>, open: map<Id, string>, next: Id, c: Id,
      key: string)
    requires Linked(connections, peers, open, next) && c in peers && peers[c].key == key
    ensures Holds(connections, key, c) <==> c in open
    ensures c in open ==>
              && open[c] == peers[c].ip && Linked(connections - {key}, peers, open - {c}, next)
              && |connections - {key}| < |connections|
  {
    assert (connections - {key}).Keys == connections.Keys - {key};
  }

  class Guard {
    const maxPerIP: int
    const maxGlobal: int
    var connections: map<string, Id>
    var byIP: map<string, nat>
    var next: Id
    /** Who each connection handed out is for, and the open ones with their
        addresses. */
    ghost var peers: map<Id, Peer>
    ghost var open: map<Id, string>

    ghost predicate Valid()
      reads this
    {
      && 1 <= maxPerIP && |connections| <= maxGlobal && Counts(byIP, open) && Capped(byIP, maxPerIP)
      && Linked(connections, peers, open, next)
    }

    /** Missing caps fall back to 32 per address and 512 in all. */
    constructor (perIP: int, global: int)
      ensures Valid() && connections == map[] && open == map[] && peers == map[]
      ensures maxPerIP == (if perIP < 1 then 32 else perIP) && maxGlobal == if global < 1 then 512 else global
    {
      maxPerIP := if perIP < 1 then 32 else perIP;
      maxGlobal := if global < 1 then 512 else global;
      connections, byIP, next, peers, open := map[], map[], 0, map[], map[];
      new;
      CountsNothing(open);
    }

    /** Room for a new connection under both caps and a key nobody holds. */
    predicate Room(ip: string, key: string)
      reads this
    {
      |connections| < maxGlobal && Count(byIP, ip) < maxPerIP && key !in connections
    }

    /** Registers a connection if there is room. When its deadline cannot be set
        it is closed again, and the guard is as before. */
    method Admit(ip: string, key: string, deadlineFails: bool) returns (conn: Option<GuardedConn>)
      requires Valid()
      modifies this
      ensures Valid()
      ensures conn.Some? <==> old(Room(ip, key)) && !deadlineFails
      ensures conn.Some? <==>
                && |old(connections)| < maxGlobal && |From(old(open), ip)| < maxPerIP && key !in old(connections)
                && !deadlineFails
      ensures conn.None? ==> connections == old(connections) && byIP == old(byIP) && open == old(open)
      ensures conn.Some? ==>
                && fresh(conn.value) && conn.value.Valid() && conn.value.guard == this && !conn.value.closed
                && conn.value.id !in old(peers) && conn.value.key == key && conn.value.ip == ip
                && open == old(open)[conn.value.id := ip] && connections == old(connections)[key := conn.value.id]
    {
      if |connections| >= maxGlobal || Count(byIP, ip) >= maxPerIP {
        return None;
      }
      if key in connections {
        return None;
      }
      AllPositive(byIP, open);
      hide Counts, Capped, Incremented, Decremented, Linked, Positive;
      ghost var before, beforeOpen, counts := connections, open, byIP;
      var c := Register(ip, key);
      if !deadlineFails {
        return Some(c);
      }
      c.Close();
      Undone(counts, ip);
      AddedAndRemoved(before, key, c.id);
      AddedAndRemoved(beforeOpen, c.id, ip);
      return None;
    }

    static predicate Positive(byIP: map<string, nat>) {
      forall ip :: ip in byIP ==> byIP[ip] > 0
    }

    static lemma AllPositive(byIP: map<string, nat>, live: map<Id, string>)
      requires Counts(byIP, live)
      ensures Positive(byIP)
    {
    }

    static lemma Undone(before: map<string, nat>, ip: string)
      requires Positive(before)
      ensures Decremented(Incremented(before, ip), ip) == before
    {
    }

    method Register(ip: string, key: string) returns (c: GuardedConn)
      requires Valid() && Room(ip, key)
      modifies this
      ensures Valid() && fresh(c) && c.Valid() && c.guard == this && c.key == key && c.ip == ip && !c.closed
      ensures c.id !in old(peers) && c.id !in old(open) && open == old(open)[c.id := ip]
      ensures connections == old(connections)[key := c.id] && byIP == Incremented(old(byIP), ip)
    {
      hide Counts, Capped, Incremented, Linked;
      LinkedOneMore(connections, peers, open, next, key, ip);
      CountsOneMore(byIP, open, next, ip);
      CappedOneMore(byIP, ip, maxPerIP);
      IncrementedIs(byIP, ip);
      connections := connections[key := next];
      byIP := byIP[ip := Count(byIP, ip) + 1];
      peers, open := peers[next := Peer(key, ip)], open[next := ip];
      next := next + 1;
      c := new GuardedConn(this, next - 1, key, ip);
    }

    /** Unregisters a connection, if it is the one registered under its key. */
    method Release(c: Id, key: string, ip: string)
      requires Valid() && c in peers && peers[c] == Peer(key, ip)
      modifies `connections, `byIP, `open
      ensures Valid() && open == old(open) - {c}
      ensures c in old(open) ==> connections == old(connections) - {key} && byIP == Decremented(old(byIP), ip)
      ensures c !in old(open) ==> connections == old(connections) && byIP == old(byIP)
    {
      LinkedOneLess(connections, peers, open, next, c, key);
      hide Counts, Capped, Linked;
      if !(key in connections && connections[key] == c) {
        return;
      }
      CountsOneLess(byIP, open, c);
      CappedOneLess(byIP, ip, maxPerIP);
      DecrementedIs(byIP, ip);
      hide Decremented;
      connections := connections - {key};
      if Count(byIP, ip) <= 1 {
        byIP := byIP - {ip};
      } else {
        byIP := byIP[ip := byIP[ip] - 1];
      }
      open := open - {c};
    }
  }

  class GuardedConn {
    const guard: Guard
    const id: Id
    const key: string
    const ip: string
    var closed: bool

    ghost predicate Valid()
      reads this, guard
    {
      id in guard.peers && guard.peers[id] == Peer(key, ip) && (!closed <==> id in guard.open)
    }

    constructor (guard: Guard, id: Id, key: string, ip: string)
      requires id in guard.peers && guard.peers[id] == Peer(key, ip) && id in guard.open
      ensures Valid() && this.guard == guard && this.id == id && this.key == key && this.ip == ip && !closed
    {
      this.guard, this.id, this.key, this.ip, closed := guard, id, key, ip, false;
    }

    /** Unregisters the connection the first time; later calls change nothing,
        even when the key has been taken again. */
    method Close()
      requires Valid() && guard.Valid()
      modifies this, guard
      ensures Valid() && guard.Valid() && closed && guard.peers == old(guard.peers)
              && guard.open == old(guard.open) - {id}
      ensures old(closed) ==> guard.connections == old(guard.connections) && guard.byIP == old(guard.byIP)
      ensures !old(closed) ==>
                guard.connections == old(guard.connections) - {key} && guard.byIP == Decremented(old(guard.byIP), ip)
    {
      hide Counts, Capped, Decremented, Linked;
      if !closed {
        closed := true;
        guard.Release(id, key, ip);
      }
    }
  }

  /** In every state the guard has an entry for exactly the open connections and
      counts those of each address; when none is open any more, it is empty. */
  lemma OpenConnectionsAreRegistered(g: Guard, ip: string)
    requires g.Valid()
    ensures g.connections.Values == g.open.Keys
    ensures forall key, other :: key in g.connections && other in g.connections && key != other ==>
            g.connections[key] != g.connections[other]
    ensures Count(g.byIP, ip) == |From(g.open, ip)| <= g.maxPerIP && (ip in g.byIP <==> From(g.open, ip) != {})
    ensures g.open == map[] ==> g.connections == map[] && g.byIP == map[]
  {
    forall c | c in g.open ensures c in g.connections.Values {
      assert Holds(g.connections, g.peers[c].key, c);
    }
    if g.open == map[] {
      NobodyLeft(g.byIP, g.open);
    }
  }
}
