/** What whole runs of the lease state machine guarantee: conservation of addresses, the
    exact steps that lose one, exhaustion, session continuity and the routing table. */
module HubRuns {
  import opened Bytes
  import opened Hostname
  import opened HubLease

  const POOL := 253

  function Holders(w: Hub): (s: set<ConnId>) {
    set c | c in w.conns && w.conns[c].lease.Some?
  }

  lemma {:induction false} ExecMore(w: Hub, steps: seq<Step>, st: Step)
    ensures Exec(w, steps + [st]) == Apply(Exec(w, steps), st)
    decreases |steps|
  {
    if steps == [] {
      assert [] + [st] == [st] && [st][1..] == [];
    } else {
      assert (steps + [st])[1..] == steps[1..] + [st];
      ExecMore(Apply(w, steps[0]), steps[1..], st);
    }
  }

  // ---------- conservation ----------

  ghost predicate Conserved(w: Hub) {
    |w.free| + |w.retention| + |Holders(w)| + |w.lost| == POOL
  }

  /** The steps that put a lease out of reach for good. */
  predicate LosesLease(w: Hub, st: Step) {
    match st
    case Handshake(c, _, _) => Holds(w, c)
    case Disconnect(c, _) => Holds(w, c) && w.conns[c].id in w.retention
    case _ => false
  }

  lemma RemoveSize<K, V>(m: map<K, V>, k: K)
    requires k in m
    ensures |m - {k}| == |m| - 1
  {
    assert (m - {k}).Keys == m.Keys - {k};
  }

  lemma AddSize<K, V>(m: map<K, V>, k: K, v: V)
    requires k !in m
    ensures |m[k := v]| == |m| + 1
  {
    assert m[k := v].Keys == m.Keys + {k};
  }

  /** What the counting needs of the lease invariant. */
  ghost predicate NotLost(w: Hub) {
    && (forall c :: Holds(w, c) ==> w.conns[c].lease.value.vip !in w.lost)
    && (forall id :: id in w.retention ==> w.retention[id].lease.vip !in w.lost)
  }

  lemma InvNotLost(w: Hub)
    requires Inv(w)
    ensures NotLost(w)
  {
    var at: map<int, Place> :| Good(w, at);
  }

  lemma LoseHeldCount(w: Hub, c: ConnId)
    requires Conserved(w) && NotLost(w) && Holds(w, c)
    ensures Conserved(LoseHeld(w, c)) && |LoseHeld(w, c).lost| == |w.lost| + 1
  {
    var v := w.conns[c].lease.value;
    AddSize(w.lost, v.vip, v.hostname);
    assert Holders(LoseHeld(w, c)) == Holders(w) - {c};
  }

  lemma OneMoreHolder(w: Hub, w': Hub, c: ConnId, k: Conn)
    requires !Holds(w, c) && w'.conns == w.conns[c := k] && k.lease.Some?
    ensures |Holders(w')| == |Holders(w)| + 1
  {
    assert Holders(w') == Holders(w) + {c};
  }

  lemma TakeRetainedCount(w: Hub, c: ConnId, id: ClientId)
    requires Conserved(w) && c in w.conns && w.conns[c].lease.None? && id in w.retention
    ensures Conserved(TakeRetained(w, c, id)) && TakeRetained(w, c, id).lost == w.lost
  {
    RemoveSize(w.retention, id);
    OneMoreHolder(w, TakeRetained(w, c, id), c, Conn(id, Some(w.retention[id].lease)));
  }

  lemma TakeFreeCount(w: Hub, c: ConnId, id: ClientId, name: string)
    requires Conserved(w) && c in w.conns && w.conns[c].lease.None? && w.free != []
    ensures Conserved(TakeFree(w, c, id, name)) && TakeFree(w, c, id, name).lost == w.lost
  {
    OneMoreHolder(w, TakeFree(w, c, id, name), c, TakeFree(w, c, id, name).conns[c]);
  }

  lemma TakeNothingCount(w: Hub, c: ConnId, id: ClientId)
    requires Conserved(w) && c in w.conns && w.conns[c].lease.None?
    ensures Conserved(w.(conns := w.conns[c := Conn(id, None)]))
  {
    assert Holders(w.(conns := w.conns[c := Conn(id, None)])) == Holders(w);
  }

  lemma LoseHeldSame(w: Hub, c: ConnId)
    requires Conserved(w) && NotLost(w) && c in w.conns
    ensures Conserved(LoseHeld(w, c)) && |LoseHeld(w, c).lost| == |w.lost| + if Holds(w, c) then 1 else 0
  {
    if Holds(w, c) { LoseHeldCount(w, c); } else { assert LoseHeld(w, c).conns == w.conns; }
  }

  lemma HandshakeCount(w: Hub, c: ConnId, id: ClientId, name: string)
    requires Conserved(w) && NotLost(w) && c in w.conns
    ensures Conserved(DoHandshake(w, c, id, name))
    ensures |DoHandshake(w, c, id, name).lost| == |w.lost| + if Holds(w, c) then 1 else 0
  {
    HandshakeMoves(w, c, id, name);
    var v := LoseHeld(w, c);
    LoseHeldSame(w, c);
    if id in w.retention { TakeRetainedCount(v, c, id); return; }
    if w.free != [] { TakeFreeCount(v, c, id, name); return; }
    TakeNothingCount(v, c, id);
  }

  lemma LoseRetainedCount(w: Hub, id: ClientId)
    requires Conserved(w) && NotLost(w) && id in w.retention
    ensures Conserved(LoseRetained(w, id)) && |LoseRetained(w, id).lost| == |w.lost| + 1
  {
    var l := w.retention[id].lease;
    AddSize(w.lost, l.vip, l.hostname);
    RemoveSize(w.retention, id);
    assert Holders(LoseRetained(w, id)) == Holders(w);
  }

  lemma RetainCount(w: Hub, c: ConnId, expiry: int)
    requires Conserved(w) && Holds(w, c) && w.conns[c].id !in w.retention
    ensures Conserved(Retain(w, c, expiry))
  {
    var k := w.conns[c];
    AddSize(w.retention, k.id, Offline(k.lease.value, expiry));
    assert Holders(Retain(w, c, expiry)) == Holders(w) - {c};
  }

  lemma DisconnectCount(w: Hub, c: ConnId, expiry: int)
    requires Conserved(w) && NotLost(w) && Holds(w, c)
    ensures Conserved(DoDisconnect(w, c, expiry))
    ensures |DoDisconnect(w, c, expiry).lost| == |w.lost| + if w.conns[c].id in w.retention then 1 else 0
  {
    DisconnectMoves(w, c, expiry);
    var id := w.conns[c].id;
    if id in w.retention {
      LoseRetainedCount(w, id);
      RetainCount(LoseRetained(w, id), c, expiry);
    } else {
      RetainCount(w, c, expiry);
    }
  }

  lemma ExpireCount(w: Hub, id: ClientId, now: int)
    requires Conserved(w)
    ensures Conserved(Apply(w, Expire(id, now))) && Apply(w, Expire(id, now)).lost == w.lost
  {
    if id in w.retention { RemoveSize(w.retention, id); }
    assert Holders(Apply(w, Expire(id, now))) == Holders(w);
  }

  lemma IdleCount(w: Hub, w': Hub)
    requires Conserved(w) && w' == w.(conns := w'.conns)
    requires forall c :: Holds(w', c) == Holds(w, c)
    ensures Conserved(w')
  {
    assert forall c :: c in Holders(w) <==> Holds(w, c);
    assert forall c :: c in Holders(w') <==> Holds(w', c);
    assert Holders(w') == Holders(w);
  }

  lemma ConnectCount(w: Hub, c: ConnId)
    requires Conserved(w)
    ensures Conserved(Apply(w, Connect(c))) && Apply(w, Connect(c)).lost == w.lost
  {
    if c !in w.conns { IdleCount(w, Apply(w, Connect(c))); }
  }

  lemma IdleDisconnectCount(w: Hub, c: ConnId, expiry: int)
    requires Conserved(w) && !Holds(w, c)
    ensures Conserved(Apply(w, Disconnect(c, expiry))) && Apply(w, Disconnect(c, expiry)).lost == w.lost
  {
    if c in w.conns { IdleCount(w, Apply(w, Disconnect(c, expiry))); }
  }

  lemma ConservedStep(w: Hub, st: Step)
    requires Conserved(w) && NotLost(w)
    ensures Conserved(Apply(w, st))
    ensures |Apply(w, st).lost| == |w.lost| + if LosesLease(w, st) then 1 else 0
  {
    match st
    case Connect(c) => ConnectCount(w, c);
    case Handshake(c, id, name) => if c in w.conns { HandshakeCount(w, c, id, name); }
    case Disconnect(c, expiry) =>
      if Holds(w, c) { DisconnectCount(w, c, expiry); } else { IdleDisconnectCount(w, c, expiry); }
    case Expire(id, now) => ExpireCount(w, id, now);
  }

  function LostSteps(w: Hub, steps: seq<Step>): (n: nat)
    decreases |steps|
  {
    if steps == [] then 0
    else (if LosesLease(w, steps[0]) then 1 else 0) + LostSteps(Apply(w, steps[0]), steps[1..])
  }

  lemma {:induction false} CountRun(w: Hub, steps: seq<Step>)
    requires Inv(w) && Conserved(w)
    ensures Conserved(Exec(w, steps)) && |Exec(w, steps).lost| == |w.lost| + LostSteps(w, steps)
    decreases |steps|
  {
    if steps != [] {
      InvNotLost(w);
      InvStep(w, steps[0]);
      ConservedStep(w, steps[0]);
      CountRun(Apply(w, steps[0]), steps[1..]);
    }
  }

  /** In every run the addresses 2 to 254 are the free, retained, held and lost ones, 253 in all; the lost
      ones are exactly as many as the steps that handshake over a held lease or disconnect over a
      retained one; and a handshake without a retained lease fails exactly when the other
      three places hold all 253. */
  lemma LeaseConservation(steps: seq<Step>, id: ClientId, name: string)
    ensures var w := Exec(Start, steps);
      && (forall v :: FIRST_HOST <= v <= LAST_HOST <==> Placed(w, v))
      && |w.free| + |w.retention| + |Holders(w)| + |w.lost| == POOL
      && |w.lost| == LostSteps(Start, steps)
      && (Granted(w, id, name).None? <==> id !in w.retention && |w.retention| + |Holders(w)| + |w.lost| == POOL)
  {
    StartInv();
    assert Holders(Start) == {};
    CountRun(Start, steps);
    LeaseSafety(steps);
  }

  lemma Three(w: Hub, x: Step, y: Step, z: Step)
    ensures Exec(w, [x, y, z]) == Apply(Apply(Apply(w, x), y), z)
  {
    assert [x, y, z][1..] == [y, z] && [y, z][1..] == [z] && [z][1..] == [];
    assert Exec(Apply(Apply(w, x), y), [z]) == Exec(Apply(Apply(Apply(w, x), y), z), []);
  }

  /** Two connections under one client ID: when the second disconnects as well, its lease takes
      the place of the first in retention, and the first address is lost. */
  lemma RetainedLost(id: ClientId, name: string, other: string, e: int, f: int)
    ensures var w := Exec(Exec(Start, [Connect(0), Connect(1), Handshake(0, id, name)]),
                          [Handshake(1, id, other), Disconnect(0, e), Disconnect(1, f)]);
      2 in w.lost && id in w.retention && w.retention[id].lease.vip == 3
  {
    Three(Start, Connect(0), Connect(1), Handshake(0, id, name));
    var w0 := Apply(Apply(Start, Connect(0)), Connect(1));
    var w1 := Apply(w0, Handshake(0, id, name));
    Three(w1, Handshake(1, id, other), Disconnect(0, e), Disconnect(1, f));
    assert Start.free[252] == 2 && Start.free[251] == 3;
    assert Granted(w0, id, name).value.vip == 2;
    assert w1.free == Start.free[..252] && w1.conns[0].lease.value.vip == 2 && w1.conns[0].id == id;
    var w2 := Apply(w1, Handshake(1, id, other));
    assert Granted(w1, id, other).value.vip == 3 && w2.conns[0] == w1.conns[0];
    var w3 := Apply(w2, Disconnect(0, e));
    assert id in w3.retention && w3.retention[id].lease.vip == 2 && w3.conns[1].lease.value.vip == 3;
  }

  /** A connection that handshakes twice loses its first address, which stays in the router
      although no connection holds it. */
  lemma AddressLost(id: ClientId, again: ClientId, name: string, other: string)
    ensures var w := Exec(Start, [Connect(0), Handshake(0, id, name), Handshake(0, again, other)]);
      2 in w.lost && 2 in w.router && !RouterExact(w)
  {
    Three(Start, Connect(0), Handshake(0, id, name), Handshake(0, again, other));
    var w1 := Apply(Start, Connect(0));
    var w2 := Apply(w1, Handshake(0, id, name));
    assert Start.free[252] == 2 && Start.free[251] == 3;
    assert Granted(w1, id, name).value.vip == 2;
    assert w2.free == Start.free[..252] && w2.conns[0].lease.value.vip == 2;
  }

  // ---------- runs that lose nothing ----------

  /** One handshake per connection, and no client ID in use on another live connection. */
  predicate Disciplined(w: Hub, st: Step) {
    match st
    case Handshake(c, id, _) => !Holds(w, c) && forall d :: d in w.conns && Holds(w, d) ==> w.conns[d].id != id
    case _ => true
  }

  predicate DisciplinedRun(w: Hub, steps: seq<Step>)
    decreases |steps|
  {
    steps == [] || (Disciplined(w, steps[0]) && DisciplinedRun(Apply(w, steps[0]), steps[1..]))
  }

  ghost predicate Tidy(w: Hub) {
    && w.lost == map[]
    && (forall c :: Holds(w, c) ==> w.conns[c].id !in w.retention)
    && (forall c, d :: Holds(w, c) && Holds(w, d) && c != d ==> w.conns[c].id != w.conns[d].id)
  }

  lemma TidyStep(w: Hub, st: Step)
    requires Tidy(w) && Disciplined(w, st)
    ensures Tidy(Apply(w, st))
  {
    var w' := Apply(w, st);
    assert forall c :: Holds(w', c) ==>
      (Holds(w, c) && w'.conns[c] == w.conns[c]) || (st.Handshake? && st.c == c && w'.conns[c].id == st.id);
  }

  lemma {:induction false} TidyRun(w: Hub, steps: seq<Step>)
    requires Tidy(w) && DisciplinedRun(w, steps)
    ensures Tidy(Exec(w, steps))
    decreases |steps|
  {
    if steps != [] {
      TidyStep(w, steps[0]);
      TidyRun(Apply(w, steps[0]), steps[1..]);
    }
  }

  /** Such runs lose nothing, so they run dry exactly when 253 clients are held or retained. */
  lemma NothingLost(steps: seq<Step>, id: ClientId, name: string)
    requires DisciplinedRun(Start, steps)
    ensures var w := Exec(Start, steps);
      && w.lost == map[]
      && (Granted(w, id, name).None? <==> id !in w.retention && |w.retention| + |Holders(w)| == POOL)
  {
    TidyRun(Start, steps);
    LeaseConservation(steps, id, name);
  }

  // ---------- continuity ----------

  /** No step is a handshake under `id`, or a sweep of it later than `expiry`. */
  predicate Undisturbed(steps: seq<Step>, id: ClientId, expiry: int) {
    forall i :: 0 <= i < |steps| ==>
      (steps[i].Handshake? ==> steps[i].id != id) && (steps[i].Expire? && steps[i].id == id ==> steps[i].now <= expiry)
  }

  ghost predicate Waiting(w: Hub, id: ClientId, o: Offline) {
    id in w.retention && w.retention[id] == o && forall c :: Holds(w, c) ==> w.conns[c].id != id
  }

  lemma {:induction false} WaitingRun(w: Hub, steps: seq<Step>, id: ClientId, o: Offline)
    requires Waiting(w, id, o) && Undisturbed(steps, id, o.expiry)
    ensures Waiting(Exec(w, steps), id, o)
    decreases |steps|
  {
    if steps != [] {
      assert Waiting(Apply(w, steps[0]), id, o);
      WaitingRun(Apply(w, steps[0]), steps[1..], id, o);
    }
  }

  /** A disconnect retains the connection's lease under its id until `expiry`, and no other. */
  lemma DisconnectRetains(w: Hub, c: ConnId, expiry: int)
    requires c in w.conns
    ensures var k := w.conns[c];
      Apply(w, Disconnect(c, expiry)).retention ==
        if k.lease.Some? then w.retention[k.id := Offline(k.lease.value, expiry)] else w.retention
  {
  }

  lemma LeaseWaits(w: Hub, c: ConnId, expiry: int, steps: seq<Step>)
    requires Holds(w, c)
    requires forall d :: Holds(w, d) && d != c ==> w.conns[d].id != w.conns[c].id
    requires Undisturbed(steps, w.conns[c].id, expiry)
    ensures Waiting(Exec(Apply(w, Disconnect(c, expiry)), steps), w.conns[c].id, Offline(w.conns[c].lease.value, expiry))
  {
    var w1 := Apply(w, Disconnect(c, expiry));
    assert Waiting(w1, w.conns[c].id, Offline(w.conns[c].lease.value, expiry));
    WaitingRun(w1, steps, w.conns[c].id, Offline(w.conns[c].lease.value, expiry));
  }

  /** Whatever the others do meanwhile, and with any sweeps up to the expiry that the disconnect
      set, a client that comes back gets its address and name. */
  lemma SessionContinuity(w: Hub, c: ConnId, expiry: int, steps: seq<Step>, again: ConnId, name: string)
    requires Holds(w, c)
    requires forall d :: Holds(w, d) && d != c ==> w.conns[d].id != w.conns[c].id
    requires Undisturbed(steps, w.conns[c].id, expiry)
    requires again in Exec(Apply(w, Disconnect(c, expiry)), steps).conns
    ensures Apply(Exec(Apply(w, Disconnect(c, expiry)), steps), Handshake(again, w.conns[c].id, name)).conns[again].lease
      == w.conns[c].lease
  {
    LeaseWaits(w, c, expiry, steps);
  }

  /** A sweep past that expiry gives the address back to the top of the stack, where the next new
      client finds it, and takes the name out of the table. */
  lemma LeaseLapses(w: Hub, c: ConnId, expiry: int, steps: seq<Step>, now: int, other: ClientId, name: string)
    requires Holds(w, c)
    requires forall d :: Holds(w, d) && d != c ==> w.conns[d].id != w.conns[c].id
    requires Undisturbed(steps, w.conns[c].id, expiry) && now > expiry
    ensures var w2 := Exec(Apply(w, Disconnect(c, expiry)), steps);
      var w3, l := Apply(w2, Expire(w.conns[c].id, now)), w.conns[c].lease.value;
      && w.conns[c].id !in w3.retention && l.hostname !in w3.dns && w3.conns == w2.conns
      && w3.free == w2.free + [l.vip]
      && (other !in w3.retention ==> Granted(w3, other, name).Some? && Granted(w3, other, name).value.vip == l.vip)
  {
    LeaseWaits(w, c, expiry, steps);
  }

  // ---------- what a handshake obtains ----------

  ghost predicate Numbered(n: string, wanted: string, taken: set<string>, k: nat) {
    && k >= 1 && n == wanted + "-" + Itoa(k) && n !in taken
    && (forall j: nat :: 1 <= j < k ==> wanted + "-" + Itoa(j) in taken)
  }

  /** `n` is the wanted name, or that with the least number from 1 on that makes it free. */
  ghost predicate NamedAfter(n: string, wanted: string, taken: set<string>) {
    if wanted !in taken then n == wanted else exists k: nat :: Numbered(n, wanted, taken, k)
  }

  lemma UniqueNamed(wanted: string, taken: set<string>)
    ensures NamedAfter(Unique(wanted, taken), wanted, taken)
  {
    if wanted in taken {
      var h := Unique(wanted, taken);
      var k: nat :| Probed(wanted, taken, k) && k <= |taken| && h == Candidate(wanted, k);
      forall j: nat | 1 <= j < k ensures wanted + "-" + Itoa(j) in taken { assert Candidate(wanted, j) in taken; }
      assert Numbered(h, wanted, taken, k);
    }
  }

  /** What connection `c` has after a handshake that found `id` not retained. */
  ghost predicate NewLease(w: Hub, w': Hub, c: ConnId, name: string)
    requires c in w'.conns
  {
    var l := w'.conns[c].lease;
    if w.free == [] then w'.free == [] && l == None
    else l.Some? && w.free == w'.free + [l.value.vip] && NamedAfter(l.value.hostname, name, w.dns.Keys)
  }

  /** A retained lease if there is one, else the top address of the stack under a name made from
      the wanted one, else nothing; no other connection, and no other retained lease, changes. */
  lemma HandshakeExact(w: Hub, c: ConnId, id: ClientId, name: string)
    requires c in w.conns
    ensures var w' := Apply(w, Handshake(c, id, name));
      && c in w'.conns && w'.conns == w.conns[c := w'.conns[c]] && w'.conns[c].id == id
      && w'.retention == w.retention - {id}
      && (id in w.retention ==> w'.free == w.free && w'.conns[c].lease == Some(w.retention[id].lease))
      && (id !in w.retention ==> NewLease(w, w', c, name))
  {
    UniqueNamed(name, w.dns.Keys);
  }

  // ---------- the routing table ----------

  /** The published table maps exactly the held addresses to their holders. */
  ghost predicate RouterExact(w: Hub) {
    && (forall v :: v in w.router ==> Holds(w, w.router[v]) && w.conns[w.router[v]].lease.value.vip == v)
    && (forall c :: Holds(w, c) ==> w.conns[c].lease.value.vip in w.router && w.router[w.conns[c].lease.value.vip] == c)
  }

  /** What the router needs of the lease invariant. */
  ghost predicate Separate(w: Hub) {
    && (forall c, d :: Holds(w, c) && Holds(w, d) && c != d ==> w.conns[c].lease.value.vip != w.conns[d].lease.value.vip)
    && (forall c, id :: Holds(w, c) && id in w.retention ==> w.conns[c].lease.value.vip != w.retention[id].lease.vip)
    && (forall c, k :: Holds(w, c) && 0 <= k < |w.free| ==> w.conns[c].lease.value.vip != w.free[k])
  }

  lemma InvSeparate(w: Hub)
    requires Inv(w)
    ensures Separate(w)
  {
    var at: map<int, Place> :| Good(w, at);
  }

  lemma RouterSecondHandshake(w: Hub, c: ConnId, id: ClientId, name: string)
    requires Separate(w) && RouterExact(w) && Holds(w, c)
    ensures !RouterExact(DoHandshake(w, c, id, name))
  {
    var w', v := DoHandshake(w, c, id, name), w.conns[c].lease.value.vip;
    assert v in w'.router && w'.router[v] == c;
    assert Holds(w', c) ==> w'.conns[c].lease.value.vip != v;
  }

  lemma RouterFirstHandshake(w: Hub, c: ConnId, id: ClientId, name: string)
    requires Separate(w) && RouterExact(w) && c in w.conns && !Holds(w, c)
    ensures RouterExact(DoHandshake(w, c, id, name))
  {
    var w', l := DoHandshake(w, c, id, name), Granted(w, id, name);
    assert forall d :: Holds(w', d) && d != c ==> Holds(w, d) && w'.conns[d] == w.conns[d];
    assert forall d :: Holds(w, d) ==> d != c && Holds(w', d);
    if l.Some? {
      assert forall d :: Holds(w, d) ==> w.conns[d].lease.value.vip != l.value.vip;
    }
  }

  lemma RouterDisconnect(w: Hub, c: ConnId, expiry: int)
    requires Separate(w) && RouterExact(w) && c in w.conns
    ensures RouterExact(DoDisconnect(w, c, expiry))
  {
    var w' := DoDisconnect(w, c, expiry);
    assert forall d :: Holds(w', d) ==> Holds(w, d) && d != c;
  }

  lemma RouterIdle(w: Hub, w': Hub)
    requires RouterExact(w) && w'.router == w.router
    requires forall c :: Holds(w, c) || Holds(w', c) ==> Holds(w, c) && Holds(w', c) && w'.conns[c] == w.conns[c]
    ensures RouterExact(w')
  {
  }

  /** From an exact table, a step publishes an exact table if and only if it is not a second
      handshake on a connection that holds an address. */
  lemma RouterStep(w: Hub, st: Step)
    requires Separate(w) && RouterExact(w)
    ensures RouterExact(Apply(w, st)) <==> !(st.Handshake? && Holds(w, st.c))
  {
    match st
    case Connect(c) => RouterIdle(w, Apply(w, st));
    case Handshake(c, id, name) =>
      if Holds(w, c) { RouterSecondHandshake(w, c, id, name); }
      else if c in w.conns { RouterFirstHandshake(w, c, id, name); }
    case Disconnect(c, expiry) => if c in w.conns { RouterDisconnect(w, c, expiry); }
    case Expire(id, now) => RouterIdle(w, Apply(w, st));
  }

  // ---------- the table in every run ----------

  /** Every published address is held or lost. */
  ghost predicate NoneUnknown(w: Hub) {
    forall v :: v in w.router ==> v in w.lost || exists c :: Holds(w, c) && w.conns[c].lease.value.vip == v
  }

  /** Every held address is published for its holder. */
  ghost predicate AllRouted(w: Hub) {
    forall c :: Holds(w, c) ==> w.conns[c].lease.value.vip in w.router && w.router[w.conns[c].lease.value.vip] == c
  }

  ghost predicate RouterKnown(w: Hub) {
    NoneUnknown(w) && AllRouted(w)
  }

  lemma HandshakeKnown(w: Hub, c: ConnId, id: ClientId, name: string)
    requires NoneUnknown(w) && c in w.conns
    ensures NoneUnknown(DoHandshake(w, c, id, name))
  {
    var w', l := DoHandshake(w, c, id, name), Granted(w, id, name);
    forall v | v in w'.router ensures v in w'.lost || exists d :: Holds(w', d) && w'.conns[d].lease.value.vip == v {
      if l.Some? && v == l.value.vip {
        assert Holds(w', c);
      } else if v !in w.lost {
        var d :| Holds(w, d) && w.conns[d].lease.value.vip == v;
        assert d != c ==> Holds(w', d);
      }
    }
  }

  lemma HandshakeRouted(w: Hub, c: ConnId, id: ClientId, name: string)
    requires Separate(w) && AllRouted(w) && c in w.conns
    ensures AllRouted(DoHandshake(w, c, id, name))
  {
    var w', l := DoHandshake(w, c, id, name), Granted(w, id, name);
    forall d | Holds(w', d) ensures w'.conns[d].lease.value.vip in w'.router && w'.router[w'.conns[d].lease.value.vip] == d {
      if d != c {
        assert Holds(w, d) && w'.conns[d] == w.conns[d];
        assert l.Some? ==> w.conns[d].lease.value.vip != l.value.vip;
      }
    }
  }

  lemma DisconnectKnown(w: Hub, c: ConnId, expiry: int)
    requires Separate(w) && RouterKnown(w) && c in w.conns
    ensures RouterKnown(DoDisconnect(w, c, expiry))
  {
    var w' := DoDisconnect(w, c, expiry);
    forall v | v in w'.router ensures v in w'.lost || exists d :: Holds(w', d) && w'.conns[d].lease.value.vip == v {
      if v !in w.lost {
        var d :| Holds(w, d) && w.conns[d].lease.value.vip == v;
        assert Holds(w', d);
      }
    }
    assert forall d :: Holds(w', d) ==> Holds(w, d) && d != c;
  }

  lemma KnownStep(w: Hub, st: Step)
    requires Separate(w) && RouterKnown(w)
    ensures RouterKnown(Apply(w, st))
  {
    match st
    case Connect(c) => IdleKnown(w, Apply(w, st));
    case Handshake(c, id, name) => if c in w.conns {
        HandshakeKnown(w, c, id, name);
        HandshakeRouted(w, c, id, name);
      }
    case Disconnect(c, expiry) => if c in w.conns { DisconnectKnown(w, c, expiry); }
    case Expire(id, now) => IdleKnown(w, Apply(w, st));
  }

  lemma IdleKnown(w: Hub, w': Hub)
    requires RouterKnown(w) && w'.router == w.router && w'.lost == w.lost
    requires forall c :: Holds(w, c) || Holds(w', c) ==> Holds(w, c) && Holds(w', c) && w'.conns[c] == w.conns[c]
    ensures RouterKnown(w')
  {
    forall v | v in w'.router ensures v in w'.lost || exists d :: Holds(w', d) && w'.conns[d].lease.value.vip == v {
      if v !in w.lost {
        var d :| Holds(w, d) && w.conns[d].lease.value.vip == v;
        assert Holds(w', d);
      }
    }
  }

  lemma {:induction false} KnownRun(w: Hub, steps: seq<Step>)
    requires Inv(w) && RouterKnown(w)
    ensures RouterKnown(Exec(w, steps))
    decreases |steps|
  {
    if steps != [] {
      InvSeparate(w);
      InvStep(w, steps[0]);
      KnownStep(w, steps[0]);
      KnownRun(Apply(w, steps[0]), steps[1..]);
    }
  }

  /** In every run, second handshakes and shared client IDs included: each held address is
      published for its holder, and any other published address is a lost one. */
  lemma RouterCovers(steps: seq<Step>)
    ensures var w := Exec(Start, steps);
      && (forall c :: Holds(w, c) ==> w.conns[c].lease.value.vip in w.router && w.router[w.conns[c].lease.value.vip] == c)
      && (forall v :: v in w.router ==> v in w.lost || exists c :: Holds(w, c) && w.conns[c].lease.value.vip == v)
  {
    StartInv();
    KnownRun(Start, steps);
  }

  /** So the address that a handshake obtains is neither published nor held already. */
  lemma GrantedUnrouted(w: Hub, id: ClientId, name: string)
    requires Inv(w) && RouterKnown(w) && Granted(w, id, name).Some?
    ensures Granted(w, id, name).value.vip !in w.router
    ensures forall c :: Holds(w, c) ==> w.conns[c].lease.value.vip != Granted(w, id, name).value.vip
  {
    Disjoint(w);
    var l := Granted(w, id, name).value;
    assert id !in w.retention ==> l.vip in w.free;
  }

  predicate SingleHandshakes(w: Hub, steps: seq<Step>)
    decreases |steps|
  {
    steps == [] ||
      (!(steps[0].Handshake? && Holds(w, steps[0].c)) && SingleHandshakes(Apply(w, steps[0]), steps[1..]))
  }

  lemma {:induction false} RouterRun(w: Hub, steps: seq<Step>)
    requires Inv(w) && RouterExact(w) && SingleHandshakes(w, steps)
    ensures RouterExact(Exec(w, steps))
    decreases |steps|
  {
    if steps != [] {
      InvSeparate(w);
      InvStep(w, steps[0]);
      RouterStep(w, steps[0]);
      RouterRun(Apply(w, steps[0]), steps[1..]);
    }
  }

  /** With one handshake per connection, shared client IDs or not, the table is always exact. */
  lemma RouterRefinement(steps: seq<Step>)
    requires SingleHandshakes(Start, steps)
    ensures RouterExact(Exec(Start, steps))
  {
    StartInv();
    RouterRun(Start, steps);
  }
}
