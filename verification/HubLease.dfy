/** The server's lease state machine: handshake, disconnect into retention, reconnect and
    expiry, with the DNS table and the router that follow it.  A handshake or a disconnect is
    one step. */
module HubLease {
  import opened Bytes
  import opened Hostname

  type ConnId = nat
  /** The 16 random bytes a client keeps across reconnects. */
  type ClientId = k: seq<byte> | |k| == 16 witness [0, 0, 0, 0, 0, 0, 0, 0, 0, 0, 0, 0, 0, 0, 0, 0]
  const ZERO_ID: ClientId := [0, 0, 0, 0, 0, 0, 0, 0, 0, 0, 0, 0, 0, 0, 0, 0]

  /** Host numbers 10.0.6.2 to 10.0.6.254. */
  const FIRST_HOST := 2
  const LAST_HOST := 254

  datatype Lease = Lease(vip: int, hostname: string)
  datatype Conn = Conn(id: ClientId, lease: Option<Lease>)
  datatype Offline = Offline(lease: Lease, expiry: int)

  /** `lost` is history only: leases that no connection and no retention entry names any more. */
  datatype Hub = Hub(
    free: seq<int>, retention: map<ClientId, Offline>, conns: map<ConnId, Conn>,
    dns: map<string, int>, router: map<int, ConnId>, lost: map<int, string>)

  function FreeStack(low: int, high: int): (s: seq<int>)
    requires low <= high + 1
    ensures |s| == high + 1 - low
    ensures forall k :: 0 <= k < |s| ==> s[k] == high - k
    decreases high - low
  {
    if low > high then [] else [high] + FreeStack(low, high - 1)
  }

  const Start: Hub := Hub(FreeStack(FIRST_HOST, LAST_HOST), map[], map[], map[], map[], map[])

  datatype Step =
    | Connect(c: ConnId)
    | Handshake(c: ConnId, id: ClientId, name: string)
    | Disconnect(c: ConnId, expiry: int)
    | Expire(id: ClientId, now: int)

  function Lose(lost: map<int, string>, l: Option<Lease>): map<int, string> {
    if l.Some? then lost[l.value.vip := l.value.hostname] else lost
  }

  /** The lease a handshake obtains: the retained one, else the top of the stack, else none. */
  function Granted(w: Hub, id: ClientId, name: string): (l: Option<Lease>) {
    if id in w.retention then Some(w.retention[id].lease)
    else if w.free == [] then None
    else Some(Lease(w.free[|w.free| - 1], Unique(name, w.dns.Keys)))
  }

  function DoHandshake(w: Hub, c: ConnId, id: ClientId, name: string): Hub
    requires c in w.conns
  {
    var l := Granted(w, id, name);
    Hub(if id in w.retention || w.free == [] then w.free else w.free[..|w.free| - 1],
        w.retention - {id},
        w.conns[c := Conn(id, l)],
        if l.Some? then w.dns[l.value.hostname := l.value.vip] else w.dns,
        if l.Some? then w.router[l.value.vip := c] else w.router,
        Lose(w.lost, w.conns[c].lease))
  }

  function DoDisconnect(w: Hub, c: ConnId, expiry: int): Hub
    requires c in w.conns
  {
    var k := w.conns[c];
    if k.lease.None? then w.(conns := w.conns - {c}) else
      w.(retention := w.retention[k.id := Offline(k.lease.value, expiry)],
         conns := w.conns - {c},
         router := w.router - {k.lease.value.vip},
         lost := Lose(w.lost, if k.id in w.retention then Some(w.retention[k.id].lease) else None))
  }

  function Apply(w: Hub, st: Step): Hub {
    match st
    case Connect(c) => if c in w.conns then w else w.(conns := w.conns[c := Conn(ZERO_ID, None)])
    case Handshake(c, id, name) => if c in w.conns then DoHandshake(w, c, id, name) else w
    case Disconnect(c, expiry) => if c in w.conns then DoDisconnect(w, c, expiry) else w
    case Expire(id, now) =>
      if id in w.retention && now > w.retention[id].expiry then
        w.(free := w.free + [w.retention[id].lease.vip],
           dns := w.dns - {w.retention[id].lease.hostname},
           retention := w.retention - {id})
      else w
  }

  function Exec(w: Hub, steps: seq<Step>): Hub
    decreases |steps|
  {
    if steps == [] then w else Exec(Apply(w, steps[0]), steps[1..])
  }

  // ---------- where every address is ----------

  datatype Place = InStack(k: nat) | Retained(id: ClientId) | Held(c: ConnId) | Lost

  predicate Holds(w: Hub, c: ConnId) {
    c in w.conns && w.conns[c].lease.Some?
  }

  /** `at` is an inverse of the four places: every address is where `at` says and nowhere else. */
  ghost predicate Located(w: Hub, at: map<int, Place>) {
    && (forall v :: v in at <==> FIRST_HOST <= v <= LAST_HOST)
    && (forall k :: 0 <= k < |w.free| ==> w.free[k] in at && at[w.free[k]] == InStack(k))
    && (forall id :: id in w.retention ==>
          w.retention[id].lease.vip in at && at[w.retention[id].lease.vip] == Retained(id))
    && (forall c :: Holds(w, c) ==> w.conns[c].lease.value.vip in at && at[w.conns[c].lease.value.vip] == Held(c))
    && (forall v :: v in w.lost ==> v in at && at[v] == Lost)
    && (forall v :: v in at ==> Backed(w, v, at[v]))
  }

  predicate Backed(w: Hub, v: int, p: Place) {
    match p
    case InStack(k) => k < |w.free| && w.free[k] == v
    case Retained(id) => id in w.retention && w.retention[id].lease.vip == v
    case Held(c) => Holds(w, c) && w.conns[c].lease.value.vip == v
    case Lost => v in w.lost
  }

  function NameAt(w: Hub, v: int, p: Place): (n: string)
    requires !p.InStack? && Backed(w, v, p)
  {
    match p
    case Retained(id) => w.retention[id].lease.hostname
    case Held(c) => w.conns[c].lease.value.hostname
    case Lost => w.lost[v]
  }

  /** The DNS table is exactly the table of leased names. */
  ghost predicate DnsLocated(w: Hub, at: map<int, Place>)
    requires Located(w, at)
  {
    && (forall v :: v in at && !at[v].InStack? ==> NameAt(w, v, at[v]) in w.dns && w.dns[NameAt(w, v, at[v])] == v)
    && (forall n :: n in w.dns ==> w.dns[n] in at && !at[w.dns[n]].InStack? && NameAt(w, w.dns[n], at[w.dns[n]]) == n)
  }

  ghost predicate Inv(w: Hub) {
    exists at: map<int, Place> :: Good(w, at)
  }

  // ---------- single moves ----------

  /** The lease a connection holds is forgotten. */
  function LoseHeld(w: Hub, c: ConnId): Hub
    requires c in w.conns
  {
    w.(conns := w.conns[c := Conn(w.conns[c].id, None)], lost := Lose(w.lost, w.conns[c].lease))
  }

  function TakeRetained(w: Hub, c: ConnId, id: ClientId): Hub
    requires c in w.conns && id in w.retention
  {
    var l := w.retention[id].lease;
    w.(retention := w.retention - {id}, conns := w.conns[c := Conn(id, Some(l))],
       dns := w.dns[l.hostname := l.vip], router := w.router[l.vip := c])
  }

  function TakeFree(w: Hub, c: ConnId, id: ClientId, name: string): Hub
    requires c in w.conns && w.free != []
  {
    var l := Lease(w.free[|w.free| - 1], Unique(name, w.dns.Keys));
    w.(free := w.free[..|w.free| - 1], conns := w.conns[c := Conn(id, Some(l))],
       dns := w.dns[l.hostname := l.vip], router := w.router[l.vip := c])
  }

  function LoseRetained(w: Hub, id: ClientId): Hub
    requires id in w.retention
  {
    w.(retention := w.retention - {id}, lost := Lose(w.lost, Some(w.retention[id].lease)))
  }

  function Retain(w: Hub, c: ConnId, expiry: int): Hub
    requires Holds(w, c)
  {
    var k := w.conns[c];
    w.(retention := w.retention[k.id := Offline(k.lease.value, expiry)], conns := w.conns - {c},
       router := w.router - {k.lease.value.vip})
  }

  lemma HandshakeMoves(w: Hub, c: ConnId, id: ClientId, name: string)
    requires c in w.conns
    ensures var v := LoseHeld(w, c);
      DoHandshake(w, c, id, name) ==
        if id in w.retention then TakeRetained(v, c, id)
        else if w.free != [] then TakeFree(v, c, id, name)
        else v.(conns := v.conns[c := Conn(id, None)])
  {
    var v := LoseHeld(w, c);
    var l := Granted(w, id, name);
    assert v.conns[c := Conn(id, l)] == w.conns[c := Conn(id, l)];
    if id in w.retention { return; }
    assert w.retention - {id} == w.retention;
    if w.free != [] { return; }
  }

  lemma DisconnectMoves(w: Hub, c: ConnId, expiry: int)
    requires Holds(w, c)
    ensures DoDisconnect(w, c, expiry) ==
      Retain(if w.conns[c].id in w.retention then LoseRetained(w, w.conns[c].id) else w, c, expiry)
  {
  }

  ghost predicate Good(w: Hub, at: map<int, Place>) {
    Located(w, at) && DnsLocated(w, at)
  }

  /** Leases that only change places leave the DNS table as it should be. */
  lemma SameNames(w: Hub, at: map<int, Place>, w': Hub, at': map<int, Place>)
    requires Good(w, at) && Located(w', at') && w'.dns == w.dns
    requires forall x :: x in at ==> at'[x].InStack? == at[x].InStack?
    requires forall x :: x in at && !at[x].InStack? ==> NameAt(w', x, at'[x]) == NameAt(w, x, at[x])
    ensures Good(w', at')
  {
  }

  lemma LoseHeldLocated(w: Hub, at: map<int, Place>, c: ConnId)
    requires Located(w, at) && Holds(w, c)
    ensures Located(LoseHeld(w, c), at[w.conns[c].lease.value.vip := Lost])
  {
    var v := w.conns[c].lease.value.vip;
    var w', at' := LoseHeld(w, c), at[v := Lost];
    assert at[v] == Held(c);
    forall x | x in at' ensures Backed(w', x, at'[x]) {
      assert Backed(w, x, at[x]);
    }
    forall d | Holds(w', d) ensures w'.conns[d].lease.value.vip in at' && at'[w'.conns[d].lease.value.vip] == Held(d) {
      assert d != c && Holds(w, d);
    }
  }

  lemma LoseHeldGood(w: Hub, at: map<int, Place>, c: ConnId) returns (at': map<int, Place>)
    requires Good(w, at) && c in w.conns
    ensures Good(LoseHeld(w, c), at')
  {
    var w' := LoseHeld(w, c);
    if w.conns[c].lease.None? {
      assert w'.conns == w.conns;
      return at;
    }
    at' := at[w.conns[c].lease.value.vip := Lost];
    LoseHeldLocated(w, at, c);
    forall x | x in at ensures at'[x].InStack? == at[x].InStack? && (!at[x].InStack? ==> NameAt(w', x, at'[x]) == NameAt(w, x, at[x])) {
      assert Backed(w, x, at[x]) && Backed(w', x, at'[x]);
    }
    SameNames(w, at, w', at');
  }

  lemma TakeRetainedLocated(w: Hub, at: map<int, Place>, c: ConnId, id: ClientId)
    requires Located(w, at) && c in w.conns && w.conns[c].lease.None? && id in w.retention
    ensures Located(TakeRetained(w, c, id), at[w.retention[id].lease.vip := Held(c)])
  {
    var v := w.retention[id].lease.vip;
    var w', at' := TakeRetained(w, c, id), at[v := Held(c)];
    assert at[v] == Retained(id) && w'.free == w.free;
    forall x | x in at' ensures Backed(w', x, at'[x]) {
      assert Backed(w, x, at[x]);
    }
    forall d | Holds(w', d) ensures w'.conns[d].lease.value.vip in at' && at'[w'.conns[d].lease.value.vip] == Held(d) {
      assert d != c ==> Holds(w, d);
    }
  }

  lemma TakeRetainedGood(w: Hub, at: map<int, Place>, c: ConnId, id: ClientId) returns (at': map<int, Place>)
    requires Good(w, at) && c in w.conns && w.conns[c].lease.None? && id in w.retention
    ensures Good(TakeRetained(w, c, id), at')
  {
    var w', v := TakeRetained(w, c, id), w.retention[id].lease.vip;
    at' := at[v := Held(c)];
    TakeRetainedLocated(w, at, c, id);
    assert at[v] == Retained(id) && NameAt(w, v, at[v]) == w.retention[id].lease.hostname;
    assert w'.dns == w.dns;
    forall x | x in at ensures at'[x].InStack? == at[x].InStack? && (!at[x].InStack? ==> NameAt(w', x, at'[x]) == NameAt(w, x, at[x])) {
      assert Backed(w, x, at[x]) && Backed(w', x, at'[x]);
    }
    SameNames(w, at, w', at');
  }

  lemma TakeFreeLocated(w: Hub, at: map<int, Place>, c: ConnId, id: ClientId, name: string)
    requires Located(w, at) && c in w.conns && w.conns[c].lease.None? && w.free != []
    ensures Located(TakeFree(w, c, id, name), at[w.free[|w.free| - 1] := Held(c)])
  {
    var v := w.free[|w.free| - 1];
    var w', at' := TakeFree(w, c, id, name), at[v := Held(c)];
    assert at[v] == InStack(|w.free| - 1);
    forall x | x in at' ensures Backed(w', x, at'[x]) {
      assert Backed(w, x, at[x]);
    }
    forall d | Holds(w', d) ensures w'.conns[d].lease.value.vip in at' && at'[w'.conns[d].lease.value.vip] == Held(d) {
      assert d != c ==> Holds(w, d);
    }
  }

  /** One free address is leased under a new name, the others stay. */
  lemma OneNameMore(w: Hub, at: map<int, Place>, w': Hub, at': map<int, Place>, v: int)
    requires Good(w, at) && Located(w', at') && v in at && at[v].InStack? && !at'[v].InStack?
    requires NameAt(w', v, at'[v]) !in w.dns && w'.dns == w.dns[NameAt(w', v, at'[v]) := v]
    requires forall x :: x in at && x != v ==> at'[x].InStack? == at[x].InStack?
    requires forall x :: x in at && x != v && !at[x].InStack? ==> NameAt(w', x, at'[x]) == NameAt(w, x, at[x])
    ensures Good(w', at')
  {
  }

  lemma TakeFreeGood(w: Hub, at: map<int, Place>, c: ConnId, id: ClientId, name: string) returns (at': map<int, Place>)
    requires Good(w, at) && c in w.conns && w.conns[c].lease.None? && w.free != []
    ensures Good(TakeFree(w, c, id, name), at')
  {
    var w', v := TakeFree(w, c, id, name), w.free[|w.free| - 1];
    at' := at[v := Held(c)];
    TakeFreeLocated(w, at, c, id, name);
    forall x | x in at' && x != v && !at[x].InStack? ensures NameAt(w', x, at'[x]) == NameAt(w, x, at[x]) {
      assert Backed(w, x, at[x]) && Backed(w', x, at'[x]);
    }
    OneNameMore(w, at, w', at', v);
  }

  lemma LoseRetainedLocated(w: Hub, at: map<int, Place>, id: ClientId)
    requires Located(w, at) && id in w.retention
    ensures Located(LoseRetained(w, id), at[w.retention[id].lease.vip := Lost])
  {
    var v := w.retention[id].lease.vip;
    var w', at' := LoseRetained(w, id), at[v := Lost];
    assert at[v] == Retained(id);
    forall x | x in at' ensures Backed(w', x, at'[x]) {
      assert Backed(w, x, at[x]);
    }
    forall d | Holds(w', d) ensures w'.conns[d].lease.value.vip in at' && at'[w'.conns[d].lease.value.vip] == Held(d) {
      assert Holds(w, d);
    }
  }

  lemma LoseRetainedGood(w: Hub, at: map<int, Place>, id: ClientId) returns (at': map<int, Place>)
    requires Good(w, at) && id in w.retention
    ensures Good(LoseRetained(w, id), at')
  {
    var w' := LoseRetained(w, id);
    at' := at[w.retention[id].lease.vip := Lost];
    LoseRetainedLocated(w, at, id);
    forall x | x in at ensures at'[x].InStack? == at[x].InStack? && (!at[x].InStack? ==> NameAt(w', x, at'[x]) == NameAt(w, x, at[x])) {
      assert Backed(w, x, at[x]) && Backed(w', x, at'[x]);
    }
    SameNames(w, at, w', at');
  }

  lemma RetainLocated(w: Hub, at: map<int, Place>, c: ConnId, expiry: int)
    requires Located(w, at) && Holds(w, c) && w.conns[c].id !in w.retention
    ensures Located(Retain(w, c, expiry), at[w.conns[c].lease.value.vip := Retained(w.conns[c].id)])
  {
    var v := w.conns[c].lease.value.vip;
    var w', at' := Retain(w, c, expiry), at[v := Retained(w.conns[c].id)];
    assert at[v] == Held(c);
    forall x | x in at' ensures Backed(w', x, at'[x]) {
      assert Backed(w, x, at[x]);
    }
    forall d | Holds(w', d) ensures w'.conns[d].lease.value.vip in at' && at'[w'.conns[d].lease.value.vip] == Held(d) {
      assert d != c && Holds(w, d);
    }
  }

  lemma RetainGood(w: Hub, at: map<int, Place>, c: ConnId, expiry: int) returns (at': map<int, Place>)
    requires Good(w, at) && Holds(w, c) && w.conns[c].id !in w.retention
    ensures Good(Retain(w, c, expiry), at')
  {
    var w' := Retain(w, c, expiry);
    at' := at[w.conns[c].lease.value.vip := Retained(w.conns[c].id)];
    RetainLocated(w, at, c, expiry);
    forall x | x in at ensures at'[x].InStack? == at[x].InStack? && (!at[x].InStack? ==> NameAt(w', x, at'[x]) == NameAt(w, x, at[x])) {
      assert Backed(w, x, at[x]) && Backed(w', x, at'[x]);
    }
    SameNames(w, at, w', at');
  }

  lemma ExpireLocated(w: Hub, at: map<int, Place>, id: ClientId, now: int)
    requires Located(w, at) && id in w.retention && now > w.retention[id].expiry
    ensures Located(Apply(w, Expire(id, now)), at[w.retention[id].lease.vip := InStack(|w.free|)])
  {
    var v := w.retention[id].lease.vip;
    var w', at' := Apply(w, Expire(id, now)), at[v := InStack(|w.free|)];
    assert at[v] == Retained(id);
    forall x | x in at' ensures Backed(w', x, at'[x]) {
      assert Backed(w, x, at[x]);
    }
    forall d | Holds(w', d) ensures w'.conns[d].lease.value.vip in at' && at'[w'.conns[d].lease.value.vip] == Held(d) {
      assert Holds(w, d);
    }
  }

  /** One lease and its name are given up, the others stay. */
  lemma OneNameLess(w: Hub, at: map<int, Place>, w': Hub, at': map<int, Place>, v: int)
    requires Good(w, at) && Located(w', at') && v in at && !at[v].InStack? && at'[v].InStack?
    requires w'.dns == w.dns - {NameAt(w, v, at[v])}
    requires forall x :: x in at && x != v ==> at'[x].InStack? == at[x].InStack?
    requires forall x :: x in at && x != v && !at[x].InStack? ==> NameAt(w', x, at'[x]) == NameAt(w, x, at[x])
    ensures Good(w', at')
  {
  }

  lemma ExpireName(w: Hub, id: ClientId, now: int, x: int, p: Place)
    requires !p.InStack? && Backed(w, x, p) && Backed(Apply(w, Expire(id, now)), x, p)
    ensures NameAt(Apply(w, Expire(id, now)), x, p) == NameAt(w, x, p)
  {
  }

  lemma ExpireGood(w: Hub, at: map<int, Place>, id: ClientId, now: int) returns (at': map<int, Place>)
    requires Good(w, at) && id in w.retention && now > w.retention[id].expiry
    ensures Good(Apply(w, Expire(id, now)), at')
  {
    var w', v := Apply(w, Expire(id, now)), w.retention[id].lease.vip;
    at' := at[v := InStack(|w.free|)];
    ExpireLocated(w, at, id, now);
    assert at[v] == Retained(id) && NameAt(w, v, at[v]) == w.retention[id].lease.hostname;
    forall x | x in at && x != v && !at[x].InStack? ensures NameAt(w', x, at[x]) == NameAt(w, x, at[x]) {
      assert Backed(w, x, at[x]) && Backed(w', x, at'[x]);
      ExpireName(w, id, now, x, at[x]);
    }
    OneNameLess(w, at, w', at', v);
  }

  lemma HandshakeInv(w: Hub, c: ConnId, id: ClientId, name: string)
    requires Inv(w) && c in w.conns
    ensures Inv(DoHandshake(w, c, id, name))
  {
    var at: map<int, Place> :| Good(w, at);
    var v := LoseHeld(w, c);
    var at1 := LoseHeldGood(w, at, c);
    HandshakeMoves(w, c, id, name);
    if id in w.retention {
      var at2 := TakeRetainedGood(v, at1, c, id);
    } else if w.free != [] {
      var at2 := TakeFreeGood(v, at1, c, id, name);
    } else {
      SameLeases(v, v.(conns := v.conns[c := Conn(id, None)]), at1);
    }
  }

  /** Only connections without a lease differ. */
  lemma SameLeases(w: Hub, w': Hub, at: map<int, Place>)
    requires Good(w, at)
    requires w' == w.(conns := w'.conns)
    requires forall c :: Holds(w, c) || Holds(w', c) ==> Holds(w, c) && Holds(w', c) && w.conns[c] == w'.conns[c]
    ensures Good(w', at) && Inv(w')
  {
    forall x | x in at ensures Backed(w', x, at[x]) { assert Backed(w, x, at[x]); }
    assert Located(w', at);
    assert forall x :: x in at && !at[x].InStack? ==> NameAt(w', x, at[x]) == NameAt(w, x, at[x]);
    assert Good(w', at);
  }

  lemma HeldDisconnectInv(w: Hub, at: map<int, Place>, c: ConnId, expiry: int)
    requires Good(w, at) && Holds(w, c)
    ensures Inv(DoDisconnect(w, c, expiry))
  {
    DisconnectMoves(w, c, expiry);
    if w.conns[c].id in w.retention {
      var at1 := LoseRetainedGood(w, at, w.conns[c].id);
      var at2 := RetainGood(LoseRetained(w, w.conns[c].id), at1, c, expiry);
    } else {
      var at1 := RetainGood(w, at, c, expiry);
    }
  }

  lemma IdleDisconnectInv(w: Hub, at: map<int, Place>, c: ConnId, expiry: int)
    requires Good(w, at) && c in w.conns && !Holds(w, c)
    ensures Inv(DoDisconnect(w, c, expiry))
  {
    SameLeases(w, w.(conns := w.conns - {c}), at);
  }

  lemma DisconnectInv(w: Hub, c: ConnId, expiry: int)
    requires Inv(w) && c in w.conns
    ensures Inv(DoDisconnect(w, c, expiry))
  {
    var at: map<int, Place> :| Good(w, at);
    if Holds(w, c) { HeldDisconnectInv(w, at, c, expiry); } else { IdleDisconnectInv(w, at, c, expiry); }
  }

  lemma InvStep(w: Hub, st: Step)
    requires Inv(w)
    ensures Inv(Apply(w, st))
  {
    var at: map<int, Place> :| Good(w, at);
    match st
    case Connect(c) => if c !in w.conns { SameLeases(w, Apply(w, st), at); }
    case Handshake(c, id, name) => if c in w.conns { HandshakeInv(w, c, id, name); }
    case Disconnect(c, expiry) => if c in w.conns { DisconnectInv(w, c, expiry); }
    case Expire(id, now) => if Apply(w, st) != w { var at' := ExpireGood(w, at, id, now); }
  }

  function InitialPlace(v: int): Place
    requires v <= LAST_HOST
  {
    InStack(LAST_HOST - v)
  }

  predicate FullStack(free: seq<int>) {
    |free| == LAST_HOST + 1 - FIRST_HOST && forall k :: 0 <= k < |free| ==> free[k] == LAST_HOST - k
  }

  lemma StackPlaces(w: Hub) returns (at: map<int, Place>)
    requires FullStack(w.free)
    ensures forall v :: v in at <==> FIRST_HOST <= v <= LAST_HOST
    ensures forall k :: 0 <= k < |w.free| ==> w.free[k] in at && at[w.free[k]] == InStack(k)
    ensures forall v :: v in at ==> at[v].InStack? && Backed(w, v, at[v])
  {
    at := map v | FIRST_HOST <= v <= LAST_HOST :: InitialPlace(v);
  }

  lemma StackLocated(w: Hub, at: map<int, Place>)
    requires forall v :: v in at <==> FIRST_HOST <= v <= LAST_HOST
    requires forall k :: 0 <= k < |w.free| ==> w.free[k] in at && at[w.free[k]] == InStack(k)
    requires forall v :: v in at ==> at[v].InStack? && Backed(w, v, at[v])
    requires w.retention == map[] && w.conns == map[] && w.dns == map[] && w.lost == map[]
    ensures Good(w, at)
  {
    assert Located(w, at);
  }

  lemma StartInv()
    ensures Inv(Start)
  {
    var at := StackPlaces(Start);
    StackLocated(Start, at);
  }

  lemma {:induction false} InvRun(w: Hub, steps: seq<Step>)
    requires Inv(w)
    ensures Inv(Exec(w, steps))
    decreases |steps|
  {
    if steps != [] {
      InvStep(w, steps[0]);
      InvRun(Apply(w, steps[0]), steps[1..]);
    }
  }

  /** The address is free, retained, held or lost. */
  ghost predicate Placed(w: Hub, v: int) {
    || v in w.free || v in w.lost
    || (exists id :: id in w.retention && w.retention[id].lease.vip == v)
    || (exists c :: Holds(w, c) && w.conns[c].lease.value.vip == v)
  }

  lemma PlacedExact(w: Hub, v: int)
    requires Inv(w)
    ensures FIRST_HOST <= v <= LAST_HOST <==> Placed(w, v)
  {
    var at: map<int, Place> :| Good(w, at);
    if FIRST_HOST <= v <= LAST_HOST { assert Backed(w, v, at[v]); }
  }

  /** No address is in two places, or twice in one. */
  ghost predicate Separated(w: Hub) {
    && (forall i, j :: 0 <= i < j < |w.free| ==> w.free[i] != w.free[j])
    && (forall a, b :: a in w.retention && b in w.retention && a != b ==>
          w.retention[a].lease.vip != w.retention[b].lease.vip)
    && (forall a, b :: Holds(w, a) && Holds(w, b) && a != b ==>
          w.conns[a].lease.value.vip != w.conns[b].lease.value.vip)
    && (forall a, b :: a in w.retention && Holds(w, b) ==>
          w.retention[a].lease.vip != w.conns[b].lease.value.vip)
    && (forall a :: a in w.retention ==> w.retention[a].lease.vip !in w.free && w.retention[a].lease.vip !in w.lost)
    && (forall a :: Holds(w, a) ==> w.conns[a].lease.value.vip !in w.free && w.conns[a].lease.value.vip !in w.lost)
    && (forall v :: v in w.lost ==> v !in w.free)
  }

  lemma Disjoint(w: Hub)
    requires Inv(w)
    ensures Separated(w)
  {
    var at: map<int, Place> :| Good(w, at);
  }

  /** In every run the addresses are 2 to 254, and each of them is in exactly one of the four
      places, and there only once. */
  lemma LeaseSafety(steps: seq<Step>)
    ensures var w := Exec(Start, steps);
      && (forall v :: FIRST_HOST <= v <= LAST_HOST <==> Placed(w, v))
      && Separated(w)
  {
    StartInv();
    InvRun(Start, steps);
    var w := Exec(Start, steps);
    Disjoint(w);
    forall v ensures FIRST_HOST <= v <= LAST_HOST <==> Placed(w, v) { PlacedExact(w, v); }
  }

  /** Somewhere there is a lease of `v` under name `n`. */
  ghost predicate Leased(w: Hub, n: string, v: int) {
    || (exists id :: id in w.retention && w.retention[id].lease == Lease(v, n))
    || (exists c :: Holds(w, c) && w.conns[c].lease.value == Lease(v, n))
    || (v in w.lost && w.lost[v] == n)
  }

  lemma DnsEntry(w: Hub, n: string, v: int)
    requires Inv(w)
    ensures (n in w.dns && w.dns[n] == v) <==> Leased(w, n, v)
  {
    var at: map<int, Place> :| Good(w, at);
    if n in w.dns && w.dns[n] == v {
      assert Backed(w, v, at[v]) && NameAt(w, v, at[v]) == n;
    }
    if Leased(w, n, v) {
      assert v in at && !at[v].InStack? && NameAt(w, v, at[v]) == n;
    }
  }

  /** In every run the DNS table is exactly the table of leases, and no two names share an address. */
  lemma DnsRefinement(steps: seq<Step>)
    ensures var w := Exec(Start, steps);
      && (forall n, v :: (n in w.dns && w.dns[n] == v) <==> Leased(w, n, v))
      && (forall m, n :: m in w.dns && n in w.dns && m != n ==> w.dns[m] != w.dns[n])
  {
    StartInv();
    InvRun(Start, steps);
    var w := Exec(Start, steps);
    var at: map<int, Place> :| Good(w, at);
    forall n, v ensures (n in w.dns && w.dns[n] == v) <==> Leased(w, n, v) { DnsEntry(w, n, v); }
  }

  function GetDns(dns: map<string, int>, query: string): Option<int> {
    var h := StripDomain(query);
    if h in dns then Some(dns[h]) else None
  }

  /** In every run a query is answered with an address exactly when what is left of it without the
      domain is the name of a lease of that address; for any other name there is no answer. */
  lemma LookupExact(steps: seq<Step>, query: string, v: int)
    ensures var w := Exec(Start, steps);
      && (GetDns(w.dns, query) == Some(v) <==> Leased(w, StripDomain(query), v))
      && (GetDns(w.dns, query) == None <==> forall u :: !Leased(w, StripDomain(query), u))
  {
    StartInv();
    InvRun(Start, steps);
    var w, h := Exec(Start, steps), StripDomain(query);
    DnsEntry(w, h, v);
    if h in w.dns {
      DnsEntry(w, h, w.dns[h]);
    } else {
      forall u ensures !Leased(w, h, u) { DnsEntry(w, h, u); }
    }
  }

  /** A live client is found under its name in the domain exactly when that name, from where
      `.et.` first shows in the query, is nothing but copies of `.et.`; for one without a dot
      it always is. */
  lemma DnsAnswers(steps: seq<Step>, c: ConnId)
    requires Holds(Exec(Start, steps), c)
    ensures var w := Exec(Start, steps); var l := w.conns[c].lease.value;
      && (GetDns(w.dns, l.hostname + DOMAIN) == Some(l.vip) <==> exists n :: l.hostname[Cut(l.hostname)..] == Repeat(n))
      && ('.' !in l.hostname ==> GetDns(w.dns, l.hostname + DOMAIN) == Some(l.vip))
  {
    var w := Exec(Start, steps);
    DnsRefinement(steps);
    var l := w.conns[c].lease.value;
    StripExact(l.hostname);
    if '.' !in l.hostname { StripDotFree(l.hostname); }
    assert Leased(w, l.hostname, l.vip);
  }
}
