/** The hub as the program keeps it: client objects updated in place, a free stack, a
    retention map, and DNS and router snapshots that are rebuilt and republished.  Each
    handler is tied to the step of the lease state machine it carries out. */
module HubServer {
  import opened Bytes
  import opened Hostname
  import opened HubLease
  import opened HubRuns

  const CONTROL_QUEUE := 16

  class Client {
    const conn: ConnId
    var clientID: ClientId
    var virtualIp: Option<int>
    var hostname: string
    var natType: byte
    var noisePublicKey: seq<byte>
    var controlChan: seq<Lease>

    constructor (conn: ConnId)
      ensures this.conn == conn && View() == Conn(ZERO_ID, None) && controlChan == []
    {
      this.conn, clientID, virtualIp, hostname := conn, ZERO_ID, None, "";
      natType, noisePublicKey, controlChan := 0, [], [];
    }

    function View(): Conn reads this {
      Conn(clientID, if virtualIp.Some? then Some(Lease(virtualIp.value, hostname)) else None)
    }
  }

  ghost function Conns(m: map<ConnId, Client>): map<ConnId, Conn> reads m.Values {
    map c | c in m :: m[c].View()
  }

  function Routes(m: map<int, Client>): map<int, ConnId> {
    map v | v in m :: m[v].conn
  }

  lemma RoutesSet(m: map<int, Client>, v: int, c: Client)
    ensures Routes(m[v := c]) == Routes(m)[v := c.conn]
  {
  }

  lemma RoutesDrop(m: map<int, Client>, v: int)
    ensures Routes(m - {v}) == Routes(m) - {v}
  {
  }

  /** `s` lists the values of `m`, once for each key, in the order in which they were visited. */
  ghost predicate Enumerates<V>(m: map<int, V>, order: seq<int>, s: seq<V>) {
    && |order| == |s|
    && (forall i, j :: 0 <= i < j < |order| ==> order[i] != order[j])
    && (forall i :: 0 <= i < |order| ==> order[i] in m && m[order[i]] == s[i])
    && (forall k :: k in m ==> k in order)
  }

  /** A published router table.  Its fields are constants: a loaded snapshot never changes. */
  class RouterSnapshot {
    const clientMap: map<int, Client>
    const clientSlice: seq<Client>

    constructor (m: map<int, Client>, s: seq<Client>)
      ensures clientMap == m && clientSlice == s
    {
      clientMap, clientSlice := m, s;
    }

    /** The slice lists the values of the map, once for each key. */
    ghost predicate Listed() {
      exists order: seq<int> :: Enumerates(clientMap, order, clientSlice)
    }
  }

  class DnsSnapshot {
    const dnsMap: map<string, int>

    constructor (m: map<string, int>)
      ensures dnsMap == m
    {
      dnsMap := m;
    }
  }

  lemma EnumerateMore<V>(m: map<int, V>, order: seq<int>, s: seq<V>, k: int, v: V)
    requires Enumerates(m, order, s) && k !in m
    ensures Enumerates(m[k := v], order + [k], s + [v])
  {
  }

  method Pick(s: set<int>) returns (k: int)
    requires s != {}
    ensures k in s
  {
    assert (forall k :: k !in s) ==> s == {};
    k :| k in s;
  }

  /** Copies all entries but the one under `skip`, visiting them in any order. */
  method CopyRouter(m: map<int, Client>, skip: Option<int>)
    returns (newMap: map<int, Client>, newSlice: seq<Client>, ghost order: seq<int>)
    ensures newMap == if skip.Some? then m - {skip.value} else m
    ensures Enumerates(newMap, order, newSlice)
  {
    newMap, newSlice, order := map[], [], [];
    var todo := m.Keys;
    while todo != {}
      invariant todo <= m.Keys
      invariant newMap == map k | k in m && k !in todo && skip != Some(k) :: m[k]
      invariant Enumerates(newMap, order, newSlice)
      decreases |todo|
    {
      var k := Pick(todo);
      todo := todo - {k};
      if skip != Some(k) {
        EnumerateMore(newMap, order, newSlice, k, m[k]);
        newMap, newSlice, order := newMap[k := m[k]], newSlice + [m[k]], order + [k];
      }
    }
  }

  function Text(b: seq<byte>): (s: string)
    ensures |s| == |b| && forall i :: 0 <= i < |b| ==> s[i] as int == b[i]
  {
    seq(|b|, i requires 0 <= i < |b| => b[i] as char)
  }

  class HubServer {
    var freeIps: seq<int>
    var retentionMap: map<ClientId, Offline>
    var dns: DnsSnapshot
    var router: RouterSnapshot
    var clients: map<ConnId, Client>
    ghost var lost: map<int, string>

    constructor ()
      ensures Valid() && View() == Start && clients == map[]
    {
      var stack := [];
      var i := LAST_HOST;
      while i >= FIRST_HOST
        invariant FIRST_HOST - 1 <= i <= LAST_HOST
        invariant |stack| == LAST_HOST - i && forall k :: 0 <= k < |stack| ==> stack[k] == LAST_HOST - k
      {
        stack, i := stack + [i], i - 1;
      }
      freeIps, retentionMap, clients, lost := stack, map[], map[], map[];
      dns := new DnsSnapshot(map[]);
      var first := new RouterSnapshot(map[], []);
      router := first;
      new;
      assert freeIps == FreeStack(FIRST_HOST, LAST_HOST);
      assert Enumerates(router.clientMap, [], router.clientSlice);
      StartInv();
    }

    /** Client objects are filed under their own connection. */
    ghost predicate Keyed() reads this, clients.Values {
      forall c :: c in clients ==> clients[c].conn == c
    }

    /** The route of a held address leads to the client object that holds it. */
    ghost predicate Pointed() reads this, clients.Values {
      forall c :: c in clients && clients[c].virtualIp.Some? ==>
        clients[c].virtualIp.value in router.clientMap && router.clientMap[clients[c].virtualIp.value] == clients[c]
    }

    ghost predicate Tables() reads this, clients.Values {
      Keyed() && Pointed() && router.Listed()
    }

    /** The tables as described, in a state that the lease state machine can be in. */
    ghost predicate Valid() reads this, clients.Values {
      Tables() && Inv(View()) && RouterKnown(View())
    }

    ghost function View(): Hub reads this, clients.Values {
      Hub(freeIps, retentionMap, Conns(clients), dns.dnsMap, Routes(router.clientMap), lost)
    }

    /** Pops the top of the stack; fails exactly on the empty stack. */
    method GetIp() returns (ip: Option<int>)
      modifies this`freeIps
      ensures ip.None? <==> old(freeIps) == []
      ensures if ip.None? then freeIps == old(freeIps) else old(freeIps) == freeIps + [ip.value]
    {
      if freeIps == [] { return None; }
      ip := Some(freeIps[|freeIps| - 1]);
      freeIps := freeIps[..|freeIps| - 1];
    }

    /** For an address that is not published, the new slice again lists the new map. */
    method AddClient(client: Client, vip: int) returns (ghost order: seq<int>)
      modifies this`router
      ensures fresh(router) && router.clientMap == old(router.clientMap)[vip := client]
      ensures |router.clientSlice| > 0 && router.clientSlice[|router.clientSlice| - 1] == client
      ensures Enumerates(old(router.clientMap), order, router.clientSlice[..|router.clientSlice| - 1])
      ensures vip !in old(router.clientMap) ==> router.Listed()
    {
      var m, s;
      m, s, order := CopyRouter(router.clientMap, None);
      if vip !in m { EnumerateMore(m, order, s, vip, client); }
      router := new RouterSnapshot(m[vip := client], s + [client]);
      assert router.clientSlice[..|s|] == s;
    }

    /** Without an entry for the address nothing is published. */
    method RemoveClient(vip: int) returns (ghost order: seq<int>)
      modifies this`router
      ensures router.clientMap == old(router.clientMap) - {vip}
      ensures vip !in old(router.clientMap) ==> router == old(router)
      ensures vip in old(router.clientMap) ==>
        fresh(router) && Enumerates(router.clientMap, order, router.clientSlice) && router.Listed()
    {
      order := [];
      if vip !in router.clientMap { return; }
      var m, s;
      m, s, order := CopyRouter(router.clientMap, Some(vip));
      router := new RouterSnapshot(m, s);
    }

    method AddDns(hostname: string, ip: int)
      modifies this`dns
      ensures fresh(dns) && dns.dnsMap == old(dns.dnsMap)[hostname := ip]
    {
      var m := CopyDns(dns.dnsMap, None);
      dns := new DnsSnapshot(m[hostname := ip]);
    }

    method RemoveDns(hostname: string)
      modifies this`dns
      ensures fresh(dns) && dns.dnsMap == old(dns.dnsMap) - {hostname}
    {
      var m := CopyDns(dns.dnsMap, Some(hostname));
      dns := new DnsSnapshot(m);
    }

    static method CopyDns(m: map<string, int>, skip: Option<string>) returns (newMap: map<string, int>)
      ensures newMap == if skip.Some? then m - {skip.value} else m
    {
      newMap := map[];
      var todo := m.Keys;
      while todo != {}
        invariant todo <= m.Keys
        invariant newMap == map k | k in m && k !in todo && skip != Some(k) :: m[k]
        decreases |todo|
      {
        var k :| k in todo;
        todo := todo - {k};
        if skip != Some(k) { newMap := newMap[k := m[k]]; }
      }
    }

    method Admit(conn: ConnId)
      requires Tables() && conn !in clients
      modifies this`clients
      ensures Tables() && View() == Apply(old(View()), Connect(conn)) && conn in clients && fresh(clients[conn])
      ensures clients == old(clients)[conn := clients[conn]]
    {
      var client := new Client(conn);
      clients := clients[conn := client];
      assert View().conns == old(View()).conns[conn := Conn(ZERO_ID, None)];
    }

    method Accept(conn: ConnId)
      requires Valid() && conn !in clients
      modifies this`clients
      ensures Valid() && View() == Apply(old(View()), Connect(conn)) && conn in clients && fresh(clients[conn])
      ensures clients == old(clients)[conn := clients[conn]]
    {
      InvStep(View(), Connect(conn));
      InvSeparate(View());
      KnownStep(View(), Connect(conn));
      Admit(conn);
    }

    /** Under the retention lock: the retained lease, else an address and a free name. */
    method Grant(c: Client, id: ClientId, name: string)
      modifies this`freeIps, this`retentionMap, c`clientID, c`virtualIp, c`hostname
      ensures var w := old(View()); var l := Granted(w, id, name);
        && c.View() == Conn(id, l)
        && freeIps == (if id in w.retention || w.free == [] then w.free else w.free[..|w.free| - 1])
        && retentionMap == w.retention - {id}
    {
      c.clientID := id;
      if id in retentionMap {
        c.virtualIp := Some(retentionMap[id].lease.vip);
        c.hostname := retentionMap[id].lease.hostname;
        retentionMap := retentionMap - {id};
      } else {
        var ip := GetIp();
        var unused, probes := UniqueHostName(name, dns.dnsMap.Keys);
        c.virtualIp, c.hostname := ip, unused;
        assert retentionMap - {id} == retentionMap;
      }
    }

    method Remember(conn: ConnId, natType: byte, key: seq<byte>)
      requires Valid() && conn in clients
      modifies (clients[conn] as Client)`natType, (clients[conn] as Client)`noisePublicKey
      ensures Valid() && View() == old(View())
      ensures clients[conn].natType == natType && clients[conn].noisePublicKey == key
    {
      clients[conn].natType, clients[conn].noisePublicKey := natType, key;
      assert Conns(clients) == old(Conns(clients));
    }

    /** The client is told its address and name; a full queue swallows the message. */
    method Confirm(conn: ConnId, l: Lease)
      requires Valid() && conn in clients
      modifies (clients[conn] as Client)`controlChan
      ensures Valid() && View() == old(View())
      ensures var q := old(clients[conn].controlChan);
        clients[conn].controlChan == if |q| < 16 then q + [l] else q
    {
      var c := clients[conn];
      if |c.controlChan| < CONTROL_QUEUE { c.controlChan := c.controlChan + [l]; }
      assert Conns(clients) == old(Conns(clients));
    }

    /** The handshake payload is NAT type, public key, client ID and wanted name; a shorter
        one changes nothing.  `ok` tells whether an address was obtained. */
    method HandleHandshake(conn: ConnId, payload: seq<byte>) returns (ok: bool)
      requires Valid() && conn in clients
      modifies this, clients[conn]
      ensures Valid() && clients == old(clients)
      ensures |payload| < 49 ==> !ok && View() == old(View()) && unchanged(clients[conn])
      ensures |payload| >= 49 ==>
        && View() == Apply(old(View()), Handshake(conn, payload[33..49], Text(payload[49..])))
        && ok == Granted(old(View()), payload[33..49], Text(payload[49..])).Some?
        && clients[conn].natType == payload[0] && clients[conn].noisePublicKey == payload[1..33]
      ensures |payload| >= 49 ==>
        var l, q := Granted(old(View()), payload[33..49], Text(payload[49..])), old(clients[conn].controlChan);
        clients[conn].controlChan == if l.Some? && |q| < 16 then q + [l.value] else q
    {
      if |payload| < 49 { return false; }
      ok := Join(conn, payload[0], payload[1..33], payload[33..49], Text(payload[49..]));
    }

    method Join(conn: ConnId, natType: byte, key: seq<byte>, id: ClientId, name: string) returns (ok: bool)
      requires Valid() && conn in clients
      modifies this, clients[conn]
      ensures Valid() && clients == old(clients)
      ensures View() == Apply(old(View()), Handshake(conn, id, name)) && ok == Granted(old(View()), id, name).Some?
      ensures clients[conn].natType == natType && clients[conn].noisePublicKey == key
      ensures var l, q := Granted(old(View()), id, name), old(clients[conn].controlChan);
        clients[conn].controlChan == if l.Some? && |q| < 16 then q + [l.value] else q
    {
      Remember(conn, natType, key);
      ok := Answer(conn, id, name);
    }

    method Answer(conn: ConnId, id: ClientId, name: string) returns (ok: bool)
      requires Valid() && conn in clients
      modifies this, (clients[conn] as Client)`clientID, (clients[conn] as Client)`virtualIp, (clients[conn] as Client)`hostname
      modifies (clients[conn] as Client)`controlChan
      ensures Valid() && clients == old(clients)
      ensures View() == Apply(old(View()), Handshake(conn, id, name)) && ok == Granted(old(View()), id, name).Some?
      ensures var l, q := Granted(old(View()), id, name), old(clients[conn].controlChan);
        clients[conn].controlChan == if l.Some? && |q| < 16 then q + [l.value] else q
    {
      var c := clients[conn];
      ok := HandshakeAs(conn, id, name);
      if ok { Confirm(conn, Lease(c.virtualIp.value, c.hostname)); }
    }

    /** The address obtained is not published yet, so the slice keeps listing the table. */
    method HandshakeAs(conn: ConnId, id: ClientId, name: string) returns (ok: bool)
      requires Valid() && conn in clients
      modifies this, (clients[conn] as Client)`clientID, (clients[conn] as Client)`virtualIp, (clients[conn] as Client)`hostname
      ensures Valid() && clients == old(clients) && clients[conn].View() == Conn(id, Granted(old(View()), id, name))
      ensures View() == Apply(old(View()), Handshake(conn, id, name))
      ensures ok == Granted(old(View()), id, name).Some?
    {
      InvStep(View(), Handshake(conn, id, name));
      InvSeparate(View());
      KnownStep(View(), Handshake(conn, id, name));
      if Granted(View(), id, name).Some? { GrantedUnrouted(View(), id, name); }
      assert Unused(Granted(View(), id, name)) by { HoldsClient(); }
      ok := Serve(conn, id, name);
    }

    /** What `Holds` says of the client objects. */
    lemma HoldsClient()
      ensures forall c :: c in clients ==> (Holds(View(), c) <==> clients[c].virtualIp.Some?)
      ensures forall c :: c in clients && clients[c].virtualIp.Some? ==>
        View().conns[c].lease.value.vip == clients[c].virtualIp.value
    {
    }

    /** The address of the lease is neither published nor held. */
    ghost predicate Unused(l: Option<Lease>) reads this, clients.Values {
      l.Some? ==>
        && l.value.vip !in router.clientMap
        && forall c :: c in clients ==> clients[c].virtualIp != Some(l.value.vip)
    }

    /** The client object takes the lease; the one it held before is out of reach. */
    method Assign(conn: ConnId, id: ClientId, name: string)
      requires Keyed() && conn in clients
      modifies this`freeIps, this`retentionMap, this`lost
      modifies (clients[conn] as Client)`clientID, (clients[conn] as Client)`virtualIp, (clients[conn] as Client)`hostname
      ensures Keyed() && clients[conn].View() == Conn(id, Granted(old(View()), id, name))
      ensures var w := old(View()); var l := Granted(w, id, name);
        View() == w.(free := if id in w.retention || w.free == [] then w.free else w.free[..|w.free| - 1],
                     retention := w.retention - {id}, conns := w.conns[conn := Conn(id, l)],
                     lost := Lose(w.lost, w.conns[conn].lease))
    {
      var c := clients[conn];
      lost := Lose(lost, c.View().lease);
      ghost var before := View();
      Grant(c, id, name);
      assert Conns(clients) == before.conns[conn := c.View()];
    }

    method Serve(conn: ConnId, id: ClientId, name: string) returns (ok: bool)
      requires Tables() && conn in clients && Unused(Granted(View(), id, name))
      modifies this, (clients[conn] as Client)`clientID, (clients[conn] as Client)`virtualIp, (clients[conn] as Client)`hostname
      ensures Tables() && clients == old(clients) && clients[conn].View() == Conn(id, Granted(old(View()), id, name))
      ensures View() == DoHandshake(old(View()), conn, id, name)
      ensures ok == Granted(old(View()), id, name).Some?
    {
      var c := clients[conn];
      ghost var l := Granted(View(), id, name);
      Assign(conn, id, name);
      if c.virtualIp.None? { return false; }
      Publish(c, l.value);
      return true;
    }

    /** Publishes the route and the name of a client that has just obtained a lease. */
    method Publish(c: Client, ghost l: Lease)
      requires c.virtualIp == Some(l.vip) && c.hostname == l.hostname && l.vip !in router.clientMap
      modifies this`router, this`dns
      ensures router.Listed() && router.clientMap == old(router.clientMap)[l.vip := c]
      ensures View() == old(View()).(
        dns := old(View()).dns[l.hostname := l.vip], router := old(View()).router[l.vip := c.conn])
    {
      RoutesSet(router.clientMap, l.vip, c);
      ghost var order := AddClient(c, c.virtualIp.value);
      AddDns(c.hostname, c.virtualIp.value);
    }

    method Withdraw(vip: int)
      requires router.Listed()
      modifies this`router
      ensures router.Listed() && router.clientMap == old(router.clientMap) - {vip}
      ensures View() == old(View()).(router := old(View()).router - {vip})
    {
      RoutesDrop(router.clientMap, vip);
      ghost var order := RemoveClient(vip);
    }

    method Retire(conn: ConnId)
      requires Keyed() && conn in clients
      modifies this`clients
      ensures Keyed() && View() == old(View()).(conns := old(View()).conns - {conn})
      ensures clients == old(clients) - {conn}
    {
      clients := clients - {conn};
    }

    method RetainLease(id: ClientId, l: Lease, expiry: int)
      modifies this`retentionMap, this`lost
      ensures View() == old(View()).(
        retention := old(retentionMap)[id := Offline(l, expiry)],
        lost := Lose(old(lost), if id in old(retentionMap) then Some(old(retentionMap)[id].lease) else None))
    {
      lost := Lose(lost, if id in retentionMap then Some(retentionMap[id].lease) else None);
      retentionMap := retentionMap[id := Offline(l, expiry)];
    }

    method Depart(conn: ConnId, expiry: int)
      requires Tables() && conn in clients
      requires forall d :: d in clients && d != conn && clients[d].virtualIp.Some? ==> clients[d].virtualIp != clients[conn].virtualIp
      modifies this
      ensures Tables() && View() == DoDisconnect(old(View()), conn, expiry)
      ensures clients == old(clients) - {conn}
    {
      var client := clients[conn];
      assert client.View() == View().conns[conn];
      Retire(conn);
      if client.virtualIp.Some? {
        RetainLease(client.clientID, Lease(client.virtualIp.value, client.hostname), expiry);
        Withdraw(client.virtualIp.value);
      }
    }

    /** The connection is gone: its lease goes into retention and its route is withdrawn. */
    method HandleDisconnect(conn: ConnId, expiry: int)
      requires Valid() && conn in clients
      modifies this
      ensures Valid() && View() == Apply(old(View()), Disconnect(conn, expiry))
      ensures clients == old(clients) - {conn}
    {
      InvStep(View(), Disconnect(conn, expiry));
      InvSeparate(View());
      KnownStep(View(), Disconnect(conn, expiry));
      HoldsClient();
      Depart(conn, expiry);
    }

    method Release(id: ClientId, now: int)
      requires id in retentionMap && now > retentionMap[id].expiry
      modifies this`freeIps, this`retentionMap, this`dns
      ensures View() == Apply(old(View()), Expire(id, now))
      ensures retentionMap == old(retentionMap) - {id}
    {
      var o := retentionMap[id];
      freeIps := freeIps + [o.lease.vip];
      RemoveDns(o.lease.hostname);
      retentionMap := retentionMap - {id};
    }

    method Sweep(now: int) returns (ghost order: seq<ClientId>)
      modifies this`freeIps, this`retentionMap, this`dns
      ensures View() == Exec(old(View()), Expiries(order, now))
      ensures retentionMap == Unexpired(old(retentionMap), now)
    {
      order := [];
      var todo := retentionMap.Keys;
      while todo != {}
        invariant todo <= retentionMap.Keys && View() == Exec(old(View()), Expiries(order, now))
        invariant forall id :: id in retentionMap <==> id in old(retentionMap) && (id in todo || now <= old(retentionMap)[id].expiry)
        invariant forall id :: id in retentionMap ==> retentionMap[id] == old(retentionMap)[id]
        decreases |todo|
      {
        var id :| id in todo;
        todo := todo - {id};
        if now > retentionMap[id].expiry {
          ExpiriesMore(old(View()), order, id, now);
          Release(id, now);
          order := order + [id];
        }
      }
    }

    /** One tick of the sweep: the expired entries, in the order `order` in which the loop met
        them, each give back their address and their name; no expired entry is left. */
    method CleanRetention(now: int) returns (ghost order: seq<ClientId>)
      requires Valid()
      modifies this`freeIps, this`retentionMap, this`dns
      ensures Valid() && View() == Exec(old(View()), Expiries(order, now))
      ensures retentionMap == Unexpired(old(retentionMap), now)
    {
      ghost var before := View();
      order := Sweep(now);
      InvRun(before, Expiries(order, now));
      KnownRun(before, Expiries(order, now));
    }

    /** In every state each holder of an address is in the slice. */
    lemma HoldersListed(c: ConnId)
      requires Valid() && c in clients && clients[c].virtualIp.Some?
      ensures clients[c] in router.clientSlice
    {
      var order: seq<int> :| Enumerates(router.clientMap, order, router.clientSlice);
      var v := clients[c].virtualIp.value;
      var i :| 0 <= i < |order| && order[i] == v;
      assert router.clientSlice[i] == clients[c];
    }

    /** Next to an exact map the slice lists exactly the client objects that hold an address,
        each once. */
    lemma SliceExact()
      requires Valid() && RouterExact(View())
      ensures forall i, j :: 0 <= i < j < |router.clientSlice| ==> router.clientSlice[i] != router.clientSlice[j]
      ensures forall x :: x in router.clientSlice <==> exists c :: c in clients && clients[c] == x && x.virtualIp.Some?
    {
      var s, m := router.clientSlice, router.clientMap;
      var order: seq<int> :| Enumerates(m, order, s);
      forall v | v in m ensures m[v].conn in clients && m[v] == clients[m[v].conn] && m[v].virtualIp == Some(v) {
        assert View().router[v] == m[v].conn && Holds(View(), m[v].conn);
      }
      forall i, j | 0 <= i < j < |s| ensures s[i] != s[j] {
        var a, b := order[i], order[j];
        assert a in m && b in m && a != b && m[a] == s[i] && m[b] == s[j];
      }
      forall x | x in s ensures exists c :: c in clients && clients[c] == x && x.virtualIp.Some? {
        var i :| 0 <= i < |s| && s[i] == x;
        var v := order[i];
        assert v in m && m[v] == x;
      }
      forall c | c in clients && clients[c].virtualIp.Some? ensures clients[c] in s { HoldersListed(c); }
    }

    /** Carries out one step of the state machine with the handlers' own operations. */
    method Perform(st: Step, natType: byte, key: seq<byte>)
      requires Valid()
      modifies this, clients.Values
      ensures Valid() && View() == Apply(old(View()), st)
      ensures forall c :: c in clients ==> fresh(clients[c]) || clients[c] in old(clients.Values)
    {
      match st
      case Connect(c) => if c !in clients { Accept(c); }
      case Handshake(c, id, name) => if c in clients { var ok := Join(c, natType, key, id, name); }
      case Disconnect(c, expiry) => if c in clients { HandleDisconnect(c, expiry); }
      case Expire(id, now) => Lapse(id, now);
    }

    method Lapse(id: ClientId, now: int)
      requires Valid()
      modifies this`freeIps, this`retentionMap, this`dns
      ensures Valid() && View() == Apply(old(View()), Expire(id, now))
    {
      InvStep(View(), Expire(id, now));
      InvSeparate(View());
      KnownStep(View(), Expire(id, now));
      if id in retentionMap && now > retentionMap[id].expiry { Release(id, now); }
    }

    /** Any run at all, carried out by the handlers' operations, keeps the tables as `Valid` says; one with a
        single handshake per connection, from an exact map, ends with a slice that lists exactly
        the holders, each once. */
    method Replay(steps: seq<Step>, natType: byte, key: seq<byte>)
      requires Valid()
      modifies this, clients.Values
      ensures Valid() && View() == Exec(old(View()), steps)
      ensures old(RouterExact(View())) && SingleHandshakes(old(View()), steps) ==>
        && (forall i, j :: 0 <= i < j < |router.clientSlice| ==> router.clientSlice[i] != router.clientSlice[j])
        && (forall x :: x in router.clientSlice <==> exists c :: c in clients && clients[c] == x && x.virtualIp.Some?)
    {
      ghost var before := View();
      for i := 0 to |steps|
        invariant Valid() && View() == Exec(before, steps[..i])
        invariant forall c :: c in clients ==> fresh(clients[c]) || clients[c] in old(clients.Values)
      {
        ExecMore(before, steps[..i], steps[i]);
        assert steps[..i + 1] == steps[..i] + [steps[i]];
        Perform(steps[i], natType, key);
      }
      assert steps[..|steps|] == steps;
      if RouterExact(before) && SingleHandshakes(before, steps) {
        RouterRun(before, steps);
        SliceExact();
      }
    }
  }

  function Unexpired(m: map<ClientId, Offline>, now: int): (r: map<ClientId, Offline>) {
    map id | id in m && now <= m[id].expiry :: m[id]
  }

  function Expiries(order: seq<ClientId>, now: int): (s: seq<Step>)
    ensures |s| == |order|
  {
    if order == [] then [] else [Expire(order[0], now)] + Expiries(order[1..], now)
  }

  lemma {:induction false} ExpiriesMore(w: Hub, order: seq<ClientId>, id: ClientId, now: int)
    ensures Exec(w, Expiries(order + [id], now)) == Apply(Exec(w, Expiries(order, now)), Expire(id, now))
    decreases |order|
  {
    if order == [] {
      assert order + [id] == [id] && Expiries([id], now) == [Expire(id, now)];
      assert [Expire(id, now)][1..] == [];
    } else {
      var w1 := Apply(w, Expire(order[0], now));
      assert (order + [id])[1..] == order[1..] + [id];
      assert Expiries(order + [id], now)[1..] == Expiries(order[1..] + [id], now);
      assert Expiries(order, now)[1..] == Expiries(order[1..], now);
      ExpiriesMore(w1, order[1..], id, now);
    }
  }
}
