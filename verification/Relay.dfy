/** The server's data plane over an explicit heap of reused buffers: receive, transfer queue,
    packet queue, writer batches, and the pool that all of them draw from and return to. */
module Relay {
  import opened Bytes
  import Codec

  type Addr = nat
  type Client = nat
  const TYPE_PING: byte := 6
  const CHANNEL := 128
  const BATCH := 16

  /** Who owns a buffer.  `Gone` is the garbage collector's. */
  datatype Kind = Pooled | Transferring | Queued | Batched(worker: nat) | Replying | Gone

  datatype Arrival = Arrival(bytes: seq<byte>, from: Addr)
  /** A received data packet in the transfer queue; `origin` says which arrival it was. */
  datatype Flight<Ref> = Flight(ref: Ref, len: nat, src: Key4, dst: Key4, from: Addr, origin: nat)
  /** A packet on its way out is a relayed arrival or an answer to a DNS query. */
  datatype Origin = Relayed(k: nat) | Answer(k: nat)
  datatype Outgoing<Ref> = Outgoing(ref: Ref, len: nat, addr: Addr, origin: Origin)
  datatype Sent = Sent(bytes: seq<byte>, addr: Addr, origin: Origin)
  /** The client under each virtual address, and where each client sends from, once known.  A
      client that handshakes twice is there under two addresses. */
  datatype Directory = Directory(at: map<Key4, Client>, known: map<Client, Addr>)
  /** The routing decision for an arrival and the table it was taken on. */
  datatype Route = Route(dst: Key4, addr: Addr, table: Directory)

  /** `own`, `arrivals`, `answers`, `routes`, `stage`, `sent` and `twice` are history: no step looks at them.
      `twice` tells whether a buffer was ever returned to the pool while it was in it. */
  datatype State<Ref> = State(
    heap: map<Ref, seq<byte>>, own: map<Ref, Kind>, pool: set<Ref>,
    transferChan: seq<Flight<Ref>>, packetChan: seq<Outgoing<Ref>>, batches: map<nat, seq<Outgoing<Ref>>>,
    replies: seq<Ref>, clients: Directory,
    arrivals: seq<Arrival>, answers: seq<Arrival>, routes: map<nat, Route>, stage: map<nat, Kind>,
    sent: seq<Sent>, twice: bool)

  function Initial<Ref>(): State<Ref> {
    State(map[], map[], {}, [], [], map[], [], Directory(map[], map[]), [], [], map[], map[], [], false)
  }

  /** How a buffer of at least `n` bytes is come by: from the pool, or newly made. */
  datatype Source<Ref> = Reuse(ref: Ref) | Make(ref: Ref, init: seq<byte>)

  predicate Usable<Ref(==)>(s: State<Ref>, g: Source<Ref>, n: nat) {
    match g
    case Reuse(r) => r in s.pool && r in s.heap && n <= |s.heap[r]|
    case Make(r, init) => r !in s.heap && n <= |init|
  }

  /** Takes a buffer out of `g` and writes `bytes` to its front; the caller owns it as `k`. */
  function Fill<Ref(==)>(s: State<Ref>, g: Source<Ref>, bytes: seq<byte>, k: Kind): State<Ref>
    requires Usable(s, g, |bytes|)
  {
    var was := if g.Reuse? then s.heap[g.ref] else g.init;
    s.(heap := s.heap[g.ref := bytes + was[|bytes|..]], own := s.own[g.ref := k],
       pool := if k.Pooled? then s.pool + {g.ref} else s.pool - {g.ref})
  }

  function Give<Ref(==)>(s: State<Ref>, r: Ref): State<Ref> {
    s.(own := s.own[r := Pooled], pool := s.pool + {r}, twice := s.twice || r in s.pool)
  }

  datatype Step<Ref> =
    | Receive(bytes: seq<byte>, from: Addr, g: Source<Ref>)
    | Transfer
    | Pull(worker: nat)
    | Flush(worker: nat)
    | DnsReply(bytes: seq<byte>, to: Addr, g: Source<Ref>)
    | NoiseQuery(bytes: seq<byte>, accepted: bool, g: Source<Ref>)
    | Pump(i: nat, bytes: seq<byte>, g: Source<Ref>)
    | Abandon(i: nat)
    | Register(vip: Key4, c: Client)
    | Unregister(vip: Key4)
    | Stock(ref: Ref, init: seq<byte>)
    | Evict(ref: Ref)

  function Touch(d: Directory, vip: Key4, a: Addr): Directory {
    if vip in d.at then d.(known := d.known[d.at[vip] := a]) else d
  }

  function AddrOf(d: Directory, vip: Key4): Option<Addr> {
    if vip in d.at && d.at[vip] in d.known then Some(d.known[d.at[vip]]) else None
  }

  /** What becomes of a datagram that fits a buffer: only data packets that parse and find room
      go on; every other buffer goes back to the pool at once. */
  function Dispatch<Ref(==)>(s: State<Ref>, bytes: seq<byte>, from: Addr, g: Source<Ref>, origin: nat): State<Ref>
    requires Usable(s, g, |bytes|)
  {
    var p := Codec.ParsePacket(bytes);
    if p.Ok? && Codec.Unflag(p.value.pType) == Codec.TYPE_DATA && |s.transferChan| < CHANNEL then
      Fill(s, g, bytes, Transferring).(
        transferChan := s.transferChan + [Flight(g.ref, |bytes|, p.value.src, p.value.dst, from, origin)])
    else if p.Ok? && Codec.Unflag(p.value.pType) == TYPE_PING then
      Fill(s, g, bytes, Pooled).(clients := Touch(s.clients, p.value.src, from))
    else Fill(s, g, bytes, Pooled)
  }

  /** One datagram of the receive loop. */
  function DoReceive<Ref(==)>(s: State<Ref>, bytes: seq<byte>, from: Addr, g: Source<Ref>): State<Ref> {
    var s1 := s.(arrivals := s.arrivals + [Arrival(bytes, from)]);
    if |bytes| > Codec.MAX_PACKET then s1
    else if !Usable(s1, g, |bytes|) then s
    else Dispatch(s1, bytes, from, g, |s.arrivals|)
  }

  /** Where a packet goes, given the table after the sender's address was refreshed. */
  function Destination(clients: Directory, src: Key4, dst: Key4): Option<Addr> {
    if src !in clients.at then None
    else if dst[3] == 255 || 224 <= dst[0] <= 239 then None
    else if dst[..3] == [10, 0, 6] then AddrOf(clients, dst)
    else None
  }

  function DoTransfer<Ref(==)>(s: State<Ref>): State<Ref>
    requires s.transferChan != []
  {
    var t := s.transferChan[0];
    var clients := Touch(s.clients, t.src, t.from);
    var s1 := s.(transferChan := s.transferChan[1..], clients := clients);
    var a := Destination(clients, t.src, t.dst);
    if a.Some? && |s.packetChan| < CHANNEL then
      s1.(packetChan := s.packetChan + [Outgoing(t.ref, t.len, a.value, Relayed(t.origin))],
          own := s.own[t.ref := Queued],
          routes := s.routes[t.origin := Route(t.dst, a.value, clients)],
          stage := s.stage[t.origin := Queued])
    else Give(s1, t.ref)
  }

  function BatchOf<Ref>(s: State<Ref>, w: nat): seq<Outgoing<Ref>> {
    if w in s.batches then s.batches[w] else []
  }

  function DoPull<Ref(==)>(s: State<Ref>, w: nat): State<Ref>
    requires s.packetChan != []
  {
    var p := s.packetChan[0];
    s.(packetChan := s.packetChan[1..], batches := s.batches[w := BatchOf(s, w) + [p]],
       own := s.own[p.ref := Batched(w)],
       stage := if p.origin.Relayed? then s.stage[p.origin.k := Batched(w)] else s.stage)
  }

  predicate Readable<Ref(==)>(heap: map<Ref, seq<byte>>, p: Outgoing<Ref>) {
    p.ref in heap && p.len <= |heap[p.ref]|
  }

  function Emit<Ref(==)>(heap: map<Ref, seq<byte>>, p: Outgoing<Ref>): Sent
    requires Readable(heap, p)
  {
    Sent(heap[p.ref][..p.len], p.addr, p.origin)
  }

  function Emits<Ref(==)>(heap: map<Ref, seq<byte>>, b: seq<Outgoing<Ref>>): (e: seq<Sent>)
    requires forall i :: 0 <= i < |b| ==> Readable(heap, b[i])
    ensures |e| == |b| && forall i :: 0 <= i < |b| ==> e[i] == Emit(heap, b[i])
  {
    if b == [] then [] else [Emit(heap, b[0])] + Emits(heap, b[1..])
  }

  function Refs<Ref(==)>(b: seq<Outgoing<Ref>>): set<Ref> {
    set i | 0 <= i < |b| :: b[i].ref
  }

  /** Returning the batch, one buffer after the other, would return one that is in the pool. */
  predicate Doubled<Ref(==)>(pool: set<Ref>, b: seq<Outgoing<Ref>>) {
    exists i :: 0 <= i < |b| && (b[i].ref in pool || exists j :: 0 <= j < i && b[j].ref == b[i].ref)
  }

  function Origins<Ref>(b: seq<Outgoing<Ref>>): set<nat> {
    set i | 0 <= i < |b| && b[i].origin.Relayed? :: b[i].origin.k
  }

  /** All of `keys` set to `k`. */
  function Mark<T(==)>(m: map<T, Kind>, keys: set<T>, k: Kind): (r: map<T, Kind>)
    ensures r.Keys == m.Keys
    ensures forall x :: x in m ==> r[x] == if x in keys then k else m[x]
  {
    map x | x in m :: if x in keys then k else m[x]
  }

  /** The writer sends its whole batch, then returns all its buffers. */
  function DoFlush<Ref(==)>(s: State<Ref>, w: nat): State<Ref>
    requires forall i :: 0 <= i < |BatchOf(s, w)| ==> Readable(s.heap, BatchOf(s, w)[i])
  {
    var b := BatchOf(s, w);
    s.(batches := s.batches[w := []],
       sent := s.sent + Emits(s.heap, b),
       own := Mark(s.own, Refs(b), Pooled),
       stage := Mark(s.stage, Origins(b), Gone),
       pool := s.pool + Refs(b),
       twice := s.twice || Doubled(s.pool, b))
  }

  /** A DNS reply goes onto the packet queue in a buffer of its own, or is dropped. */
  function DoAnswer<Ref(==)>(s: State<Ref>, bytes: seq<byte>, to: Addr, g: Source<Ref>, k: nat): State<Ref>
    requires Usable(s, g, |bytes|)
  {
    if |s.packetChan| < CHANNEL then
      Fill(s, g, bytes, Queued).(packetChan := s.packetChan + [Outgoing(g.ref, |bytes|, to, Answer(k))])
    else Fill(s, g, bytes, Pooled)
  }

  /** A control writer takes a pending reply of its own client, so any of them may be next. */
  function DoPump<Ref(==)>(s: State<Ref>, i: nat, bytes: seq<byte>, g: Source<Ref>): State<Ref>
    requires i < |s.replies|
  {
    if !Usable(s, g, |bytes|) then s
    else Give(Fill(s.(replies := Without(s.replies, i)), g, bytes, Pooled), s.replies[i])
  }

  /** Without a writer for it the reply is left to the garbage collector. */
  function DoAbandon<Ref(==)>(s: State<Ref>, i: nat): State<Ref>
    requires i < |s.replies|
  {
    s.(replies := Without(s.replies, i), own := s.own[s.replies[i] := Gone])
  }

  function Without<T>(s: seq<T>, i: nat): (r: seq<T>)
    requires i < |s|
    ensures |r| == |s| - 1
    ensures forall j :: 0 <= j < |r| ==> r[j] == s[if j < i then j else j + 1]
  {
    s[..i] + s[i + 1..]
  }

  function Apply<Ref(==)>(s: State<Ref>, st: Step<Ref>): State<Ref> {
    match st
    case Receive(bytes, from, g) => DoReceive(s, bytes, from, g)
    case Transfer => if s.transferChan == [] then s else DoTransfer(s)
    case Pull(w) => if s.packetChan == [] || |BatchOf(s, w)| >= BATCH then s else DoPull(s, w)
    case Flush(w) =>
      if forall i :: 0 <= i < |BatchOf(s, w)| ==> Readable(s.heap, BatchOf(s, w)[i]) then DoFlush(s, w) else s
    case DnsReply(bytes, to, g) =>
      if !Usable(s, g, |bytes|) then s else DoAnswer(s.(answers := s.answers + [Arrival(bytes, to)]), bytes, to, g, |s.answers|)
    case NoiseQuery(bytes, accepted, g) =>
      if !Usable(s, g, |bytes|) then s
      else if accepted then Fill(s, g, bytes, Replying).(replies := s.replies + [g.ref])
      else Fill(s, g, bytes, Pooled)
    case Pump(i, bytes, g) => if i >= |s.replies| then s else DoPump(s, i, bytes, g)
    case Abandon(i) => if i >= |s.replies| then s else DoAbandon(s, i)
    case Register(vip, c) => s.(clients := s.clients.(at := s.clients.at[vip := c]))
    case Unregister(vip) => s.(clients := s.clients.(at := s.clients.at - {vip}))
    case Stock(r, init) => if r !in s.heap then Fill(s, Make(r, init), [], Pooled) else s
    case Evict(r) => if r in s.pool then s.(pool := s.pool - {r}, own := s.own[r := Gone]) else s
  }

  function Exec<Ref(==)>(s: State<Ref>, steps: seq<Step<Ref>>): State<Ref>
    decreases |steps|
  {
    if steps == [] then s else Exec(Apply(s, steps[0]), steps[1..])
  }

  lemma {:induction false} ExecMore<Ref>(s: State<Ref>, steps: seq<Step<Ref>>, st: Step<Ref>)
    ensures Exec(s, steps + [st]) == Apply(Exec(s, steps), st)
    decreases |steps|
  {
    if steps == [] {
      assert [] + [st] == [st] && [st][1..] == [];
    } else {
      assert (steps + [st])[1..] == steps[1..] + [st];
      ExecMore(Apply(s, steps[0]), steps[1..], st);
    }
  }

  // ---------- linear ownership ----------

  ghost predicate Unshared<Ref>(b: seq<Outgoing<Ref>>) {
    forall i, j :: 0 <= i < j < |b| ==> b[i].ref != b[j].ref
  }

  predicate Has<Ref(==)>(own: map<Ref, Kind>, r: Ref, k: Kind) {
    r in own && own[r] == k
  }

  ghost predicate PoolOwned<Ref>(own: map<Ref, Kind>, refs: set<Ref>, pool: set<Ref>) {
    && own.Keys == refs && (forall r :: r in pool ==> r in own)
    && (forall r :: r in own ==> (r in pool <==> own[r] == Pooled))
  }

  ghost predicate FlightsOwned<Ref>(own: map<Ref, Kind>, q: seq<Flight<Ref>>) {
    && (forall i :: 0 <= i < |q| ==> Has(own, q[i].ref, Transferring))
    && (forall i, j :: 0 <= i < j < |q| ==> q[i].ref != q[j].ref)
  }

  ghost predicate QueueOwned<Ref>(own: map<Ref, Kind>, q: seq<Outgoing<Ref>>, k: Kind) {
    (forall i :: 0 <= i < |q| ==> Has(own, q[i].ref, k)) && Unshared(q)
  }

  ghost predicate BatchesOwned<Ref>(own: map<Ref, Kind>, b: map<nat, seq<Outgoing<Ref>>>) {
    forall w :: w in b ==> QueueOwned(own, b[w], Batched(w))
  }

  ghost predicate RepliesOwned<Ref>(own: map<Ref, Kind>, q: seq<Ref>) {
    && (forall i :: 0 <= i < |q| ==> Has(own, q[i], Replying))
    && (forall i, j :: 0 <= i < j < |q| ==> q[i] != q[j])
  }

  /** Every buffer has one owner, and each place holds exactly the buffers it owns, once. */
  ghost predicate Owned<Ref>(s: State<Ref>) {
    && !s.twice
    && PoolOwned(s.own, s.heap.Keys, s.pool) && FlightsOwned(s.own, s.transferChan)
    && QueueOwned(s.own, s.packetChan, Queued) && BatchesOwned(s.own, s.batches) && RepliesOwned(s.own, s.replies)
  }

  /** A buffer that changes hands was in one place at most, so all the others keep theirs. */
  lemma OthersKeep<Ref>(s: State<Ref>, r: Ref, k: Kind)
    requires Owned(s)
    ensures !Has(s.own, r, Transferring) ==> FlightsOwned(s.own[r := k], s.transferChan)
    ensures !Has(s.own, r, Queued) ==> QueueOwned(s.own[r := k], s.packetChan, Queued)
    ensures (r in s.own ==> !s.own[r].Batched?) ==> BatchesOwned(s.own[r := k], s.batches)
    ensures !Has(s.own, r, Replying) ==> RepliesOwned(s.own[r := k], s.replies)
  {
  }

  lemma SourceUnowned<Ref>(s: State<Ref>, g: Source<Ref>, n: nat)
    requires Owned(s) && Usable(s, g, n)
    ensures g.ref in s.own ==> s.own[g.ref] == Pooled
  {
  }

  lemma FillPooled<Ref>(s: State<Ref>, g: Source<Ref>, bytes: seq<byte>)
    requires Owned(s) && Usable(s, g, |bytes|)
    ensures Owned(Fill(s, g, bytes, Pooled))
  {
    SourceUnowned(s, g, |bytes|);
    OthersKeep(s, g.ref, Pooled);
  }

  lemma FillTransfer<Ref>(s: State<Ref>, g: Source<Ref>, bytes: seq<byte>, f: Flight<Ref>)
    requires Owned(s) && Usable(s, g, |bytes|) && f.ref == g.ref
    ensures Owned(Fill(s, g, bytes, Transferring).(transferChan := s.transferChan + [f]))
  {
    SourceUnowned(s, g, |bytes|);
    OthersKeep(s, g.ref, Transferring);
  }

  lemma FillQueue<Ref>(s: State<Ref>, g: Source<Ref>, bytes: seq<byte>, o: Outgoing<Ref>)
    requires Owned(s) && Usable(s, g, |bytes|) && o.ref == g.ref
    ensures Owned(Fill(s, g, bytes, Queued).(packetChan := s.packetChan + [o]))
  {
    SourceUnowned(s, g, |bytes|);
    OthersKeep(s, g.ref, Queued);
  }

  lemma FillReply<Ref>(s: State<Ref>, g: Source<Ref>, bytes: seq<byte>)
    requires Owned(s) && Usable(s, g, |bytes|)
    ensures Owned(Fill(s, g, bytes, Replying).(replies := s.replies + [g.ref]))
  {
    SourceUnowned(s, g, |bytes|);
    OthersKeep(s, g.ref, Replying);
  }

  lemma ReceiveOwned<Ref>(s: State<Ref>, bytes: seq<byte>, from: Addr, g: Source<Ref>)
    requires Owned(s)
    ensures Owned(DoReceive(s, bytes, from, g))
  {
    var s1 := s.(arrivals := s.arrivals + [Arrival(bytes, from)]);
    if |bytes| > Codec.MAX_PACKET || !Usable(s1, g, |bytes|) { return; }
    var p := Codec.ParsePacket(bytes);
    if p.Ok? && Codec.Unflag(p.value.pType) == Codec.TYPE_DATA && |s.transferChan| < CHANNEL {
      FillTransfer(s1, g, bytes, Flight(g.ref, |bytes|, p.value.src, p.value.dst, from, |s.arrivals|));
      return;
    }
    FillPooled(s1, g, bytes);
  }

  lemma FlightToPool<Ref>(s: State<Ref>)
    requires Owned(s) && s.transferChan != []
    ensures Owned(Give(s.(transferChan := s.transferChan[1..]), s.transferChan[0].ref))
  {
    OthersKeep(s, s.transferChan[0].ref, Pooled);
    assert Has(s.own, s.transferChan[0].ref, Transferring);
  }

  lemma FlightToQueue<Ref>(s: State<Ref>, o: Outgoing<Ref>)
    requires Owned(s) && s.transferChan != [] && o.ref == s.transferChan[0].ref
    ensures Owned(s.(transferChan := s.transferChan[1..], packetChan := s.packetChan + [o], own := s.own[o.ref := Queued]))
  {
    OthersKeep(s, o.ref, Queued);
    assert Has(s.own, o.ref, Transferring);
  }

  lemma TransferOwned<Ref>(s: State<Ref>)
    requires Owned(s) && s.transferChan != []
    ensures Owned(DoTransfer(s))
  {
    var t := s.transferChan[0];
    var clients := Touch(s.clients, t.src, t.from);
    var a := Destination(clients, t.src, t.dst);
    if a.Some? && |s.packetChan| < CHANNEL {
      var o := Outgoing(t.ref, t.len, a.value, Relayed(t.origin));
      FlightToQueue(s, o);
    } else {
      FlightToPool(s);
    }
  }

  lemma PullOwned<Ref>(s: State<Ref>, w: nat)
    requires Owned(s) && s.packetChan != []
    ensures Owned(DoPull(s, w))
  {
  }

  lemma FlushOwned<Ref>(s: State<Ref>, w: nat)
    requires Owned(s) && forall i :: 0 <= i < |BatchOf(s, w)| ==> Readable(s.heap, BatchOf(s, w)[i])
    ensures Owned(DoFlush(s, w))
  {
  }

  lemma ReplyToPool<Ref>(s: State<Ref>, i: nat)
    requires Owned(s) && i < |s.replies|
    ensures Owned(Give(s.(replies := Without(s.replies, i)), s.replies[i]))
  {
    OthersKeep(s, s.replies[i], Pooled);
    assert Has(s.own, s.replies[i], Replying);
  }

  lemma ReplyGone<Ref>(s: State<Ref>, i: nat)
    requires Owned(s) && i < |s.replies|
    ensures Owned(s.(replies := Without(s.replies, i), own := s.own[s.replies[i] := Gone]))
  {
    OthersKeep(s, s.replies[i], Gone);
    assert Has(s.own, s.replies[i], Replying);
  }

  lemma PumpOwned<Ref>(s: State<Ref>, i: nat, bytes: seq<byte>, g: Source<Ref>)
    requires Owned(s) && i < |s.replies|
    ensures Owned(DoPump(s, i, bytes, g))
  {
    if !Usable(s, g, |bytes|) { return; }
    FillPooled(s, g, bytes);
    ReplyToPool(Fill(s, g, bytes, Pooled), i);
  }

  lemma EvictOwned<Ref>(s: State<Ref>, r: Ref)
    requires Owned(s)
    ensures Owned(Apply(s, Evict(r)))
  {
  }

  lemma DnsOwned<Ref>(s: State<Ref>, bytes: seq<byte>, to: Addr, g: Source<Ref>)
    requires Owned(s)
    ensures Owned(Apply(s, DnsReply(bytes, to, g)))
  {
    if !Usable(s, g, |bytes|) { return; }
    var s1 := s.(answers := s.answers + [Arrival(bytes, to)]);
    if |s.packetChan| < CHANNEL {
      FillQueue(s1, g, bytes, Outgoing(g.ref, |bytes|, to, Answer(|s.answers|)));
    } else {
      FillPooled(s1, g, bytes);
    }
  }

  lemma QueryOwned<Ref>(s: State<Ref>, bytes: seq<byte>, accepted: bool, g: Source<Ref>)
    requires Owned(s)
    ensures Owned(Apply(s, NoiseQuery(bytes, accepted, g)))
  {
    if !Usable(s, g, |bytes|) { return; }
    if accepted { FillReply(s, g, bytes); } else { FillPooled(s, g, bytes); }
  }

  lemma PullStepOwned<Ref>(s: State<Ref>, w: nat)
    requires Owned(s)
    ensures Owned(Apply(s, Pull(w)))
  {
    if s.packetChan != [] && |BatchOf(s, w)| < BATCH { PullOwned(s, w); }
  }

  lemma FlushStepOwned<Ref>(s: State<Ref>, w: nat)
    requires Owned(s)
    ensures Owned(Apply(s, Flush(w)))
  {
    if forall i :: 0 <= i < |BatchOf(s, w)| ==> Readable(s.heap, BatchOf(s, w)[i]) { FlushOwned(s, w); }
  }

  lemma ClientsOwned<Ref>(s: State<Ref>, c: Directory)
    requires Owned(s)
    ensures Owned(s.(clients := c))
  {
  }

  lemma OwnedStep<Ref>(s: State<Ref>, st: Step<Ref>)
    requires Owned(s)
    ensures Owned(Apply(s, st))
  {
    match st
    case Receive(bytes, from, g) => ReceiveOwned(s, bytes, from, g);
    case Transfer => if s.transferChan != [] { TransferOwned(s); }
    case Pull(w) => PullStepOwned(s, w);
    case Flush(w) => FlushStepOwned(s, w);
    case DnsReply(bytes, to, g) => DnsOwned(s, bytes, to, g);
    case NoiseQuery(bytes, accepted, g) => QueryOwned(s, bytes, accepted, g);
    case Pump(i, bytes, g) => if i < |s.replies| { PumpOwned(s, i, bytes, g); }
    case Abandon(i) => if i < |s.replies| { ReplyGone(s, i); }
    case Register(_, _) => ClientsOwned(s, Apply(s, st).clients);
    case Unregister(_) => ClientsOwned(s, Apply(s, st).clients);
    case Stock(r, init) => if r !in s.heap { FillPooled(s, Make(r, init), []); }
    case Evict(r) => EvictOwned(s, r);
  }

  // ---------- what the buffers hold ----------

  /** What a packet on its way is judged by. */
  datatype Ledger<Ref> = Ledger(
    heap: map<Ref, seq<byte>>, arrivals: seq<Arrival>, answers: seq<Arrival>, routes: map<nat, Route>, stage: map<nat, Kind>)

  function Book<Ref>(s: State<Ref>): Ledger<Ref> {
    Ledger(s.heap, s.arrivals, s.answers, s.routes, s.stage)
  }

  /** The front of buffer `r` is arrival `k`, unchanged. */
  ghost predicate Carries<Ref>(s: Ledger<Ref>, r: Ref, len: nat, k: nat) {
    && k < |s.arrivals| && len == |s.arrivals[k].bytes|
    && r in s.heap && len <= |s.heap[r]| && s.heap[r][..len] == s.arrivals[k].bytes
  }

  ghost predicate FlightOk<Ref>(s: Ledger<Ref>, t: Flight<Ref>) {
    && Carries(s, t.ref, t.len, t.origin) && t.origin !in s.routes
    && t.from == s.arrivals[t.origin].from
    && Codec.ParsePacket(s.arrivals[t.origin].bytes).Ok?
    && var h := Codec.ParsePacket(s.arrivals[t.origin].bytes).value;
       h.src == t.src && h.dst == t.dst && Codec.Unflag(h.pType) == Codec.TYPE_DATA
  }

  /** Arrival `k` was a data packet for a registered client, and `a` was that client's address. */
  ghost predicate RoutedTo<Ref>(s: Ledger<Ref>, k: nat, a: Addr) {
    && k in s.routes && k < |s.arrivals| && s.routes[k].addr == a
    && Codec.ParsePacket(s.arrivals[k].bytes).Ok?
    && var h, r := Codec.ParsePacket(s.arrivals[k].bytes).value, s.routes[k];
       && Codec.Unflag(h.pType) == Codec.TYPE_DATA && h.dst == r.dst
       && AddrOf(r.table, h.src) == Some(s.arrivals[k].from)
       && AddrOf(r.table, h.dst) == Some(a)
       && h.dst[..3] == [10, 0, 6] && h.dst[3] != 255
  }

  ghost predicate OutgoingOk<Ref>(s: Ledger<Ref>, o: Outgoing<Ref>, k: Kind) {
    && Readable(s.heap, o)
    && (o.origin.Relayed? ==>
          && Carries(s, o.ref, o.len, o.origin.k) && RoutedTo(s, o.origin.k, o.addr)
          && o.origin.k in s.stage && s.stage[o.origin.k] == k)
    && (o.origin.Answer? ==>
          && o.origin.k < |s.answers| && s.answers[o.origin.k].from == o.addr
          && s.heap[o.ref][..o.len] == s.answers[o.origin.k].bytes)
  }

  ghost predicate Once<Ref>(b: seq<Outgoing<Ref>>) {
    forall i, j :: 0 <= i < j < |b| && b[i].origin.Relayed? ==> b[i].origin != b[j].origin
  }

  ghost predicate SentOnce(s: seq<Sent>) {
    forall i, j :: 0 <= i < j < |s| && s[i].origin.Relayed? ==> s[i].origin != s[j].origin
  }

  ghost predicate SentOk<Ref>(s: Ledger<Ref>, x: Sent) {
    if x.origin.Relayed? then
      && RoutedTo(s, x.origin.k, x.addr) && x.bytes == s.arrivals[x.origin.k].bytes
      && x.origin.k in s.stage && s.stage[x.origin.k] == Gone
    else x.origin.k < |s.answers| && s.answers[x.origin.k] == Arrival(x.bytes, x.addr)
  }

  ghost predicate FlightsOk<Ref>(l: Ledger<Ref>, q: seq<Flight<Ref>>) {
    && (forall i :: 0 <= i < |q| ==> FlightOk(l, q[i]))
    && (forall i, j :: 0 <= i < j < |q| ==> q[i].origin != q[j].origin)
  }

  ghost predicate QueueOk<Ref>(l: Ledger<Ref>, q: seq<Outgoing<Ref>>, k: Kind) {
    (forall i :: 0 <= i < |q| ==> OutgoingOk(l, q[i], k)) && Once(q)
  }

  ghost predicate BatchesOk<Ref>(l: Ledger<Ref>, b: map<nat, seq<Outgoing<Ref>>>) {
    forall w :: w in b ==> QueueOk(l, b[w], Batched(w))
  }

  ghost predicate AllSentOk<Ref>(l: Ledger<Ref>, q: seq<Sent>) {
    (forall i :: 0 <= i < |q| ==> SentOk(l, q[i])) && SentOnce(q)
  }

  ghost predicate Faithful<Ref>(s: State<Ref>) {
    && s.stage.Keys == s.routes.Keys && (forall k :: k in s.routes ==> k < |s.arrivals|)
    && FlightsOk(Book(s), s.transferChan) && QueueOk(Book(s), s.packetChan, Queued)
    && BatchesOk(Book(s), s.batches) && AllSentOk(Book(s), s.sent)
  }

  ghost predicate Inv<Ref>(s: State<Ref>) {
    Owned(s) && Faithful(s)
  }

  /** The parts of the state that the contents invariant is about, less the heap. */
  ghost predicate SameQueues<Ref>(s: State<Ref>, t: State<Ref>) {
    && s.transferChan == t.transferChan && s.packetChan == t.packetChan && s.batches == t.batches
    && s.arrivals <= t.arrivals && s.answers <= t.answers && s.routes == t.routes && s.stage == t.stage && s.sent == t.sent
  }

  /** Writing to a buffer that is not in flight disturbs nothing. */
  lemma FaithfulFrame<Ref>(s: State<Ref>, t: State<Ref>)
    requires Owned(s) && Faithful(s) && SameQueues(s, t)
    requires forall r :: r in s.heap ==> r in t.heap && |t.heap[r]| == |s.heap[r]|
    requires forall r :: r in s.own && (s.own[r].Transferring? || s.own[r].Queued? || s.own[r].Batched?) ==>
      r in s.heap && t.heap[r] == s.heap[r]
    ensures Faithful(t)
  {
    forall i | 0 <= i < |t.transferChan| ensures FlightOk(Book(t), t.transferChan[i]) {
      assert FlightOk(Book(s), s.transferChan[i]) && Has(s.own, s.transferChan[i].ref, Transferring);
    }
    forall i | 0 <= i < |t.packetChan| ensures OutgoingOk(Book(t), t.packetChan[i], Queued) {
      assert OutgoingOk(Book(s), s.packetChan[i], Queued) && Has(s.own, s.packetChan[i].ref, Queued);
    }
    forall w, i | w in t.batches && 0 <= i < |t.batches[w]| ensures OutgoingOk(Book(t), t.batches[w][i], Batched(w)) {
      assert OutgoingOk(Book(s), s.batches[w][i], Batched(w)) && Has(s.own, s.batches[w][i].ref, Batched(w));
    }
    forall i | 0 <= i < |t.sent| ensures SentOk(Book(t), t.sent[i]) {
      assert SentOk(Book(s), s.sent[i]);
    }
  }

  /** A fill writes only to the pool's buffers or to new ones. */
  lemma FillFaithful<Ref>(s: State<Ref>, g: Source<Ref>, bytes: seq<byte>, k: Kind)
    requires Inv(s) && Usable(s, g, |bytes|)
    ensures Faithful(Fill(s, g, bytes, k))
    ensures var t := Fill(s, g, bytes, k); g.ref in t.heap && t.heap[g.ref][..|bytes|] == bytes && |bytes| <= |t.heap[g.ref]|
  {
    FaithfulFrame(s, Fill(s, g, bytes, k));
  }

  lemma EnqueueFlight<Ref>(s: State<Ref>, f: Flight<Ref>)
    requires Faithful(s) && FlightOk(Book(s), f)
    requires forall i :: 0 <= i < |s.transferChan| ==> s.transferChan[i].origin != f.origin
    ensures Faithful(s.(transferChan := s.transferChan + [f]))
  {
    var t := s.(transferChan := s.transferChan + [f]);
    assert Book(t) == Book(s);
  }

  /** What is known of every arrival that is still on its way or done with. */
  lemma Earlier<Ref>(s: State<Ref>)
    requires Faithful(s)
    ensures forall i :: 0 <= i < |s.transferChan| ==> s.transferChan[i].origin < |s.arrivals|
  {
    forall i | 0 <= i < |s.transferChan| ensures s.transferChan[i].origin < |s.arrivals| {
      assert FlightOk(Book(s), s.transferChan[i]);
    }
  }

  /** A data packet, just arrived as the last arrival, goes onto the transfer queue. */
  lemma ReceiveData<Ref>(s: State<Ref>, bytes: seq<byte>, from: Addr, g: Source<Ref>, k: nat, h: Codec.Header)
    requires Inv(s) && Usable(s, g, |bytes|) && k !in s.routes
    requires |s.arrivals| == k + 1 && s.arrivals[k] == Arrival(bytes, from)
    requires forall i :: 0 <= i < |s.transferChan| ==> s.transferChan[i].origin < k
    requires Codec.ParsePacket(bytes) == Codec.Ok(h) && Codec.Unflag(h.pType) == Codec.TYPE_DATA
    ensures var f := Flight(g.ref, |bytes|, h.src, h.dst, from, k);
      Faithful(Fill(s, g, bytes, Transferring).(transferChan := s.transferChan + [f]))
  {
    FillFaithful(s, g, bytes, Transferring);
    EnqueueFlight(Fill(s, g, bytes, Transferring), Flight(g.ref, |bytes|, h.src, h.dst, from, k));
  }

  lemma ArriveFaithful<Ref>(s: State<Ref>, bytes: seq<byte>, from: Addr)
    requires Inv(s)
    ensures Inv(s.(arrivals := s.arrivals + [Arrival(bytes, from)]))
  {
    var s1 := s.(arrivals := s.arrivals + [Arrival(bytes, from)]);
    FaithfulFrame(s, s1);
  }

  lemma ReceiveFaithful<Ref>(s: State<Ref>, bytes: seq<byte>, from: Addr, g: Source<Ref>)
    requires Inv(s)
    ensures Faithful(DoReceive(s, bytes, from, g))
  {
    var s1 := s.(arrivals := s.arrivals + [Arrival(bytes, from)]);
    ArriveFaithful(s, bytes, from);
    if |bytes| > Codec.MAX_PACKET || !Usable(s1, g, |bytes|) { return; }
    var p := Codec.ParsePacket(bytes);
    if p.Ok? && Codec.Unflag(p.value.pType) == Codec.TYPE_DATA && |s.transferChan| < CHANNEL {
      Earlier(s);
      ReceiveData(s1, bytes, from, g, |s.arrivals|, p.value);
      return;
    }
    FillFaithful(s1, g, bytes, Pooled);
    if p.Ok? && Codec.Unflag(p.value.pType) == TYPE_PING {
      FaithfulClients(Fill(s1, g, bytes, Pooled), Touch(s.clients, p.value.src, from));
    }
  }

  lemma FaithfulClients<Ref>(s: State<Ref>, c: Directory)
    requires Faithful(s)
    ensures Faithful(s.(clients := c))
  {
    var t := s.(clients := c);
    assert Book(t) == Book(s);
  }

  lemma DropFlight<Ref>(s: State<Ref>)
    requires Faithful(s) && s.transferChan != []
    ensures Faithful(s.(transferChan := s.transferChan[1..]))
  {
    var t := s.(transferChan := s.transferChan[1..]);
    assert Book(t) == Book(s);
  }

  function Decided<Ref>(l: Ledger<Ref>, k: nat, r: Route): Ledger<Ref> {
    l.(routes := l.routes[k := r], stage := l.stage[k := Queued])
  }

  lemma OutgoingDecided<Ref>(l: Ledger<Ref>, k: nat, r: Route, x: Outgoing<Ref>, j: Kind)
    requires k !in l.routes && OutgoingOk(l, x, j)
    ensures OutgoingOk(Decided(l, k, r), x, j)
  {
  }

  lemma SentDecided<Ref>(l: Ledger<Ref>, k: nat, r: Route, x: Sent)
    requires k !in l.routes && SentOk(l, x)
    ensures SentOk(Decided(l, k, r), x)
  {
  }

  lemma BatchesDecided<Ref>(l: Ledger<Ref>, k: nat, r: Route, b: map<nat, seq<Outgoing<Ref>>>)
    requires k !in l.routes && BatchesOk(l, b)
    ensures BatchesOk(Decided(l, k, r), b)
  {
    forall w, i | w in b && 0 <= i < |b[w]| ensures OutgoingOk(Decided(l, k, r), b[w][i], Batched(w)) {
      OutgoingDecided(l, k, r, b[w][i], Batched(w));
    }
  }

  /** A decision for an arrival that is no longer on the transfer queue and has none yet. */
  lemma DecideRoute<Ref>(s: State<Ref>, k: nat, r: Route)
    requires Faithful(s) && k !in s.routes && k < |s.arrivals|
    requires forall i :: 0 <= i < |s.transferChan| ==> s.transferChan[i].origin != k
    ensures Faithful(s.(routes := s.routes[k := r], stage := s.stage[k := Queued]))
  {
    var l, t := Decided(Book(s), k, r), s.(routes := s.routes[k := r], stage := s.stage[k := Queued]);
    assert Book(t) == l;
    BatchesDecided(Book(s), k, r, s.batches);
    forall i | 0 <= i < |s.packetChan| ensures OutgoingOk(l, s.packetChan[i], Queued) {
      OutgoingDecided(Book(s), k, r, s.packetChan[i], Queued);
    }
    forall i | 0 <= i < |s.sent| ensures SentOk(l, s.sent[i]) {
      SentDecided(Book(s), k, r, s.sent[i]);
    }
  }

  lemma NotQueuedYet<Ref>(s: State<Ref>, k: nat)
    requires Faithful(s) && k !in s.routes
    ensures forall i :: 0 <= i < |s.packetChan| ==> s.packetChan[i].origin != Relayed(k)
  {
    forall i | 0 <= i < |s.packetChan| ensures s.packetChan[i].origin != Relayed(k) {
      assert OutgoingOk(Book(s), s.packetChan[i], Queued);
    }
  }

  lemma Enqueue<Ref>(s: State<Ref>, o: Outgoing<Ref>)
    requires Faithful(s) && OutgoingOk(Book(s), o, Queued)
    requires o.origin.Relayed? ==> forall i :: 0 <= i < |s.packetChan| ==> s.packetChan[i].origin != o.origin
    ensures Faithful(s.(packetChan := s.packetChan + [o]))
  {
    var t := s.(packetChan := s.packetChan + [o]);
    assert Book(t) == Book(s);
  }

  lemma FaithfulOwn<Ref>(s: State<Ref>, own: map<Ref, Kind>, pool: set<Ref>, replies: seq<Ref>)
    requires Faithful(s)
    ensures Faithful(s.(own := own, pool := pool, replies := replies))
  {
    var t := s.(own := own, pool := pool, replies := replies);
    assert Book(t) == Book(s);
  }

  /** The packet just taken off the transfer queue is routed to `a`. */
  lemma HandOnFaithful<Ref>(s: State<Ref>, t: Flight<Ref>, a: Addr)
    requires Faithful(s) && FlightOk(Book(s), t) && Destination(s.clients, t.src, t.dst) == Some(a)
    requires AddrOf(s.clients, t.src) == Some(t.from)
    requires forall i :: 0 <= i < |s.transferChan| ==> s.transferChan[i].origin != t.origin
    ensures var o := Outgoing(t.ref, t.len, a, Relayed(t.origin));
      Faithful(s.(routes := s.routes[t.origin := Route(t.dst, a, s.clients)], stage := s.stage[t.origin := Queued],
                  packetChan := s.packetChan + [o]))
  {
    NotQueuedYet(s, t.origin);
    DecideRoute(s, t.origin, Route(t.dst, a, s.clients));
    var s2 := s.(routes := s.routes[t.origin := Route(t.dst, a, s.clients)], stage := s.stage[t.origin := Queued]);
    var o := Outgoing(t.ref, t.len, a, Relayed(t.origin));
    assert RoutedTo(Book(s2), t.origin, a);
    assert OutgoingOk(Book(s2), o, Queued);
    Enqueue(s2, o);
  }

  lemma TransferFaithful<Ref>(s: State<Ref>)
    requires Faithful(s) && s.transferChan != []
    ensures Faithful(DoTransfer(s))
  {
    var t := s.transferChan[0];
    assert FlightOk(Book(s), t);
    var clients := Touch(s.clients, t.src, t.from);
    DropFlight(s);
    var s0 := s.(transferChan := s.transferChan[1..]);
    FaithfulClients(s0, clients);
    var s1 := s0.(clients := clients);
    var a := Destination(clients, t.src, t.dst);
    if a.Some? && |s.packetChan| < CHANNEL {
      HandOnFaithful(s1, t, a.value);
      var o := Outgoing(t.ref, t.len, a.value, Relayed(t.origin));
      var s2 := s1.(routes := s1.routes[t.origin := Route(t.dst, a.value, clients)], stage := s1.stage[t.origin := Queued],
                    packetChan := s1.packetChan + [o]);
      FaithfulOwn(s2, s.own[t.ref := Queued], s.pool, s.replies);
    } else {
      FaithfulOwn(s1, s.own[t.ref := Pooled], s.pool + {t.ref}, s.replies);
    }
  }

  /** No packet on its way out or sent comes from arrival `k`. */
  ghost predicate Nowhere<Ref>(s: State<Ref>, k: nat) {
    && (forall i :: 0 <= i < |s.packetChan| ==> s.packetChan[i].origin != Relayed(k))
    && (forall w, i :: w in s.batches && 0 <= i < |s.batches[w]| ==> s.batches[w][i].origin != Relayed(k))
    && (forall i :: 0 <= i < |s.sent| ==> s.sent[i].origin != Relayed(k))
  }

  lemma DropHead<Ref>(s: State<Ref>)
    requires Faithful(s) && s.packetChan != []
    ensures Faithful(s.(packetChan := s.packetChan[1..]))
  {
    var t := s.(packetChan := s.packetChan[1..]);
    assert Book(t) == Book(s);
  }

  lemma HeadNowhereElse<Ref>(s: State<Ref>)
    requires Faithful(s) && s.packetChan != [] && s.packetChan[0].origin.Relayed?
    ensures Nowhere(s.(packetChan := s.packetChan[1..]), s.packetChan[0].origin.k)
  {
    var p := s.packetChan[0];
    assert OutgoingOk(Book(s), p, Queued);
    forall w, i | w in s.batches && 0 <= i < |s.batches[w]| ensures s.batches[w][i].origin != p.origin {
      assert OutgoingOk(Book(s), s.batches[w][i], Batched(w));
    }
    forall i | 0 <= i < |s.sent| ensures s.sent[i].origin != p.origin {
      assert SentOk(Book(s), s.sent[i]);
    }
  }

  lemma OutgoingStage<Ref>(s: State<Ref>, k: nat, stage: Kind)
    ensures var t := s.(stage := s.stage[k := stage]);
      && (forall x, j :: OutgoingOk(Book(s), x, j) && x.origin != Relayed(k) ==> OutgoingOk(Book(t), x, j))
      && (forall x :: SentOk(Book(s), x) && x.origin != Relayed(k) ==> SentOk(Book(t), x))
  {
  }

  lemma SetStage<Ref>(s: State<Ref>, k: nat, stage: Kind)
    requires Faithful(s) && k in s.routes && Nowhere(s, k)
    ensures Faithful(s.(stage := s.stage[k := stage]))
  {
    var t := s.(stage := s.stage[k := stage]);
    assert forall x :: FlightOk(Book(s), x) ==> FlightOk(Book(t), x);
    OutgoingStage(s, k, stage);
  }

  lemma AddToBatch<Ref>(s: State<Ref>, w: nat, p: Outgoing<Ref>)
    requires Faithful(s) && OutgoingOk(Book(s), p, Batched(w)) && (p.origin.Relayed? ==> Nowhere(s, p.origin.k))
    ensures Faithful(s.(batches := s.batches[w := BatchOf(s, w) + [p]]))
  {
    var t := s.(batches := s.batches[w := BatchOf(s, w) + [p]]);
    assert Book(t) == Book(s);
    assert Once(t.batches[w]);
  }

  lemma PullFaithful<Ref>(s: State<Ref>, w: nat)
    requires Faithful(s) && s.packetChan != []
    ensures Faithful(DoPull(s, w))
  {
    var p, s1 := s.packetChan[0], s.(packetChan := s.packetChan[1..]);
    assert OutgoingOk(Book(s), p, Queued);
    DropHead(s);
    var s2 := s1;
    if p.origin.Relayed? {
      HeadNowhereElse(s);
      SetStage(s1, p.origin.k, Batched(w));
      s2 := s1.(stage := s1.stage[p.origin.k := Batched(w)]);
    }
    assert OutgoingOk(Book(s2), p, Batched(w));
    AddToBatch(s2, w, p);
    FaithfulOwn(s2.(batches := s2.batches[w := BatchOf(s2, w) + [p]]), s.own[p.ref := Batched(w)], s.pool, s.replies);
  }

  ghost predicate BatchReadable<Ref>(s: State<Ref>, w: nat) {
    forall i :: 0 <= i < |BatchOf(s, w)| ==> Readable(s.heap, BatchOf(s, w)[i])
  }

  /** Batches have their origins to themselves. */
  lemma BatchOrigins<Ref>(s: State<Ref>, w: nat, k: nat)
    requires Faithful(s) && k in Origins(BatchOf(s, w))
    ensures k in s.stage && s.stage[k] == Batched(w)
  {
    var b := BatchOf(s, w);
    var i :| 0 <= i < |b| && b[i].origin == Relayed(k);
    assert OutgoingOk(Book(s), s.batches[w][i], Batched(w));
  }

  lemma FlushStages<Ref>(s: State<Ref>, w: nat)
    requires Faithful(s) && BatchReadable(s, w)
    ensures var t := DoFlush(s, w);
      && (forall x :: FlightOk(Book(s), x) ==> FlightOk(Book(t), x))
      && (forall x, k :: OutgoingOk(Book(s), x, k) && k != Batched(w) ==> OutgoingOk(Book(t), x, k))
      && (forall x :: SentOk(Book(s), x) ==> SentOk(Book(t), x))
  {
    forall k | k in Origins(BatchOf(s, w)) ensures k in s.stage && s.stage[k] == Batched(w) {
      BatchOrigins(s, w, k);
    }
  }

  /** A packet of the batch is sent faithfully. */
  lemma EmitFaithful<Ref>(s: State<Ref>, w: nat, i: nat)
    requires Faithful(s) && BatchReadable(s, w) && i < |BatchOf(s, w)|
    ensures SentOk(Book(DoFlush(s, w)), Emit(s.heap, BatchOf(s, w)[i]))
  {
    var b := BatchOf(s, w);
    assert OutgoingOk(Book(s), b[i], Batched(w));
    if b[i].origin.Relayed? { assert b[i].origin.k in Origins(b); }
  }

  lemma FlushSent<Ref>(s: State<Ref>, w: nat)
    requires Faithful(s) && BatchReadable(s, w)
    ensures var t := DoFlush(s, w);
      && |t.sent| == |s.sent| + |BatchOf(s, w)|
      && (forall i :: 0 <= i < |s.sent| ==> t.sent[i] == s.sent[i])
      && (forall i :: 0 <= i < |BatchOf(s, w)| ==> t.sent[|s.sent| + i] == Emit(s.heap, BatchOf(s, w)[i]))
      && (forall i :: |s.sent| <= i < |t.sent| ==> SentOk(Book(t), t.sent[i]))
  {
    var t := DoFlush(s, w);
    forall i | |s.sent| <= i < |t.sent| ensures SentOk(Book(t), t.sent[i]) { EmitFaithful(s, w, i - |s.sent|); }
  }

  /** A packet still in a batch was not sent before. */
  lemma NotSentYet<Ref>(s: State<Ref>, w: nat, i: nat, j: nat)
    requires Faithful(s) && i < |s.sent| && j < |BatchOf(s, w)| && s.sent[i].origin.Relayed?
    ensures s.sent[i].origin != BatchOf(s, w)[j].origin
  {
    assert OutgoingOk(Book(s), s.batches[w][j], Batched(w)) && SentOk(Book(s), s.sent[i]);
  }

  /** Two lists without repetition and without a common origin are one such list together. */
  lemma JoinedOnce<Ref>(sent: seq<Sent>, b: seq<Outgoing<Ref>>, t: seq<Sent>)
    requires |t| == |sent| + |b| && Once(b)
    requires forall i :: 0 <= i < |sent| ==> t[i].origin == sent[i].origin
    requires forall i :: 0 <= i < |b| ==> t[|sent| + i].origin == b[i].origin
    requires SentOnce(sent)
    requires forall i, j :: 0 <= i < |sent| && 0 <= j < |b| && sent[i].origin.Relayed? ==> sent[i].origin != b[j].origin
    ensures SentOnce(t)
  {
    var n := |sent|;
    forall i, j | 0 <= i < j < |t| && t[i].origin.Relayed? ensures t[i].origin != t[j].origin {
      if j >= n {
        assert t[n + (j - n)].origin == b[j - n].origin;
        if i >= n { assert t[n + (i - n)].origin == b[i - n].origin; }
      }
    }
  }

  lemma FlushOnce<Ref>(s: State<Ref>, w: nat, t: seq<Sent>)
    requires Faithful(s) && |t| == |s.sent| + |BatchOf(s, w)|
    requires forall i :: 0 <= i < |s.sent| ==> t[i].origin == s.sent[i].origin
    requires forall i :: 0 <= i < |BatchOf(s, w)| ==> t[|s.sent| + i].origin == BatchOf(s, w)[i].origin
    ensures SentOnce(t)
  {
    var b := BatchOf(s, w);
    forall i, j | 0 <= i < |s.sent| && 0 <= j < |b| && s.sent[i].origin.Relayed? ensures s.sent[i].origin != b[j].origin {
      NotSentYet(s, w, i, j);
    }
    assert Once(b);
    JoinedOnce(s.sent, b, t);
  }

  lemma FlushFaithful<Ref>(s: State<Ref>, w: nat)
    requires Faithful(s) && BatchReadable(s, w)
    ensures Faithful(DoFlush(s, w))
  {
    FlushStages(s, w);
    FlushSent(s, w);
    FlushOnce(s, w, DoFlush(s, w).sent);
  }

  lemma AnswerFaithful<Ref>(s: State<Ref>, bytes: seq<byte>, to: Addr)
    requires Inv(s)
    ensures Inv(s.(answers := s.answers + [Arrival(bytes, to)]))
  {
    FaithfulFrame(s, s.(answers := s.answers + [Arrival(bytes, to)]));
  }

  lemma DnsFaithful<Ref>(s: State<Ref>, bytes: seq<byte>, to: Addr, g: Source<Ref>)
    requires Inv(s)
    ensures Faithful(Apply(s, DnsReply(bytes, to, g)))
  {
    if !Usable(s, g, |bytes|) { return; }
    var s1 := s.(answers := s.answers + [Arrival(bytes, to)]);
    AnswerFaithful(s, bytes, to);
    if |s.packetChan| < CHANNEL {
      FillFaithful(s1, g, bytes, Queued);
      Enqueue(Fill(s1, g, bytes, Queued), Outgoing(g.ref, |bytes|, to, Answer(|s.answers|)));
    } else {
      FillFaithful(s1, g, bytes, Pooled);
    }
  }

  lemma QueryFaithful<Ref>(s: State<Ref>, bytes: seq<byte>, accepted: bool, g: Source<Ref>)
    requires Inv(s)
    ensures Faithful(Apply(s, NoiseQuery(bytes, accepted, g)))
  {
    if !Usable(s, g, |bytes|) { return; }
    FillFaithful(s, g, bytes, if accepted then Replying else Pooled);
    var t := Fill(s, g, bytes, Replying);
    if accepted { FaithfulOwn(t, t.own, t.pool, s.replies + [g.ref]); }
  }

  lemma PumpFaithful<Ref>(s: State<Ref>, i: nat, bytes: seq<byte>, g: Source<Ref>)
    requires Inv(s) && i < |s.replies|
    ensures Faithful(DoPump(s, i, bytes, g))
  {
    if !Usable(s, g, |bytes|) { return; }
    var t := DoPump(s, i, bytes, g);
    FillFaithful(s, g, bytes, Pooled);
    FaithfulOwn(Fill(s, g, bytes, Pooled), t.own, t.pool, t.replies);
  }

  lemma PullStepFaithful<Ref>(s: State<Ref>, w: nat)
    requires Inv(s)
    ensures Faithful(Apply(s, Pull(w)))
  {
    if s.packetChan != [] && |BatchOf(s, w)| < BATCH { PullFaithful(s, w); }
  }

  lemma FlushStepFaithful<Ref>(s: State<Ref>, w: nat)
    requires Inv(s)
    ensures Faithful(Apply(s, Flush(w)))
  {
    if BatchReadable(s, w) { FlushFaithful(s, w); }
  }

  lemma PoolFaithful<Ref>(s: State<Ref>, st: Step<Ref>)
    requires Inv(s) && (st.Stock? || st.Evict?)
    ensures Faithful(Apply(s, st))
  {
    match st
    case Stock(r, init) => if r !in s.heap { FillFaithful(s, Make(r, init), [], Pooled); }
    case Evict(r) => FaithfulOwn(s, s.own[r := Gone], s.pool - {r}, s.replies);
  }

  lemma FaithfulStep<Ref>(s: State<Ref>, st: Step<Ref>)
    requires Inv(s)
    ensures Faithful(Apply(s, st))
  {
    match st
    case Receive(bytes, from, g) => ReceiveFaithful(s, bytes, from, g);
    case Transfer => if s.transferChan != [] { TransferFaithful(s); }
    case Pull(w) => PullStepFaithful(s, w);
    case Flush(w) => FlushStepFaithful(s, w);
    case DnsReply(bytes, to, g) => DnsFaithful(s, bytes, to, g);
    case NoiseQuery(bytes, accepted, g) => QueryFaithful(s, bytes, accepted, g);
    case Pump(i, bytes, g) => if i < |s.replies| { PumpFaithful(s, i, bytes, g); }
    case Abandon(i) => if i < |s.replies| { FaithfulOwn(s, DoAbandon(s, i).own, s.pool, DoAbandon(s, i).replies); }
    case Register(_, _) => FaithfulClients(s, Apply(s, st).clients);
    case Unregister(_) => FaithfulClients(s, Apply(s, st).clients);
    case Stock(_, _) => PoolFaithful(s, st);
    case Evict(_) => PoolFaithful(s, st);
  }

  lemma {:induction false} InvRun<Ref>(s: State<Ref>, steps: seq<Step<Ref>>)
    requires Inv(s)
    ensures Inv(Exec(s, steps))
    decreases |steps|
  {
    if steps != [] {
      OwnedStep(s, steps[0]);
      FaithfulStep(s, steps[0]);
      InvRun(Apply(s, steps[0]), steps[1..]);
    }
  }

  /** In every interleaving no buffer is in two places or twice in one, and none has ever been
      returned to the pool while it was there already. */
  lemma LinearOwnership<Ref>(steps: seq<Step<Ref>>)
    ensures Owned(Exec(Initial<Ref>(), steps))
  {
    InvRun(Initial<Ref>(), steps);
  }

  /** In every interleaving, what is sent for a relayed packet is byte for byte what was
      received, it goes to the address that the client registered under the packet's
      destination had when it was routed, its sender was registered, and it goes out once. */
  lemma RelayTransparency<Ref>(steps: seq<Step<Ref>>)
    ensures var s := Exec(Initial<Ref>(), steps);
      && (forall i :: 0 <= i < |s.sent| && s.sent[i].origin.Relayed? ==>
            var k := s.sent[i].origin.k;
            RoutedTo(Book(s), k, s.sent[i].addr) && s.sent[i].bytes == s.arrivals[k].bytes)
      && (forall i, j :: 0 <= i < j < |s.sent| && s.sent[i].origin.Relayed? ==> s.sent[i].origin != s.sent[j].origin)
  {
    InvRun(Initial<Ref>(), steps);
    var s := Exec(Initial<Ref>(), steps);
    assert forall i :: 0 <= i < |s.sent| ==> SentOk(Book(s), s.sent[i]);
  }

  /** In every interleaving, what is sent as a DNS reply is one that was made, byte for byte, to
      the address it was made for. */
  lemma AnswerTransparency<Ref>(steps: seq<Step<Ref>>)
    ensures var s := Exec(Initial<Ref>(), steps);
      forall i :: 0 <= i < |s.sent| && s.sent[i].origin.Answer? ==>
        s.sent[i].origin.k < |s.answers| && s.answers[s.sent[i].origin.k] == Arrival(s.sent[i].bytes, s.sent[i].addr)
  {
    InvRun(Initial<Ref>(), steps);
    var s := Exec(Initial<Ref>(), steps);
    assert forall i :: 0 <= i < |s.sent| ==> SentOk(Book(s), s.sent[i]);
  }
}
