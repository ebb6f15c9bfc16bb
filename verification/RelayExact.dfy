/** Exactly what each step of the relay does, and what that adds up to: which datagrams are queued,
    what is sent, who is registered and where each client is. */
module RelayExact {
  import opened Bytes
  import opened Relay
  import opened RelayRuns
  import Codec

  // ---------- receiving ----------

  /** A data packet, compressed or not, that the keyless parser accepts. */
  predicate IsData(bytes: seq<byte>) {
    |bytes| >= 21 && Codec.ParsePacket(bytes).Ok? && (bytes[2] == 8 || bytes[2] == 0x88)
  }

  predicate IsPing(bytes: seq<byte>) {
    |bytes| >= 21 && Codec.ParsePacket(bytes).Ok? && bytes[2] == 6
  }

  /** The buffer holds the datagram, and no other buffer was written. */
  ghost predicate Landed<Ref>(s: State<Ref>, t: State<Ref>, r: Ref, bytes: seq<byte>) {
    && r in t.heap && bytes <= t.heap[r]
    && (forall x :: x in s.heap && x != r ==> x in t.heap && t.heap[x] == s.heap[x])
  }

  lemma FillLands<Ref>(s: State<Ref>, g: Source<Ref>, bytes: seq<byte>, k: Kind)
    requires Usable(s, g, |bytes|)
    ensures Landed(s, Fill(s, g, bytes, k), g.ref, bytes)
  {
  }

  lemma DataDispatched<Ref>(s: State<Ref>, bytes: seq<byte>, from: Addr, g: Source<Ref>, k: nat)
    requires Usable(s, g, |bytes|) && IsData(bytes) && |s.transferChan| < 128
    ensures Dispatch(s, bytes, from, g, k) == Fill(s, g, bytes, Transferring).(
      transferChan := s.transferChan + [Flight(g.ref, |bytes|, bytes[9..13], bytes[3..7], from, k)])
  {
    Codec.KeylessExact(bytes);
  }

  lemma OtherDispatched<Ref>(s: State<Ref>, bytes: seq<byte>, from: Addr, g: Source<Ref>, k: nat)
    requires Usable(s, g, |bytes|) && !(IsData(bytes) && |s.transferChan| < 128)
    ensures Dispatch(s, bytes, from, g, k) == Fill(s, g, bytes, Pooled).(
      clients := if IsPing(bytes) then Seen(s.clients, bytes[9..13], from) else s.clients)
  {
    Codec.KeylessExact(bytes);
  }

  /** What one datagram with a buffer of its own does. */
  ghost predicate Received<Ref>(s: State<Ref>, t: State<Ref>, bytes: seq<byte>, from: Addr, r: Ref) {
    && t.arrivals == s.arrivals + [Arrival(bytes, from)]
    && t.packetChan == s.packetChan && t.batches == s.batches && t.sent == s.sent && t.replies == s.replies
    && Landed(s, t, r, bytes)
    && t.clients == (if IsPing(bytes) then Seen(s.clients, bytes[9..13], from) else s.clients)
    && if IsData(bytes) && |s.transferChan| < 128 then
         && t.transferChan == s.transferChan + [Flight(r, |bytes|, bytes[9..13], bytes[3..7], from, |s.arrivals|)]
         && t.pool == s.pool - {r}
       else t.transferChan == s.transferChan && t.pool == s.pool + {r}
  }

  lemma DataReceived<Ref>(s: State<Ref>, bytes: seq<byte>, from: Addr, g: Source<Ref>)
    requires Usable(s, g, |bytes|) && |bytes| <= 65556 && IsData(bytes) && |s.transferChan| < 128
    ensures Received(s, DoReceive(s, bytes, from, g), bytes, from, g.ref)
  {
    var s1 := s.(arrivals := s.arrivals + [Arrival(bytes, from)]);
    DataDispatched(s1, bytes, from, g, |s.arrivals|);
    FillLands(s1, g, bytes, Transferring);
  }

  lemma OtherReceived<Ref>(s: State<Ref>, bytes: seq<byte>, from: Addr, g: Source<Ref>)
    requires Usable(s, g, |bytes|) && |bytes| <= 65556 && !(IsData(bytes) && |s.transferChan| < 128)
    ensures Received(s, DoReceive(s, bytes, from, g), bytes, from, g.ref)
  {
    var s1 := s.(arrivals := s.arrivals + [Arrival(bytes, from)]);
    OtherDispatched(s1, bytes, from, g, |s.arrivals|);
    FillLands(s1, g, bytes, Pooled);
  }

  /** A datagram is queued for transfer if and only if it is a data packet that parses and fewer
      than 128 are waiting; otherwise its buffer is back in the pool.  Only a ping is remembered for
      its address, and an oversize datagram takes no buffer. */
  lemma ReceiveExact<Ref>(s: State<Ref>, bytes: seq<byte>, from: Addr, g: Source<Ref>)
    ensures var t := Apply(s, Receive(bytes, from, g));
      if |bytes| > 65556 then t == s.(arrivals := s.arrivals + [Arrival(bytes, from)])
      else if Usable(s, g, |bytes|) then Received(s, t, bytes, from, g.ref)
      else t == s
  {
    if |bytes| > 65556 { return; }
    if !Usable(s, g, |bytes|) { return; }
    if IsData(bytes) && |s.transferChan| < 128 {
      DataReceived(s, bytes, from, g);
    } else {
      OtherReceived(s, bytes, from, g);
    }
  }

  /** Whatever a client encodes as data, compressed or not, is queued in every run unless the queue
      is full, for the addresses it was encoded with, and the receiver can read it. */
  lemma EncodedQueued<Ref>(steps: seq<Step<Ref>>, z: Codec.Lz4, p: Codec.Packet, compress: bool,
    sealer: Codec.Sealer, from: Addr, g: Source<Ref>)
    requires Codec.AeadLaw(sealer.aead) && Codec.Lz4Law(z) && p.pType == 8 && |p.payload| <= 65519
    requires Codec.EncodePacket(z, p, false, compress, Some(sealer)).Some?
    requires Usable(Exec(Initial<Ref>(), steps), g, |Codec.EncodePacket(z, p, false, compress, Some(sealer)).value|)
    ensures var d := Codec.EncodePacket(z, p, false, compress, Some(sealer)).value;
      var s := Exec(Initial<Ref>(), steps); var t := Exec(Initial<Ref>(), steps + [Receive(d, from, g)]);
      && Codec.Arrives(z, d, p, sealer.aead)
      && t.transferChan == (if |s.transferChan| < 128
                            then s.transferChan + [Flight(g.ref, |d|, p.src, p.dst, from, |s.arrivals|)] else s.transferChan)
  {
    var d := Codec.EncodePacket(z, p, false, compress, Some(sealer)).value;
    Codec.EndToEnd(z, p, compress, sealer);
    Codec.KeylessExact(d);
    ExecMore(Initial<Ref>(), steps, Receive(d, from, g));
    ReceiveExact(Exec(Initial<Ref>(), steps), d, from, g);
  }

  /** In every run, what is sent for something a client encoded is still readable by its receiver. */
  lemma RelayedReadable<Ref>(steps: seq<Step<Ref>>, i: nat, z: Codec.Lz4, p: Codec.Packet, compress: bool, sealer: Codec.Sealer)
    requires Codec.AeadLaw(sealer.aead) && Codec.Lz4Law(z) && p.pType == 8 && |p.payload| <= 65519
    requires var s := Exec(Initial<Ref>(), steps); i < |s.sent| && s.sent[i].origin.Relayed?
    requires var s := Exec(Initial<Ref>(), steps); s.sent[i].origin.k < |s.arrivals|
    requires var s := Exec(Initial<Ref>(), steps);
      Some(s.arrivals[s.sent[i].origin.k].bytes) == Codec.EncodePacket(z, p, false, compress, Some(sealer))
    ensures var s := Exec(Initial<Ref>(), steps);
      && Codec.Arrives(z, s.sent[i].bytes, p, sealer.aead)
      && s.sent[i].origin.k in s.routes && s.routes[s.sent[i].origin.k].dst == p.dst
  {
    RelayTransparency(steps);
    Codec.EndToEnd(z, p, compress, sealer);
  }

  // ---------- writing out ----------

  /** A writer takes the oldest packet onto the end of its batch, up to 16. */
  lemma PullExact<Ref>(s: State<Ref>, w: nat)
    ensures var t := Apply(s, Pull(w));
      if s.packetChan == [] || |BatchOf(s, w)| >= 16 then t == s
      else
        && t.packetChan == s.packetChan[1..] && BatchOf(t, w) == BatchOf(s, w) + [s.packetChan[0]]
        && (forall v :: v != w ==> BatchOf(t, v) == BatchOf(s, v))
        && t.heap == s.heap && t.pool == s.pool && t.sent == s.sent && t.transferChan == s.transferChan && t.clients == s.clients
  {
  }

  /** The message is what the packet's buffer holds, to its address. */
  predicate SentAs<Ref(==)>(heap: map<Ref, seq<byte>>, o: Outgoing<Ref>, x: Sent) {
    && o.ref in heap && o.len <= |heap[o.ref]|
    && x.bytes == heap[o.ref][..o.len] && x.addr == o.addr && x.origin == o.origin
  }

  lemma BatchReadable<Ref>(steps: seq<Step<Ref>>, w: nat)
    ensures var s := Exec(Initial<Ref>(), steps);
      forall i :: 0 <= i < |BatchOf(s, w)| ==> Readable(s.heap, BatchOf(s, w)[i]) && BatchOf(s, w)[i].ref !in s.pool
  {
    InvRun(Initial<Ref>(), steps);
    var s := Exec(Initial<Ref>(), steps);
    var b := BatchOf(s, w);
    forall i | 0 <= i < |b| ensures Readable(s.heap, b[i]) && b[i].ref !in s.pool {
      assert OutgoingOk(Book(s), b[i], Batched(w)) && Has(s.own, b[i].ref, Batched(w));
    }
  }

  /** In every run, a flush sends the whole batch in order, each packet with the bytes its buffer
      holds and to its address, and returns exactly these buffers. */
  lemma FlushExact<Ref>(steps: seq<Step<Ref>>, w: nat)
    ensures var s := Exec(Initial<Ref>(), steps); var t := Apply(s, Flush(w)); var b := BatchOf(s, w);
      && |t.sent| == |s.sent| + |b| && s.sent <= t.sent
      && (forall i :: 0 <= i < |b| ==> SentAs(s.heap, b[i], t.sent[|s.sent| + i]))
      && BatchOf(t, w) == [] && (forall v :: v != w ==> BatchOf(t, v) == BatchOf(s, v))
      && s.pool <= t.pool && (forall i :: 0 <= i < |b| ==> b[i].ref in t.pool && b[i].ref !in s.pool)
      && (forall r :: r in t.pool - s.pool ==> exists i :: 0 <= i < |b| && b[i].ref == r)
      && t.heap == s.heap && t.packetChan == s.packetChan && t.transferChan == s.transferChan && t.clients == s.clients
  {
    BatchReadable(steps, w);
  }

  /** A DNS reply goes to the end of the packet queue, for the address that asked, unless 128 are
      waiting; then its buffer is back in the pool. */
  lemma DnsReplyExact<Ref>(s: State<Ref>, bytes: seq<byte>, to: Addr, g: Source<Ref>)
    requires Usable(s, g, |bytes|)
    ensures var t := Apply(s, DnsReply(bytes, to, g));
      && Landed(s, t, g.ref, bytes) && t.answers == s.answers + [Arrival(bytes, to)]
      && t.clients == s.clients && t.transferChan == s.transferChan && t.batches == s.batches && t.sent == s.sent
      && if |s.packetChan| < 128 then
           t.packetChan == s.packetChan + [Outgoing(g.ref, |bytes|, to, Answer(|s.answers|))] && t.pool == s.pool - {g.ref}
         else t.packetChan == s.packetChan && t.pool == s.pool + {g.ref}
  {
    var s1 := s.(answers := s.answers + [Arrival(bytes, to)]);
    FillLands(s1, g, bytes, Queued);
    FillLands(s1, g, bytes, Pooled);
  }

  // ---------- key replies and the pool ----------

  /** An accepted key query keeps its buffer for the reply, a refused one gives it back. */
  lemma QueryExact<Ref>(s: State<Ref>, bytes: seq<byte>, accepted: bool, g: Source<Ref>)
    requires Usable(s, g, |bytes|)
    ensures var t := Apply(s, NoiseQuery(bytes, accepted, g));
      && Landed(s, t, g.ref, bytes)
      && if accepted then t.replies == s.replies + [g.ref] && t.pool == s.pool - {g.ref}
         else t.replies == s.replies && t.pool == s.pool + {g.ref}
  {
    FillLands(s, g, bytes, if accepted then Replying else Pooled);
  }

  /** The pool may grow by a buffer that is nowhere yet and may lose any buffer it holds. */
  lemma PoolExact<Ref>(s: State<Ref>, r: Ref, init: seq<byte>)
    ensures var t, u := Apply(s, Stock(r, init)), Apply(s, Evict(r));
      && t.pool == (if r in s.heap then s.pool else s.pool + {r})
      && t.heap == (if r in s.heap then s.heap else s.heap[r := init])
      && u.pool == s.pool - {r} && u.heap == s.heap
  {
    assert [] + init[0..] == init;
  }

  lemma ReplyWritten<Ref>(s: State<Ref>, i: nat, bytes: seq<byte>, g: Source<Ref>)
    requires i < |s.replies| && Usable(s, g, |bytes|)
    ensures var t := DoPump(s, i, bytes, g);
      && t.replies == s.replies[..i] + s.replies[i + 1..]
      && Landed(s, t, g.ref, bytes) && t.pool == s.pool + {g.ref, s.replies[i]}
  {
    FillLands(s.(replies := Without(s.replies, i)), g, bytes, Pooled);
  }

  /** In every run, the reply that is written out leaves the others in order, and both its buffer
      and the one it was encoded into are back; one that is abandoned is back nowhere. */
  lemma ReplyExact<Ref>(steps: seq<Step<Ref>>, i: nat, bytes: seq<byte>, g: Source<Ref>)
    requires var s := Exec(Initial<Ref>(), steps); i < |s.replies| && Usable(s, g, |bytes|)
    ensures var s := Exec(Initial<Ref>(), steps); var t, u := Apply(s, Pump(i, bytes, g)), Apply(s, Abandon(i));
      && t.replies == s.replies[..i] + s.replies[i + 1..] == u.replies
      && Landed(s, t, g.ref, bytes) && t.pool == s.pool + {g.ref, s.replies[i]}
      && u.pool == s.pool && s.replies[i] !in u.pool && u.heap == s.heap
  {
    InvRun(Initial<Ref>(), steps);
    var s := Exec(Initial<Ref>(), steps);
    assert Has(s.own, s.replies[i], Replying);
    ReplyWritten(s, i, bytes, g);
  }

  // ---------- who is registered, and where ----------

  /** The client last registered under `vip` and not withdrawn since, read off the steps alone. */
  function Registered<Ref>(steps: seq<Step<Ref>>, vip: Key4): Option<Client>
    decreases |steps|
  {
    if steps == [] then None else
      var n := |steps| - 1;
      if steps[n].Register? && steps[n].vip == vip then Some(steps[n].c)
      else if steps[n].Unregister? && steps[n].vip == vip then None
      else Registered(steps[..n], vip)
  }

  lemma ClientsFrame<Ref>(s: State<Ref>, st: Step<Ref>)
    requires !st.Register? && !st.Unregister? && !st.Receive? && !st.Transfer?
    ensures Apply(s, st).clients == s.clients
  {
    match st
    case Pull(w) =>
    case Flush(w) =>
    case DnsReply(bytes, to, g) =>
    case NoiseQuery(bytes, accepted, g) =>
    case Pump(i, bytes, g) =>
    case Abandon(i) =>
    case Stock(r, init) =>
    case Evict(r) =>
  }

  function Entry(d: Directory, vip: Key4): Option<Client> {
    if vip in d.at then Some(d.at[vip]) else None
  }

  lemma EntryStep<Ref>(s: State<Ref>, st: Step<Ref>, vip: Key4)
    ensures Entry(Apply(s, st).clients, vip) ==
      if st.Register? && st.vip == vip then Some(st.c)
      else if st.Unregister? && st.vip == vip then None
      else Entry(s.clients, vip)
  {
    match st
    case Receive(bytes, from, g) => ReceiveExact(s, bytes, from, g);
    case Transfer => if s.transferChan != [] { TransferOutcome(s); }
    case Register(_, _) =>
    case Unregister(_) =>
    case _ => ClientsFrame(s, st);
  }

  /** In every run, the client under a virtual address is the one last registered there, if it was
      not withdrawn since. */
  lemma {:induction false} RegistrationExact<Ref>(steps: seq<Step<Ref>>, vip: Key4)
    ensures Entry(Exec(Initial<Ref>(), steps).clients, vip) == Registered(steps, vip)
    decreases |steps|
  {
    if steps == [] { return; }
    var n := |steps| - 1;
    assert steps == steps[..n] + [steps[n]];
    ExecMore(Initial<Ref>(), steps[..n], steps[n]);
    EntryStep(Exec(Initial<Ref>(), steps[..n]), steps[n], vip);
    RegistrationExact(steps[..n], vip);
  }

  predicate AtClient(d: Directory, vip: Key4, c: Client) {
    vip in d.at && d.at[vip] == c
  }

  /** Where a step sees client `c` send from, if it does: a ping that comes in, or a data packet
      that is taken for transfer. */
  function Heard<Ref(==)>(s: State<Ref>, st: Step<Ref>, c: Client): Option<Addr> {
    if st.Receive? then
      if IsPing(st.bytes) && Usable(s, st.g, |st.bytes|) && AtClient(s.clients, st.bytes[9..13], c) then Some(st.from) else None
    else if st.Transfer? && s.transferChan != [] && AtClient(s.clients, s.transferChan[0].src, c)
    then Some(s.transferChan[0].from)
    else None
  }

  function LastHeard<Ref(==)>(steps: seq<Step<Ref>>, c: Client): Option<Addr>
    decreases |steps|
  {
    if steps == [] then None else
      var n := |steps| - 1;
      var a := Heard(Exec(Initial<Ref>(), steps[..n]), steps[n], c);
      if a.Some? then a else LastHeard(steps[..n], c)
  }

  function Known(d: Directory, c: Client): Option<Addr> {
    if c in d.known then Some(d.known[c]) else None
  }

  lemma SeenKnown(d: Directory, vip: Key4, from: Addr, c: Client)
    ensures Known(Seen(d, vip, from), c) == if AtClient(d, vip, c) then Some(from) else Known(d, c)
  {
  }

  lemma ReceiveKnown<Ref>(s: State<Ref>, bytes: seq<byte>, from: Addr, g: Source<Ref>, c: Client)
    ensures Known(Apply(s, Receive(bytes, from, g)).clients, c) ==
      if IsPing(bytes) && Usable(s, g, |bytes|) && AtClient(s.clients, bytes[9..13], c) then Some(from) else Known(s.clients, c)
  {
    ReceiveExact(s, bytes, from, g);
    if IsPing(bytes) {
      Codec.KeylessExact(bytes);
      SeenKnown(s.clients, bytes[9..13], from, c);
    }
  }

  lemma TransferKnown<Ref>(s: State<Ref>, c: Client)
    requires s.transferChan != []
    ensures var f := s.transferChan[0];
      Known(DoTransfer(s).clients, c) == if AtClient(s.clients, f.src, c) then Some(f.from) else Known(s.clients, c)
  {
    TransferOutcome(s);
    SeenKnown(s.clients, s.transferChan[0].src, s.transferChan[0].from, c);
  }

  lemma KnownStep<Ref>(s: State<Ref>, st: Step<Ref>, c: Client)
    ensures Known(Apply(s, st).clients, c) == if Heard(s, st, c).Some? then Heard(s, st, c) else Known(s.clients, c)
  {
    match st
    case Receive(bytes, from, g) => ReceiveKnown(s, bytes, from, g, c);
    case Transfer => if s.transferChan != [] { TransferKnown(s, c); }
    case Register(_, _) =>
    case Unregister(_) =>
    case _ => ClientsFrame(s, st);
  }

  /** In every run, a client's address is where it was last heard from: by a ping, or by a data
      packet once that was taken for transfer. */
  lemma {:induction false} AddressExact<Ref>(steps: seq<Step<Ref>>, c: Client)
    ensures Known(Exec(Initial<Ref>(), steps).clients, c) == LastHeard(steps, c)
    decreases |steps|
  {
    if steps == [] { return; }
    var n := |steps| - 1;
    assert steps == steps[..n] + [steps[n]];
    ExecMore(Initial<Ref>(), steps[..n], steps[n]);
    KnownStep(Exec(Initial<Ref>(), steps[..n]), steps[n], c);
    AddressExact(steps[..n], c);
  }

  // ---------- all the way through ----------

  /** What `Receive` and `Transfer` leave of a deliverable data packet when nothing waits. */
  ghost predicate HandedOn<Ref>(s: State<Ref>, t: State<Ref>, bytes: seq<byte>, to: Addr, r: Ref) {
    && t.packetChan == [Outgoing(r, |bytes|, to, Relayed(|s.arrivals|))]
    && r in t.heap && bytes <= t.heap[r] && t.sent == s.sent && t.batches == s.batches
  }

  lemma ComesIn<Ref>(s: State<Ref>, bytes: seq<byte>, from: Addr, g: Source<Ref>)
    requires IsData(bytes) && Usable(s, g, |bytes|) && s.transferChan == [] && s.packetChan == []
    requires Deliverable(s, bytes[9..13], bytes[3..7])
    ensures var src, dst := s.clients.at[bytes[9..13]], s.clients.at[bytes[3..7]];
      HandedOn(s, Apply(Apply(s, Receive(bytes, from, g)), Transfer), bytes, if dst == src then from else s.clients.known[dst], g.ref)
  {
    Codec.KeylessExact(bytes);
    ReceiveExact(s, bytes, from, g);
    TransferOutcome(Apply(s, Receive(bytes, from, g)));
  }

  lemma GoesOut<Ref>(steps: seq<Step<Ref>>, s: State<Ref>, bytes: seq<byte>, to: Addr, r: Ref, w: nat)
    requires HandedOn(s, Exec(Initial<Ref>(), steps), bytes, to, r) && BatchOf(s, w) == []
    ensures var t := Exec(Initial<Ref>(), steps + [Pull(w)] + [Flush(w)]);
      t.sent == s.sent + [Sent(bytes, to, Relayed(|s.arrivals|))] && r in t.pool
  {
    var t := Exec(Initial<Ref>(), steps);
    ExecMore(Initial<Ref>(), steps, Pull(w));
    ExecMore(Initial<Ref>(), steps + [Pull(w)], Flush(w));
    PullExact(t, w);
    FlushExact(steps + [Pull(w)], w);
    var u := Exec(Initial<Ref>(), steps + [Pull(w)]);
    var o := t.packetChan[0];
    assert BatchOf(u, w) == [o];
    var v := Apply(u, Flush(w));
    assert SentAs(u.heap, o, v.sent[|s.sent|]);
    assert u.heap[r][..|bytes|] == bytes;
    assert v.sent == v.sent[..|s.sent|] + [v.sent[|s.sent|]];
    assert v.sent[..|s.sent|] == s.sent;
  }

  /** From any reachable state whose queues are empty: a deliverable data packet that comes in goes
      out, as it came, to its destination's address. */
  lemma RelayedThrough<Ref>(steps: seq<Step<Ref>>, bytes: seq<byte>, from: Addr, g: Source<Ref>, w: nat)
    requires IsData(bytes)
    requires var s := Exec(Initial<Ref>(), steps);
      && Usable(s, g, |bytes|) && s.transferChan == [] && s.packetChan == [] && BatchOf(s, w) == []
      && Deliverable(s, bytes[9..13], bytes[3..7])
    ensures var s := Exec(Initial<Ref>(), steps);
      var t := Exec(Initial<Ref>(), steps + [Receive(bytes, from, g)] + [Transfer] + [Pull(w)] + [Flush(w)]);
      var src, dst := s.clients.at[bytes[9..13]], s.clients.at[bytes[3..7]];
      && t.sent == s.sent + [Sent(bytes, if dst == src then from else s.clients.known[dst], Relayed(|s.arrivals|))]
      && g.ref in t.pool
  {
    var s := Exec(Initial<Ref>(), steps);
    var src, dst := s.clients.at[bytes[9..13]], s.clients.at[bytes[3..7]];
    ComesIn(s, bytes, from, g);
    ExecMore(Initial<Ref>(), steps, Receive(bytes, from, g));
    ExecMore(Initial<Ref>(), steps + [Receive(bytes, from, g)], Transfer);
    GoesOut(steps + [Receive(bytes, from, g)] + [Transfer], s, bytes,
            if dst == src then from else s.clients.known[dst], g.ref, w);
  }
}
