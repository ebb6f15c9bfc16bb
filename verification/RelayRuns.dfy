/** What whole runs of the relay guarantee: exactly which packets are handed on, and that none
    of those is lost on its way out. */
module RelayRuns {
  import opened Bytes
  import opened Relay
  import Codec

  // ---------- which packets are handed on ----------

  /** A registered sender, a host of 10.0.6.0/24 that is not the broadcast address, registered
      for a client whose address is known (the sender's has just been learnt), and room in the
      queue. */
  predicate Deliverable<Ref(==)>(s: State<Ref>, src: Key4, dst: Key4) {
    && src in s.clients.at && dst in s.clients.at
    && (s.clients.at[dst] == s.clients.at[src] || s.clients.at[dst] in s.clients.known)
    && dst[0] == 10 && dst[1] == 0 && dst[2] == 6 && dst[3] != 255
    && |s.packetChan| < 128
  }

  lemma DestinationExact<Ref>(s: State<Ref>, src: Key4, dst: Key4, from: Addr)
    ensures Destination(Touch(s.clients, src, from), src, dst).Some? && |s.packetChan| < CHANNEL <==> Deliverable(s, src, dst)
  {
    assert dst[..3] == [dst[0], dst[1], dst[2]];
  }

  /** The directory once `vip` was seen sending from `from`. */
  function Seen(d: Directory, vip: Key4, from: Addr): Directory {
    if vip in d.at then Directory(d.at, d.known[d.at[vip] := from]) else d
  }

  /** What the transfer loop makes of the packet it takes. */
  ghost predicate Transferred<Ref>(s: State<Ref>, t: State<Ref>, f: Flight<Ref>) {
    && t.heap == s.heap && t.clients == Seen(s.clients, f.src, f.from) && t.batches == s.batches && t.sent == s.sent
    && if Deliverable(s, f.src, f.dst) then
         var to := if s.clients.at[f.dst] == s.clients.at[f.src] then f.from else s.clients.known[s.clients.at[f.dst]];
         && t.packetChan == s.packetChan + [Outgoing(f.ref, f.len, to, Relayed(f.origin))]
         && t.routes == s.routes[f.origin := Route(f.dst, to, t.clients)] && t.pool == s.pool
       else t.packetChan == s.packetChan && t.routes == s.routes && t.pool == s.pool + {f.ref}
  }

  lemma DestinationAddr<Ref>(s: State<Ref>, src: Key4, dst: Key4, from: Addr)
    requires Deliverable(s, src, dst)
    ensures Destination(Seen(s.clients, src, from), src, dst) ==
      Some(if s.clients.at[dst] == s.clients.at[src] then from else s.clients.known[s.clients.at[dst]])
  {
    assert dst[..3] == [dst[0], dst[1], dst[2]];
  }

  lemma TransferDelivers<Ref>(s: State<Ref>)
    requires s.transferChan != [] && Deliverable(s, s.transferChan[0].src, s.transferChan[0].dst)
    ensures Transferred(s, DoTransfer(s), s.transferChan[0])
  {
    var f := s.transferChan[0];
    DestinationAddr(s, f.src, f.dst, f.from);
  }

  lemma TransferDrops<Ref>(s: State<Ref>)
    requires s.transferChan != [] && !Deliverable(s, s.transferChan[0].src, s.transferChan[0].dst)
    ensures Transferred(s, DoTransfer(s), s.transferChan[0])
  {
    var f := s.transferChan[0];
    DestinationExact(s, f.src, f.dst, f.from);
  }

  lemma TransferOutcome<Ref>(s: State<Ref>)
    requires s.transferChan != []
    ensures DoTransfer(s).transferChan == s.transferChan[1..] && Transferred(s, DoTransfer(s), s.transferChan[0])
  {
    if Deliverable(s, s.transferChan[0].src, s.transferChan[0].dst) { TransferDelivers(s); } else { TransferDrops(s); }
  }

  lemma OldestFlight<Ref>(steps: seq<Step<Ref>>)
    requires Exec(Initial<Ref>(), steps).transferChan != []
    ensures var s := Exec(Initial<Ref>(), steps); var f := s.transferChan[0];
      && f.origin < |s.arrivals| && f.origin !in s.routes && |s.arrivals[f.origin].bytes| >= 21
      && var b := s.arrivals[f.origin].bytes;
         f.len == |b| && f.src == b[9..13] && f.dst == b[3..7] && f.from == s.arrivals[f.origin].from
  {
    InvRun(Initial<Ref>(), steps);
    var s := Exec(Initial<Ref>(), steps);
    assert FlightOk(Book(s), s.transferChan[0]);
    Codec.KeylessExact(s.arrivals[s.transferChan[0].origin].bytes);
  }

  /** In every run: the transfer loop takes the oldest packet and learns where its sender is.  If
      the packet is deliverable it goes to the end of the packet queue with all its bytes, for the
      address of its destination; otherwise its buffer is back in the pool and nothing is queued. */
  lemma TransferExact<Ref>(steps: seq<Step<Ref>>)
    requires Exec(Initial<Ref>(), steps).transferChan != []
    ensures var s := Exec(Initial<Ref>(), steps); var t := Apply(s, Transfer);
      var ref, k := s.transferChan[0].ref, s.transferChan[0].origin;
      && k < |s.arrivals| && |s.arrivals[k].bytes| >= 21 && k !in s.routes
      && var b, from := s.arrivals[k].bytes, s.arrivals[k].from;
         var src, dst := b[9..13], b[3..7];
         && t.transferChan == s.transferChan[1..] && t.heap == s.heap && t.clients == Seen(s.clients, src, from)
         && if Deliverable(s, src, dst) then
              var to := if s.clients.at[dst] == s.clients.at[src] then from else s.clients.known[s.clients.at[dst]];
              && t.packetChan == s.packetChan + [Outgoing(ref, |b|, to, Relayed(k))]
              && t.routes == s.routes[k := Route(dst, to, t.clients)] && t.pool == s.pool
            else t.packetChan == s.packetChan && t.routes == s.routes && t.pool == s.pool + {ref}
  {
    OldestFlight(steps);
    TransferOutcome(Exec(Initial<Ref>(), steps));
  }

  // ---------- no packet handed on is lost ----------

  function SentOrigins(q: seq<Sent>): set<nat> {
    set i | 0 <= i < |q| && q[i].origin.Relayed? :: q[i].origin.k
  }

  /** Where a routed packet must be, by the stage it is in. */
  predicate Somewhere<Ref(==)>(s: State<Ref>, k: nat, at: Kind) {
    match at
    case Queued => k in Origins(s.packetChan)
    case Batched(w) => k in Origins(BatchOf(s, w))
    case Gone => k in SentOrigins(s.sent)
    case _ => false
  }

  ghost predicate Complete<Ref>(s: State<Ref>) {
    forall k :: k in s.stage ==> Somewhere(s, k, s.stage[k])
  }

  lemma OriginsMore<Ref>(q: seq<Outgoing<Ref>>, o: Outgoing<Ref>)
    ensures Origins(q + [o]) == Origins(q) + if o.origin.Relayed? then {o.origin.k} else {}
  {
    var r := q + [o];
    assert forall i :: 0 <= i < |q| ==> r[i] == q[i];
    assert r[|q|] == o;
    forall k | k in Origins(q) + if o.origin.Relayed? then {o.origin.k} else {} ensures k in Origins(r) {
      if k in Origins(q) {
        var i :| 0 <= i < |q| && q[i].origin == Relayed(k);
        assert r[i].origin == Relayed(k);
      } else {
        assert r[|q|].origin == Relayed(k);
      }
    }
  }

  lemma OriginsTail<Ref>(q: seq<Outgoing<Ref>>)
    requires q != []
    ensures Origins(q) <= Origins(q[1..]) + if q[0].origin.Relayed? then {q[0].origin.k} else {}
  {
    forall k | k in Origins(q) ensures k in Origins(q[1..]) + if q[0].origin.Relayed? then {q[0].origin.k} else {} {
      var i :| 0 <= i < |q| && q[i].origin == Relayed(k);
      if i > 0 { assert q[1..][i - 1].origin == Relayed(k); }
    }
  }

  lemma SentMore<Ref>(heap: map<Ref, seq<byte>>, q: seq<Sent>, b: seq<Outgoing<Ref>>)
    requires forall i :: 0 <= i < |b| ==> Readable(heap, b[i])
    ensures SentOrigins(q) + Origins(b) <= SentOrigins(q + Emits(heap, b))
  {
    var r := q + Emits(heap, b);
    forall k | k in SentOrigins(q) + Origins(b) ensures k in SentOrigins(r) {
      if k in SentOrigins(q) {
        var i :| 0 <= i < |q| && q[i].origin == Relayed(k);
        assert r[i].origin == Relayed(k);
      } else {
        var i :| 0 <= i < |b| && b[i].origin == Relayed(k);
        assert r[|q| + i] == Emit(heap, b[i]);
      }
    }
  }

  lemma TransferComplete<Ref>(s: State<Ref>)
    requires Complete(s) && s.transferChan != []
    ensures Complete(DoTransfer(s))
  {
    var t, f := DoTransfer(s), s.transferChan[0];
    var a := Destination(Touch(s.clients, f.src, f.from), f.src, f.dst);
    if a.Some? && |s.packetChan| < CHANNEL {
      OriginsMore(s.packetChan, Outgoing(f.ref, f.len, a.value, Relayed(f.origin)));
      forall k | k in t.stage ensures Somewhere(t, k, t.stage[k]) {
        assert k != f.origin ==> Somewhere(s, k, s.stage[k]);
      }
    } else {
      forall k | k in t.stage ensures Somewhere(t, k, t.stage[k]) {
        assert Somewhere(s, k, s.stage[k]);
      }
    }
  }

  lemma PullComplete<Ref>(s: State<Ref>, w: nat)
    requires Complete(s) && s.packetChan != []
    ensures Complete(DoPull(s, w))
  {
    var t, p := DoPull(s, w), s.packetChan[0];
    OriginsTail(s.packetChan);
    OriginsMore(BatchOf(s, w), p);
    forall k | k in t.stage ensures Somewhere(t, k, t.stage[k]) {
      if p.origin != Relayed(k) { assert Somewhere(s, k, s.stage[k]); }
    }
  }

  lemma FlushComplete<Ref>(s: State<Ref>, w: nat)
    requires Complete(s) && forall i :: 0 <= i < |BatchOf(s, w)| ==> Readable(s.heap, BatchOf(s, w)[i])
    ensures Complete(DoFlush(s, w))
  {
    var t, b := DoFlush(s, w), BatchOf(s, w);
    SentMore(s.heap, s.sent, b);
    forall k | k in t.stage ensures Somewhere(t, k, t.stage[k]) {
      assert Somewhere(s, k, s.stage[k]);
    }
  }

  /** Every other step leaves the outgoing packets as they are, or queues one without an origin. */
  lemma QuietComplete<Ref>(s: State<Ref>, t: State<Ref>)
    requires Complete(s) && t.stage == s.stage && t.batches == s.batches && t.sent == s.sent
    requires Origins(s.packetChan) <= Origins(t.packetChan)
    ensures Complete(t)
  {
    forall k | k in t.stage ensures Somewhere(t, k, t.stage[k]) {
      assert Somewhere(s, k, s.stage[k]);
    }
  }

  lemma DnsComplete<Ref>(s: State<Ref>, bytes: seq<byte>, to: Addr, g: Source<Ref>)
    requires Complete(s)
    ensures Complete(Apply(s, DnsReply(bytes, to, g)))
  {
    if !Usable(s, g, |bytes|) { return; }
    var s1 := s.(answers := s.answers + [Arrival(bytes, to)]);
    QuietComplete(s, s1);
    if |s.packetChan| >= CHANNEL {
      QuietComplete(s1, Fill(s1, g, bytes, Pooled));
      return;
    }
    var o := Outgoing(g.ref, |bytes|, to, Answer(|s.answers|));
    OriginsMore(s.packetChan, o);
    QuietComplete(s1, Fill(s1, g, bytes, Queued).(packetChan := s.packetChan + [o]));
  }

  /** The outgoing side is as it was. */
  predicate Quiet<Ref>(s: State<Ref>, t: State<Ref>) {
    t.stage == s.stage && t.batches == s.batches && t.sent == s.sent && t.packetChan == s.packetChan
  }

  lemma FillQuiet<Ref>(s: State<Ref>, g: Source<Ref>, bytes: seq<byte>, k: Kind)
    requires Usable(s, g, |bytes|)
    ensures Quiet(s, Fill(s, g, bytes, k))
  {
  }

  lemma DispatchQuiet<Ref>(s: State<Ref>, bytes: seq<byte>, from: Addr, g: Source<Ref>, origin: nat)
    requires Usable(s, g, |bytes|)
    ensures Quiet(s, Dispatch(s, bytes, from, g, origin))
  {
    FillQuiet(s, g, bytes, Transferring);
    FillQuiet(s, g, bytes, Pooled);
    var p := Codec.ParsePacket(bytes);
    if p.Ok? && Codec.Unflag(p.value.pType) == Codec.TYPE_DATA && |s.transferChan| < CHANNEL { return; }
    if p.Ok? && Codec.Unflag(p.value.pType) == TYPE_PING { return; }
  }

  lemma ReceiveQuiet<Ref>(s: State<Ref>, bytes: seq<byte>, from: Addr, g: Source<Ref>)
    ensures Quiet(s, DoReceive(s, bytes, from, g))
  {
    var s1 := s.(arrivals := s.arrivals + [Arrival(bytes, from)]);
    if |bytes| > Codec.MAX_PACKET { return; }
    if !Usable(s1, g, |bytes|) { return; }
    DispatchQuiet(s1, bytes, from, g, |s.arrivals|);
  }

  lemma QueryQuiet<Ref>(s: State<Ref>, bytes: seq<byte>, accepted: bool, g: Source<Ref>)
    ensures Quiet(s, Apply(s, NoiseQuery(bytes, accepted, g)))
  {
    if !Usable(s, g, |bytes|) { return; }
    FillQuiet(s, g, bytes, if accepted then Replying else Pooled);
  }

  lemma PumpQuiet<Ref>(s: State<Ref>, i: nat, bytes: seq<byte>, g: Source<Ref>)
    requires i < |s.replies|
    ensures Quiet(s, DoPump(s, i, bytes, g))
  {
    if !Usable(s, g, |bytes|) { return; }
    FillQuiet(s.(replies := Relay.Without(s.replies, i)), g, bytes, Pooled);
  }

  lemma StockQuiet<Ref>(s: State<Ref>, r: Ref, init: seq<byte>)
    ensures Quiet(s, Apply(s, Stock(r, init)))
  {
    if r !in s.heap { FillQuiet(s, Make(r, init), [], Pooled); }
  }

  lemma TableQuiet<Ref>(s: State<Ref>, st: Step<Ref>)
    requires st.Register? || st.Unregister? || st.Evict? || st.Abandon?
    ensures Quiet(s, Apply(s, st))
  {
    match st
    case Register(_, _) =>
    case Unregister(_) =>
    case Evict(r) =>
    case Abandon(i) =>
  }

  lemma QuietStep<Ref>(s: State<Ref>, st: Step<Ref>)
    requires !st.Transfer? && !st.Pull? && !st.Flush? && !st.DnsReply?
    ensures Quiet(s, Apply(s, st))
  {
    match st
    case Receive(bytes, from, g) => ReceiveQuiet(s, bytes, from, g);
    case NoiseQuery(bytes, accepted, g) => QueryQuiet(s, bytes, accepted, g);
    case Pump(i, bytes, g) => if i < |s.replies| { PumpQuiet(s, i, bytes, g); }
    case Stock(r, init) => StockQuiet(s, r, init);
    case _ => TableQuiet(s, st);
  }

  lemma FlushStepComplete<Ref>(s: State<Ref>, w: nat)
    requires Complete(s)
    ensures Complete(Apply(s, Flush(w)))
  {
    if forall i :: 0 <= i < |BatchOf(s, w)| ==> Readable(s.heap, BatchOf(s, w)[i]) { FlushComplete(s, w); }
  }

  lemma CompleteStep<Ref>(s: State<Ref>, st: Step<Ref>)
    requires Complete(s)
    ensures Complete(Apply(s, st))
  {
    match st
    case Transfer => if s.transferChan != [] { TransferComplete(s); }
    case Pull(w) => if s.packetChan != [] && |BatchOf(s, w)| < BATCH { PullComplete(s, w); }
    case Flush(w) => FlushStepComplete(s, w);
    case DnsReply(bytes, to, g) => DnsComplete(s, bytes, to, g);
    case _ =>
      QuietStep(s, st);
      QuietComplete(s, Apply(s, st));
  }

  lemma {:induction false} CompleteRun<Ref>(s: State<Ref>, steps: seq<Step<Ref>>)
    requires Complete(s)
    ensures Complete(Exec(s, steps))
    decreases |steps|
  {
    if steps != [] {
      CompleteStep(s, steps[0]);
      CompleteRun(Apply(s, steps[0]), steps[1..]);
    }
  }

  /** A place on the way out. */
  datatype Slot = InQueue(i: nat) | InBatch(w: nat, i: nat) | InSent(i: nat)

  /** The packet of arrival `k` is in slot `p`. */
  predicate At<Ref>(s: State<Ref>, k: nat, p: Slot) {
    match p
    case InQueue(i) => i < |s.packetChan| && s.packetChan[i].origin == Relayed(k)
    case InBatch(w, i) => w in s.batches && i < |s.batches[w]| && s.batches[w][i].origin == Relayed(k)
    case InSent(i) => i < |s.sent| && s.sent[i].origin == Relayed(k)
  }

  lemma SlotStage<Ref>(s: State<Ref>, k: nat, p: Slot)
    requires Faithful(s) && At(s, k, p)
    ensures k in s.stage && k in s.routes
    ensures s.stage[k] == match p case InQueue(_) => Queued case InBatch(w, _) => Batched(w) case InSent(_) => Gone
  {
    match p
    case InQueue(i) => assert OutgoingOk(Book(s), s.packetChan[i], Queued);
    case InBatch(w, i) => assert OutgoingOk(Book(s), s.batches[w][i], Batched(w));
    case InSent(i) => assert SentOk(Book(s), s.sent[i]);
  }

  lemma OneSlot<Ref>(s: State<Ref>, k: nat, p: Slot, q: Slot)
    requires Faithful(s) && At(s, k, p) && At(s, k, q)
    ensures p == q
  {
    SlotStage(s, k, p);
    SlotStage(s, k, q);
    if p.InBatch? { assert Once(s.batches[p.w]); }
  }

  lemma FindSlot<Ref>(s: State<Ref>, k: nat) returns (p: Slot)
    requires Complete(s) && k in s.stage
    ensures At(s, k, p)
  {
    assert Somewhere(s, k, s.stage[k]);
    match s.stage[k]
    case Queued =>
      var i: nat :| i < |s.packetChan| && s.packetChan[i].origin == Relayed(k);
      p := InQueue(i);
    case Batched(w) =>
      var i: nat :| i < |BatchOf(s, w)| && BatchOf(s, w)[i].origin == Relayed(k);
      p := InBatch(w, i);
    case Gone =>
      var i: nat :| i < |s.sent| && s.sent[i].origin == Relayed(k);
      p := InSent(i);
  }

  /** In every interleaving, every packet that was handed on is in exactly one slot, and no slot
      holds another: it waits in the queue, in one batch, or it has been sent, once. */
  lemma NothingRoutedLost<Ref>(steps: seq<Step<Ref>>, k: nat)
    ensures var s := Exec(Initial<Ref>(), steps);
      && (k in s.routes <==> exists p :: At(s, k, p))
      && (forall p, q :: At(s, k, p) && At(s, k, q) ==> p == q)
  {
    InvRun(Initial<Ref>(), steps);
    CompleteRun(Initial<Ref>(), steps);
    var s := Exec(Initial<Ref>(), steps);
    if k in s.routes { var p := FindSlot(s, k); }
    forall p | At(s, k, p) ensures k in s.routes { SlotStage(s, k, p); }
    forall p, q | At(s, k, p) && At(s, k, q) ensures p == q { OneSlot(s, k, p, q); }
  }

  /** Once the writers have nothing left, what was handed on is exactly what was sent. */
  lemma DrainedIsSent<Ref>(steps: seq<Step<Ref>>)
    requires var s := Exec(Initial<Ref>(), steps); s.packetChan == [] && forall w :: w in s.batches ==> s.batches[w] == []
    ensures var s := Exec(Initial<Ref>(), steps); s.routes.Keys == SentOrigins(s.sent)
  {
    var s := Exec(Initial<Ref>(), steps);
    forall k ensures k in s.routes <==> k in SentOrigins(s.sent) {
      NothingRoutedLost(steps, k);
      if k in s.routes {
        var p :| At(s, k, p);
        assert p.InSent?;
      }
      if k in SentOrigins(s.sent) {
        var i: nat :| i < |s.sent| && s.sent[i].origin == Relayed(k);
        assert At(s, k, InSent(i));
      }
    }
  }

  // ---------- two runs ----------

  function DataTo(src: Key4, dst: Key4, payload: seq<byte>): (b: seq<byte>)
    requires |payload| <= MAX_PAYLOAD
  {
    Codec.Encode(Codec.Packet(src, dst, Codec.TYPE_DATA, payload), false, None).value
  }

  lemma DataParses(src: Key4, dst: Key4, payload: seq<byte>)
    requires |payload| <= MAX_PAYLOAD
    ensures Codec.ParsePacket(DataTo(src, dst, payload)).Ok? && |DataTo(src, dst, payload)| <= Codec.MAX_PACKET
    ensures var h := Codec.ParsePacket(DataTo(src, dst, payload)).value;
      h.src == src && h.dst == dst && h.pType == Codec.TYPE_DATA
  {
    Codec.PlainRoundTrip(Codec.Packet(src, dst, Codec.TYPE_DATA, payload), false);
  }

  /** A client registers and its first packet comes in, into a new buffer. */
  function Arrives<Ref>(src: Key4, dst: Key4, payload: seq<byte>, from: Addr, g: Source<Ref>): seq<Step<Ref>>
    requires |payload| <= MAX_PAYLOAD
  {
    [Register(src, 0), Receive(DataTo(src, dst, payload), from, g)]
  }

  lemma FirstArrival<Ref>(src: Key4, dst: Key4, payload: seq<byte>, from: Addr, r: Ref, init: seq<byte>)
    requires |payload| <= MAX_PAYLOAD && |DataTo(src, dst, payload)| <= |init|
    ensures var b := DataTo(src, dst, payload); var s0 := Apply(Initial<Ref>(), Register(src, 0));
      var s := DoReceive(s0, b, from, Make(r, init));
      && s.clients == Directory(map[src := 0], map[]) && s.packetChan == [] && s.routes == map[] && s.arrivals == [Arrival(b, from)]
      && s.transferChan == [Flight(r, |b|, src, dst, from, 0)]
  {
    DataParses(src, dst, payload);
  }

  lemma AfterArrival<Ref>(src: Key4, dst: Key4, payload: seq<byte>, from: Addr, r: Ref, init: seq<byte>)
    requires |payload| <= MAX_PAYLOAD && |DataTo(src, dst, payload)| <= |init|
    ensures var b := DataTo(src, dst, payload); var s := Exec(Initial<Ref>(), Arrives(src, dst, payload, from, Make(r, init)));
      && s.clients == Directory(map[src := 0], map[]) && s.packetChan == [] && s.routes == map[] && s.arrivals == [Arrival(b, from)]
      && s.transferChan == [Flight(r, |b|, src, dst, from, 0)]
  {
    var steps := Arrives(src, dst, payload, from, Make(r, init));
    assert steps == [steps[0]] + [steps[1]];
    ExecMore(Initial<Ref>(), [steps[0]], steps[1]);
    assert [steps[0]][1..] == [];
    FirstArrival(src, dst, payload, from, r, init);
  }

  /** A registered sender's packet to the broadcast address, or to a multicast group, is taken
      off the transfer queue and dropped. */
  lemma BroadcastDropped<Ref>(src: Key4, dst: Key4, payload: seq<byte>, from: Addr, r: Ref, init: seq<byte>)
    requires |payload| <= MAX_PAYLOAD && |DataTo(src, dst, payload)| <= |init|
    requires dst == [10, 0, 6, 255] || 224 <= dst[0] <= 239
    ensures var s := Exec(Initial<Ref>(), Arrives(src, dst, payload, from, Make(r, init)) + [Transfer]);
      s.transferChan == [] && s.packetChan == [] && s.routes == map[] && r in s.pool
  {
    var steps := Arrives(src, dst, payload, from, Make(r, init));
    AfterArrival(src, dst, payload, from, r, init);
    ExecMore(Initial<Ref>(), steps, Transfer);
    DestinationExact(Exec(Initial<Ref>(), steps), src, dst, from);
  }

  /** A packet to the sender's own address is relayed back to where it came from. */
  lemma UnicastHandedOn<Ref>(vip: Key4, payload: seq<byte>, from: Addr, r: Ref, init: seq<byte>)
    requires |payload| <= MAX_PAYLOAD && |DataTo(vip, vip, payload)| <= |init|
    requires vip[0] == 10 && vip[1] == 0 && vip[2] == 6 && vip[3] != 255
    ensures var b := DataTo(vip, vip, payload);
      var s := Exec(Initial<Ref>(), Arrives(vip, vip, payload, from, Make(r, init)) + [Transfer]);
      s.packetChan == [Outgoing(r, |b|, from, Relayed(0))] && 0 in s.routes
  {
    var steps := Arrives(vip, vip, payload, from, Make(r, init));
    AfterArrival(vip, vip, payload, from, r, init);
    ExecMore(Initial<Ref>(), steps, Transfer);
    assert vip[..3] == [10, 0, 6];
  }
}
