/** The data plane on real arrays.  Every worker's step is tied to the step of the relay
    model, so ownership and transparency hold of the arrays themselves. */
module RelayServer {
  import opened Bytes
  import opened Relay
  import Codec

  class RelayServer {
    var bufPool: set<array<byte>>
    var transferChan: seq<Flight<array<byte>>>
    var packetChan: seq<Outgoing<array<byte>>>
    var batches: map<nat, seq<Outgoing<array<byte>>>>
    var replies: seq<array<byte>>
    var clients: Directory
    var sent: seq<Sent>
    ghost var own: map<array<byte>, Kind>
    var arrivals: seq<Arrival>
    var answers: seq<Arrival>
    ghost var routes: map<nat, Route>
    ghost var stage: map<nat, Kind>
    ghost var twice: bool

    constructor ()
      ensures Valid() && View() == Initial<array<byte>>()
    {
      bufPool, transferChan, packetChan, batches, replies := {}, [], [], map[], [];
      clients, sent, own, arrivals, routes, stage := Directory(map[], map[]), [], map[], [], map[], map[];
      answers, twice := [], false;
    }

    ghost function View(): State<array<byte>> reads this, own.Keys {
      State(Heap(), own, bufPool, transferChan, packetChan, batches, replies, clients,
            arrivals, answers, routes, stage, sent, twice)
    }

    ghost predicate Valid() reads this, own.Keys {
      Inv(View())
    }

    /** All that filling a buffer needs of the invariant. */
    ghost predicate Tracked() reads this {
      forall a :: a in bufPool ==> a in own
    }

    /** `Get` with the capacity test: a pooled array that is large enough, or a new one. */
    method Obtain(n: nat) returns (b: array<byte>, ghost g: Source<array<byte>>)
      requires Tracked()
      ensures View() == old(View()) && g.ref == b && Usable(View(), g, n)
      ensures g.Make? ==> fresh(b) && b[..] == g.init
    {
      if bufPool != {} {
        b :| b in bufPool;
        if n <= b.Length { return b, Reuse(b); }
      }
      var size := if n <= 2048 then 2048 else n;
      b := new byte[size](_ => 0);
      g := Make(b, b[..]);
    }

    /** The contents of all tracked buffers. */
    ghost function Heap(): map<array<byte>, seq<byte>> reads this, own.Keys {
      map a | a in own :: a[..]
    }

    /** Writes to one buffer and records who has it; no other buffer changes. */
    method Claim(b: array<byte>, bytes: seq<byte>, ghost k: Kind)
      requires |bytes| <= b.Length
      modifies this`bufPool, this`own, b
      ensures own == old(own)[b := k] && bufPool == old(bufPool) - {b}
      ensures Heap() == old(Heap())[b := bytes + old(b[..])[|bytes|..]]
    {
      CopyAt(b, 0, bytes);
      assert b[..] == bytes + old(b[..])[|bytes|..];
      bufPool, own := bufPool - {b}, own[b := k];
    }

    /** Obtains a buffer, copies `bytes` into it and records who has it now. */
    method FillBuffer(bytes: seq<byte>, ghost k: Kind) returns (b: array<byte>, ghost g: Source<array<byte>>)
      requires Tracked() && !k.Pooled?
      modifies this`bufPool, this`own, bufPool
      ensures g.ref == b && Usable(old(View()), g, |bytes|) && View() == Fill(old(View()), g, bytes, k)
    {
      b, g := Obtain(|bytes|);
      Claim(b, bytes, k);
    }

    /** `Put`.  Its precondition is the obligation that no buffer is returned twice. */
    method Put(b: array<byte>)
      requires b in own && b !in bufPool
      modifies this`bufPool, this`own
      ensures View() == Give(old(View()), b)
    {
      bufPool, own := bufPool + {b}, own[b := Pooled];
    }

    lemma StepValid(s: State<array<byte>>, st: Step<array<byte>>)
      requires Inv(s)
      ensures Inv(Apply(s, st))
    {
      OwnedStep(s, st);
      FaithfulStep(s, st);
    }

    lemma ValidTracked()
      requires Valid()
      ensures Tracked()
    {
    }

    /** Holding a buffer and putting it back is the same as never having kept it. */
    lemma FillGive(s: State<array<byte>>, g: Source<array<byte>>, bytes: seq<byte>)
      requires Usable(s, g, |bytes|)
      ensures Give(Fill(s, g, bytes, Gone), g.ref) == Fill(s, g, bytes, Pooled)
    {
      assert s.own[g.ref := Gone][g.ref := Pooled] == s.own[g.ref := Pooled];
      assert s.pool - {g.ref} + {g.ref} == s.pool + {g.ref};
    }

    /** Obtains and fills a buffer only to put it back. */
    method FillAndPut(bytes: seq<byte>) returns (ghost g: Source<array<byte>>)
      requires Tracked()
      modifies this`bufPool, this`own, bufPool
      ensures Usable(old(View()), g, |bytes|) && View() == Fill(old(View()), g, bytes, Pooled)
    {
      ghost var before := View();
      var b;
      b, g := FillBuffer(bytes, Gone);
      FillGive(before, g, bytes);
      Put(b);
    }

    /** A data packet goes onto the transfer queue in a buffer of its own. */
    method QueueData(bytes: seq<byte>, h: Codec.Header, from: Addr, origin: nat) returns (ghost g: Source<array<byte>>)
      requires Tracked()
      modifies this`bufPool, this`own, this`transferChan, bufPool
      ensures Usable(old(View()), g, |bytes|)
      ensures View() == Fill(old(View()), g, bytes, Transferring).(
        transferChan := old(transferChan) + [Flight(g.ref, |bytes|, h.src, h.dst, from, origin)])
    {
      var b;
      b, g := FillBuffer(bytes, Transferring);
      transferChan := transferChan + [Flight(b, |bytes|, h.src, h.dst, from, origin)];
    }

    /** A heartbeat refreshes the sender's address. */
    method TakePing(bytes: seq<byte>, src: Key4, from: Addr) returns (ghost g: Source<array<byte>>)
      requires Tracked()
      modifies this`bufPool, this`own, this`clients, bufPool
      ensures Usable(old(View()), g, |bytes|)
      ensures View() == Fill(old(View()), g, bytes, Pooled).(clients := Touch(old(clients), src, from))
    {
      g := FillAndPut(bytes);
      SetClients(Touch(clients, src, from));
    }

    /** A datagram that fits: parsed, queued, or cleaned up. */
    method Accept(bytes: seq<byte>, from: Addr, origin: nat) returns (ghost g: Source<array<byte>>)
      requires Tracked()
      modifies this`bufPool, this`own, this`transferChan, this`clients, bufPool
      ensures Usable(old(View()), g, |bytes|)
      ensures View() == Dispatch(old(View()), bytes, from, g, origin)
    {
      var p := Codec.ParsePacket(bytes);
      if p.Ok? && Codec.Unflag(p.value.pType) == Codec.TYPE_DATA && |transferChan| < CHANNEL {
        g := QueueData(bytes, p.value, from, origin);
        return;
      }
      if p.Ok? && Codec.Unflag(p.value.pType) == TYPE_PING {
        g := TakePing(bytes, p.value.src, from);
        return;
      }
      g := FillAndPut(bytes);
    }

    method Note(a: Arrival)
      modifies this`arrivals
      ensures View() == old(View()).(arrivals := old(arrivals) + [a])
    {
      arrivals := arrivals + [a];
    }

    method Arrive(bytes: seq<byte>, from: Addr) returns (ghost g: Source<array<byte>>)
      requires Tracked()
      modifies this, bufPool
      ensures View() == DoReceive(old(View()), bytes, from, g)
    {
      var origin := |arrivals|;
      Note(Arrival(bytes, from));
      ghost var noted := View();
      if |bytes| > Codec.MAX_PACKET {
        var none: array<byte> := new byte[0];
        return Reuse(none);
      }
      g := Accept(bytes, from, origin);
      assert View() == Dispatch(noted, bytes, from, g, origin);
    }

    /** One datagram of the receive loop, with its clean-up path. */
    method Receive(bytes: seq<byte>, from: Addr) returns (ghost g: Source<array<byte>>)
      requires Valid()
      modifies this, bufPool
      ensures Valid() && View() == Apply(old(View()), Step.Receive(bytes, from, g))
    {
      ghost var before := View();
      ValidTracked();
      g := Arrive(bytes, from);
      StepValid(before, Step.Receive(bytes, from, g));
    }

    /** Passes a buffer on; the buffers' contents do not change. */
    ghost method PassOn(b: array<byte>, k: Kind)
      requires b in own
      modifies this`own
      ensures own == old(own)[b := k] && Heap() == old(Heap())
    {
      own := own[b := k];
    }

    /** A routed packet moves to the packet queue, buffer and all. */
    method HandOn(tp: Flight<array<byte>>, to: Addr)
      requires tp.ref in own
      modifies this`packetChan, this`own, this`routes, this`stage
      ensures View() == old(View()).(
        packetChan := old(packetChan) + [Outgoing(tp.ref, tp.len, to, Relayed(tp.origin))],
        own := old(own)[tp.ref := Queued],
        routes := old(routes)[tp.origin := Route(tp.dst, to, clients)],
        stage := old(stage)[tp.origin := Queued])
    {
      packetChan := packetChan + [Outgoing(tp.ref, tp.len, to, Relayed(tp.origin))];
      routes, stage := routes[tp.origin := Route(tp.dst, to, clients)], stage[tp.origin := Queued];
      PassOn(tp.ref, Queued);
    }

    /** One packet of the transfer loop; a packet that is not handed on gives its buffer back. */
    method TransferOne()
      requires transferChan != [] && transferChan[0].ref in own && transferChan[0].ref !in bufPool
      modifies this`transferChan, this`packetChan, this`clients, this`own, this`bufPool, this`routes, this`stage
      ensures View() == DoTransfer(old(View()))
    {
      var tp := transferChan[0];
      transferChan := transferChan[1..];
      clients := Touch(clients, tp.src, tp.from);
      var dst := Destination(clients, tp.src, tp.dst);
      if dst.Some? && |packetChan| < CHANNEL {
        HandOn(tp, dst.value);
        return;
      }
      Put(tp.ref);
    }

    method Transfer()
      requires Valid()
      modifies this
      ensures Valid() && View() == Apply(old(View()), Step.Transfer)
    {
      ghost var before := View();
      if transferChan != [] {
        FlightTracked();
        TransferOne();
      }
      StepValid(before, Step.Transfer);
    }

    lemma FlightTracked()
      requires Valid() && transferChan != []
      ensures transferChan[0].ref in own && transferChan[0].ref !in bufPool
    {
      assert Has(own, transferChan[0].ref, Transferring);
    }

    method PopPacket() returns (p: Outgoing<array<byte>>)
      requires packetChan != []
      modifies this`packetChan
      ensures p == old(packetChan)[0] && View() == old(View()).(packetChan := old(packetChan)[1..])
    {
      p := packetChan[0];
      packetChan := packetChan[1..];
    }

    method AddTo(worker: nat, p: Outgoing<array<byte>>)
      modifies this`batches, this`stage
      ensures View() == old(View()).(
        batches := old(batches)[worker := BatchOf(old(View()), worker) + [p]],
        stage := if p.origin.Relayed? then old(stage)[p.origin.k := Batched(worker)] else old(stage))
    {
      var batch := if worker in batches then batches[worker] else [];
      batches := batches[worker := batch + [p]];
      if p.origin.Relayed? { stage := stage[p.origin.k := Batched(worker)]; }
    }

    ghost method HandOver(b: array<byte>, k: Kind)
      requires b in own
      modifies this`own
      ensures View() == old(View()).(own := old(own)[b := k])
    {
      PassOn(b, k);
    }

    method PullOne(worker: nat)
      requires packetChan != [] && packetChan[0].ref in own
      modifies this`packetChan, this`batches, this`own, this`stage
      ensures View() == DoPull(old(View()), worker)
    {
      var p := PopPacket();
      AddTo(worker, p);
      HandOver(p.ref, Batched(worker));
    }

    method Pull(worker: nat)
      requires Valid() && packetChan != [] && |BatchOf(View(), worker)| < BATCH
      modifies this
      ensures Valid() && View() == Apply(old(View()), Step.Pull(worker))
      ensures packetChan == old(packetChan)[1..]
    {
      ghost var before := View();
      assert Has(own, packetChan[0].ref, Queued);
      PullOne(worker);
      StepValid(before, Step.Pull(worker));
    }

    /** The drain loop of a writer: takes packets until its batch is full or the queue is empty. */
    method Drain(worker: nat) returns (ghost n: nat)
      requires Valid()
      modifies this
      ensures Valid() && View() == Exec(old(View()), Pulls(worker, n))
      ensures packetChan == [] || |BatchOf(View(), worker)| >= BATCH
    {
      n := 0;
      while packetChan != [] && |if worker in batches then batches[worker] else []| < BATCH
        invariant Valid() && View() == Exec(old(View()), Pulls(worker, n))
        decreases |packetChan|
      {
        PullsMore(old(View()), worker, n);
        Pull(worker);
        n := n + 1;
      }
    }

    /** Sends every packet of a batch, in order. */
    method SendAll(b: seq<Outgoing<array<byte>>>)
      requires forall i :: 0 <= i < |b| ==> b[i].len <= b[i].ref.Length
      modifies this`sent
      ensures |sent| == |old(sent)| + |b| && sent[..|old(sent)|] == old(sent)
      ensures forall i :: 0 <= i < |b| ==>
        sent[|old(sent)| + i] == Sent(b[i].ref[..b[i].len], b[i].addr, b[i].origin)
    {
      for i := 0 to |b|
        invariant |sent| == |old(sent)| + i && sent[..|old(sent)|] == old(sent)
        invariant forall j :: 0 <= j < i ==> sent[|old(sent)| + j] == Sent(b[j].ref[..b[j].len], b[j].addr, b[j].origin)
      {
        sent := sent + [Sent(b[i].ref[..b[i].len], b[i].addr, b[i].origin)];
      }
    }

    /** Returns every buffer of a batch; that they differ from each other and from the pool's is
        what keeps one from being returned twice. */
    method PutAll(b: seq<Outgoing<array<byte>>>)
      requires forall i :: 0 <= i < |b| ==> b[i].ref in own && b[i].ref !in bufPool
      requires Unshared(b)
      modifies this`bufPool, this`own
      ensures bufPool == old(bufPool) + Refs(b)
      ensures own == Mark(old(own), Refs(b), Pooled)
      ensures Heap() == old(Heap())
    {
      assert b[..0] == [];
      for i := 0 to |b|
        invariant bufPool == old(bufPool) + Refs(b[..i])
        invariant own == Mark(old(own), Refs(b[..i]), Pooled)
      {
        RefsMore(b, i);
        Put(b[i].ref);
      }
      assert b[..|b|] == b;
    }

    method SendBatch(b: seq<Outgoing<array<byte>>>)
      requires forall i :: 0 <= i < |b| ==> b[i].ref in own && b[i].len <= b[i].ref.Length
      modifies this`sent
      ensures forall i :: 0 <= i < |b| ==> Readable(old(Heap()), b[i])
      ensures View() == old(View()).(sent := old(sent) + Emits(old(Heap()), b))
    {
      ghost var before := View();
      SendAll(b);
      EmitsAll(before.heap, b, sent[|before.sent|..]);
      assert sent == before.sent + sent[|before.sent|..];
    }

    method ReturnBatch(b: seq<Outgoing<array<byte>>>)
      requires forall i :: 0 <= i < |b| ==> b[i].ref in own && b[i].ref !in bufPool
      requires Unshared(b)
      modifies this`bufPool, this`own
      ensures View() == old(View()).(pool := old(bufPool) + Refs(b), own := Mark(old(own), Refs(b), Pooled))
    {
      PutAll(b);
    }

    method EndBatch(worker: nat, b: seq<Outgoing<array<byte>>>)
      modifies this`batches, this`stage
      ensures View() == old(View()).(batches := old(batches)[worker := []], stage := Mark(old(stage), Origins(b), Gone))
    {
      batches := batches[worker := []];
      stage := Mark(stage, Origins(b), Gone);
    }

    method FlushBatch(worker: nat, b: seq<Outgoing<array<byte>>>)
      requires b == BatchOf(View(), worker) && Unshared(b)
      requires forall i :: 0 <= i < |b| ==> b[i].len <= b[i].ref.Length && b[i].ref in own && b[i].ref !in bufPool
      requires forall i :: 0 <= i < |b| ==> Readable(Heap(), b[i])
      modifies this`sent, this`bufPool, this`own, this`batches, this`stage
      ensures View() == DoFlush(old(View()), worker)
    {
      assert !Doubled(bufPool, b);
      SendBatch(b);
      ReturnBatch(b);
      EndBatch(worker, b);
    }

    /** One round of a writer: send the batch, then return the buffers. */
    method Flush(worker: nat)
      requires Valid()
      modifies this
      ensures Valid() && View() == Apply(old(View()), Step.Flush(worker))
    {
      ghost var before := View();
      var b := if worker in batches then batches[worker] else [];
      BatchTracked(worker);
      FlushBatch(worker, b);
      StepValid(before, Step.Flush(worker));
    }

    lemma BatchTracked(worker: nat)
      requires Valid()
      ensures var b := BatchOf(View(), worker);
        && (forall i :: 0 <= i < |b| ==> b[i].len <= b[i].ref.Length && b[i].ref in own && b[i].ref !in bufPool)
        && (forall i :: 0 <= i < |b| ==> Readable(Heap(), b[i]))
        && Unshared(b)
    {
      var b := BatchOf(View(), worker);
      forall i | 0 <= i < |b| ensures b[i].ref in own && b[i].ref !in bufPool && Readable(Heap(), b[i]) {
        assert OutgoingOk(Book(View()), batches[worker][i], Batched(worker));
        assert Has(own, batches[worker][i].ref, Batched(worker));
      }
    }

    method NoteAnswer(a: Arrival)
      modifies this`answers
      ensures View() == old(View()).(answers := old(answers) + [a])
    {
      answers := answers + [a];
    }

    method PutAnswer(bytes: seq<byte>, to: Addr, k: nat) returns (ghost g: Source<array<byte>>)
      requires Tracked()
      modifies this`packetChan, this`bufPool, this`own, bufPool
      ensures Usable(old(View()), g, |bytes|) && View() == DoAnswer(old(View()), bytes, to, g, k)
    {
      if |packetChan| < CHANNEL {
        var b;
        b, g := FillBuffer(bytes, Queued);
        packetChan := packetChan + [Outgoing(b, |bytes|, to, Answer(k))];
      } else {
        g := FillAndPut(bytes);
      }
    }

    method QueueDns(bytes: seq<byte>, to: Addr) returns (ghost g: Source<array<byte>>)
      requires Tracked()
      modifies this`packetChan, this`bufPool, this`own, this`answers, bufPool
      ensures View() == Apply(old(View()), DnsReply(bytes, to, g))
    {
      var k := |answers|;
      NoteAnswer(Arrival(bytes, to));
      g := PutAnswer(bytes, to, k);
    }

    /** A DNS reply, already encoded, goes onto the packet queue or is dropped. */
    method ReplyDns(bytes: seq<byte>, to: Addr) returns (ghost g: Source<array<byte>>)
      requires Valid()
      modifies this, bufPool
      ensures Valid() && View() == Apply(old(View()), DnsReply(bytes, to, g))
    {
      ghost var before := View();
      ValidTracked();
      g := QueueDns(bytes, to);
      StepValid(before, DnsReply(bytes, to, g));
    }

    method QueueNoise(bytes: seq<byte>, room: bool) returns (ghost g: Source<array<byte>>)
      requires Tracked()
      modifies this`replies, this`bufPool, this`own, bufPool
      ensures View() == Apply(old(View()), NoiseQuery(bytes, room, g))
    {
      if room {
        var b;
        b, g := FillBuffer(bytes, Replying);
        replies := replies + [b];
      } else {
        g := FillAndPut(bytes);
      }
    }

    /** A Noise key query: the reply payload stays in its buffer until the control writer has
        sent it, or goes back at once when the control queue is full. */
    method ReplyNoise(bytes: seq<byte>, room: bool) returns (ghost g: Source<array<byte>>)
      requires Valid()
      modifies this, bufPool
      ensures Valid() && View() == Apply(old(View()), NoiseQuery(bytes, room, g))
    {
      ghost var before := View();
      ValidTracked();
      g := QueueNoise(bytes, room);
      StepValid(before, NoiseQuery(bytes, room, g));
    }

    method PopReply(i: nat) returns (r: array<byte>)
      requires i < |replies|
      modifies this`replies
      ensures r == old(replies)[i] && View() == old(View()).(replies := Without(old(replies), i))
    {
      r := replies[i];
      replies := replies[..i] + replies[i + 1..];
    }

    method PumpOne(i: nat, encoded: seq<byte>) returns (ghost g: Source<array<byte>>)
      requires Tracked() && i < |replies| && replies[i] in own && replies[i] !in bufPool
      modifies this`replies, this`bufPool, this`own, bufPool
      ensures View() == Apply(old(View()), Pump(i, encoded, g))
    {
      ghost var before := View();
      var r := PopReply(i);
      ghost var popped := View();
      g := FillAndPut(encoded);
      ghost var filled := View();
      assert filled.pool == popped.pool + {g.ref} && filled.own == popped.own[g.ref := Pooled];
      assert r in popped.heap && r !in popped.pool;
      Put(r);
      assert View() == Give(Fill(popped, g, encoded, Pooled), r);
      PumpIs(before, i, encoded, g);
    }

    lemma PumpIs(s: State<array<byte>>, i: nat, encoded: seq<byte>, g: Source<array<byte>>)
      requires i < |s.replies| && Usable(s.(replies := Without(s.replies, i)), g, |encoded|)
      ensures Apply(s, Pump(i, encoded, g)) == Give(Fill(s.(replies := Without(s.replies, i)), g, encoded, Pooled), s.replies[i])
    {
      assert Usable(s, g, |encoded|);
    }

    /** The control writer of a client encodes its next reply into a second buffer and returns both. */
    method WriteReply(i: nat, encoded: seq<byte>) returns (ghost g: Source<array<byte>>)
      requires Valid() && i < |replies|
      modifies this, bufPool
      ensures Valid() && View() == Apply(old(View()), Pump(i, encoded, g))
    {
      ghost var before := View();
      ValidTracked();
      ReplyTracked(i);
      g := PumpOne(i, encoded);
      StepValid(before, Pump(i, encoded, g));
    }

    method DropReply(i: nat)
      requires i < |replies| && replies[i] in own
      modifies this`replies, this`own
      ensures View() == old(View()).(replies := Without(old(replies), i), own := old(own)[old(replies)[i] := Gone])
    {
      var r := PopReply(i);
      PassOn(r, Gone);
    }

    /** A reply whose connection no longer gives a writer is left to the garbage collector. */
    method AbandonReply(i: nat)
      requires Valid() && i < |replies|
      modifies this`replies, this`own
      ensures Valid() && View() == Apply(old(View()), Abandon(i))
    {
      ReplyTracked(i);
      StepValid(View(), Abandon(i));
      DropReply(i);
    }

    lemma ReplyTracked(i: nat)
      requires Valid() && i < |replies|
      ensures replies[i] in own && replies[i] !in bufPool
    {
      assert Has(own, replies[i], Replying);
    }

    method SetClients(c: Directory)
      modifies this`clients
      ensures View() == old(View()).(clients := c)
    {
      clients := c;
    }

    /** A client is published under an address; if it is there under another already, where it
        sends from may be known. */
    method RegisterClient(vip: Key4, c: Client)
      requires Valid()
      modifies this`clients
      ensures Valid() && View() == Apply(old(View()), Register(vip, c))
    {
      StepValid(View(), Register(vip, c));
      SetClients(clients.(at := clients.at[vip := c]));
    }

    method UnregisterClient(vip: Key4)
      requires Valid()
      modifies this`clients
      ensures Valid() && View() == Apply(old(View()), Unregister(vip))
    {
      StepValid(View(), Unregister(vip));
      SetClients(clients.(at := clients.at - {vip}));
    }
  }

  function Pulls(worker: nat, n: nat): (s: seq<Step<array<byte>>>)
    ensures |s| == n
  {
    if n == 0 then [] else Pulls(worker, n - 1) + [Step.Pull(worker)]
  }

  lemma PullsMore(s: State<array<byte>>, worker: nat, n: nat)
    ensures Exec(s, Pulls(worker, n + 1)) == Apply(Exec(s, Pulls(worker, n)), Step.Pull(worker))
  {
    ExecMore(s, Pulls(worker, n), Step.Pull(worker));
  }

  lemma EmitsAll(heap: map<array<byte>, seq<byte>>, b: seq<Outgoing<array<byte>>>, e: seq<Sent>)
    requires |e| == |b| && forall i :: 0 <= i < |b| ==> Readable(heap, b[i]) && e[i] == Emit(heap, b[i])
    ensures e == Emits(heap, b)
  {
  }

  lemma RefsMore(b: seq<Outgoing<array<byte>>>, i: nat)
    requires i < |b| && Unshared(b)
    ensures Refs(b[..i + 1]) == Refs(b[..i]) + {b[i].ref} && b[i].ref !in Refs(b[..i])
  {
    var c := b[..i + 1];
    assert forall j :: 0 <= j < i ==> c[j] == b[..i][j];
    assert c[i] == b[i];
    forall r | r in Refs(b[..i]) + {b[i].ref} ensures r in Refs(c) {
      if r == b[i].ref { assert c[i].ref == r; } else {
        var j :| 0 <= j < i && b[..i][j].ref == r;
        assert c[j].ref == r;
      }
    }
  }
}
