/** What becomes of the payloads that are handed over before a session has keys: in every run
    the queue holds the first 24 of them, and the answer puts exactly those back, in order. */
module NoiseQueue {
  import opened Bytes
  import opened NoiseProtocol
  import opened NoiseAgreement

  /** What step `st` makes of the payloads `x` handed over so far for `q` at `p`. */
  function Note(st: Step, x: seq<Payload>, p: Vip, q: Vip): seq<Payload> {
    if st.Init? && st.p == p && st.q == q then [st.payload]
    else if st.Send? && st.p == p && st.q == q && x != [] then x + [st.payload]
    else if st.Drop? && st.p == p && st.q == q then []
    else x
  }

  /** The payloads handed over for `q` at `p` since the initiation that is still in force: read
      off the run, without looking at any session. */
  function Submitted(run: seq<Step>, p: Vip, q: Vip): (x: seq<Payload>) {
    if run == [] then [] else Note(run[|run| - 1], Submitted(run[..|run| - 1], p, q), p, q)
  }

  function First24(x: seq<Payload>): seq<Payload> {
    if |x| <= 24 then x else x[..24]
  }

  lemma {:induction false} ExecMore(w: World, steps: seq<Step>, st: Step)
    ensures Exec(w, steps + [st]) == Apply(Exec(w, steps), st)
    decreases |steps|
  {
    if steps == [] {
      assert [] + [st] == [st] && [st][1..] == [];
    } else {
      assert (steps + [st])[1..] == steps[1..] + [st];
      ExecMore(Apply(w, steps[0]), steps[1..], st);
    }
  }

  lemma LastStep(run: seq<Step>) returns (before: seq<Step>, st: Step)
    requires run != []
    ensures run == before + [st] && before == run[..|run| - 1] && st == run[|run| - 1]
    ensures Exec(Start, run) == Apply(Exec(Start, before), st)
  {
    before, st := run[..|run| - 1], run[|run| - 1];
    assert run == before + [st];
    ExecMore(Start, before, st);
  }

  /** The queue of a pending session is what the run says. */
  ghost predicate QueueOk(w: World, x: seq<Payload>, p: Vip, q: Vip) {
    var s := Lookup(w, p, q);
    s.Some? ==> if s.value.cipher.Pending? then x != [] && s.value.pending == First24(x) else s.value.pending == []
  }

  lemma ReceiveQueue(w: World, me: Vip, src: Vip, m: Message, x: seq<Payload>, p: Vip, q: Vip)
    requires QueueOk(w, x, p, q)
    ensures QueueOk(Receive(w, me, src, m), x, p, q)
  {
    ReceiveCases(w, me, src, m);
  }

  lemma SendQueue(w: World, a: Vip, b: Vip, payload: Payload, x: seq<Payload>, p: Vip, q: Vip)
    requires QueueOk(w, x, p, q)
    ensures QueueOk(SendPayload(w, a, b, payload), Note(Send(a, b, payload), x, p, q), p, q)
  {
    if a == p && b == q && x != [] {
      var y := x + [payload];
      assert First24(y) == if |x| < 24 then First24(x) + [payload] else First24(x);
    }
  }

  lemma QueueStep(w: World, st: Step, x: seq<Payload>, p: Vip, q: Vip)
    requires QueueOk(w, x, p, q)
    ensures QueueOk(Apply(w, st), Note(st, x, p, q), p, q)
  {
    match st
    case Deliver(env) => if env in w.net { ReceiveQueue(w, env.dst, env.src, env.msg, x, p, q); }
    case Noise(src, dst, len) => ReceiveQueue(w, dst, src, Opaque(len), x, p, q);
    case Send(a, b, payload) => SendQueue(w, a, b, payload, x, p, q);
    case _ =>
  }

  /** In every run, re-initiations, sweeps and collisions included: a session without keys holds
      the first 24 payloads handed over since its initiation, in order, and one with keys none. */
  lemma {:induction false} QueueExact(run: seq<Step>, p: Vip, q: Vip)
    ensures var s := Lookup(Exec(Start, run), p, q);
      s.Some? ==>
        && s.value.pending == (if s.value.cipher.Pending? then First24(Submitted(run, p, q)) else [])
        && (s.value.cipher.Pending? ==> Submitted(run, p, q) != [])
    decreases |run|
  {
    if run != [] {
      var before, st := LastStep(run);
      QueueExact(before, p, q);
      QueueStep(Exec(Start, before), st, Submitted(before, p, q), p, q);
    }
  }

  /** The step gives the pending session with `q` its keys. */
  predicate Completes(w: World, st: Step, p: Vip, q: Vip) {
    && Lookup(w, p, q).Some? && Lookup(w, p, q).value.cipher.Pending?
    && IsReady(Lookup(Apply(w, st), p, q)) && Lookup(Apply(w, st), p, q).value.isInitiator
  }

  lemma ReceiveTun(w: World, me: Vip, src: Vip, m: Message, p: Vip, q: Vip)
    requires Authentic(w)
    ensures var s, s' := Lookup(w, p, q), Lookup(Receive(w, me, src, m), p, q);
      Tun(Receive(w, me, src, m), p, q) == Tun(w, p, q) +
        if s.Some? && s.value.cipher.Pending? && IsReady(s') && s'.value.isInitiator then s.value.pending else []
  {
    ReceiveCases(w, me, src, m);
  }

  lemma TunStep(w: World, st: Step, p: Vip, q: Vip)
    requires Authentic(w)
    ensures Tun(Apply(w, st), p, q) == Tun(w, p, q) + if Completes(w, st, p, q) then Lookup(w, p, q).value.pending else []
  {
    match st
    case Deliver(env) => if env in w.net { ReceiveTun(w, env.dst, env.src, env.msg, p, q); }
    case Noise(src, dst, len) => ReceiveTun(w, dst, src, Opaque(len), p, q);
    case _ =>
  }

  lemma {:induction false} AuthenticRun(run: seq<Step>)
    ensures Authentic(Exec(Start, run))
    decreases |run|
  {
    if run != [] {
      var before, st := LastStep(run);
      AuthenticRun(before);
      AuthenticStep(Exec(Start, before), st);
    }
  }

  /** In every run a step puts payloads back into the tunnel channel exactly when it gives a
      pending session its keys, and then the first 24 handed over, in order. */
  lemma InjectionExact(run: seq<Step>, st: Step, p: Vip, q: Vip)
    ensures var w := Exec(Start, run);
      Tun(Apply(w, st), p, q) == Tun(w, p, q) + if Completes(w, st, p, q) then First24(Submitted(run, p, q)) else []
  {
    AuthenticRun(run);
    TunStep(Exec(Start, run), st, p, q);
    QueueExact(run, p, q);
  }

  /** The answer to the initiation in force, once delivered, gives the keys. */
  lemma AnswerInjects(run: seq<Step>, p: Vip, q: Vip, r: Token)
    requires var s := Lookup(Exec(Start, run), p, q); s.Some? && s.value.cipher.Pending? && s.value.hs.Some?
    requires Envelope(q, p, Response(Lookup(Exec(Start, run), p, q).value.hs.value, r)) in Exec(Start, run).net
    ensures var w := Exec(Start, run); var st := Deliver(Envelope(q, p, Response(Lookup(w, p, q).value.hs.value, r)));
      Tun(Apply(w, st), p, q) == Tun(w, p, q) + First24(Submitted(run, p, q)) && Submitted(run, p, q) != []
  {
    var w := Exec(Start, run);
    var m := Response(Lookup(w, p, q).value.hs.value, r);
    AuthenticRun(run);
    assert Justified(w.net, p, q, w.sessions[(p, q)]);
    InjectionExact(run, Deliver(Envelope(q, p, m)), p, q);
    QueueExact(run, p, q);
    assert Receive(w, p, q, m).sessions[(p, q)] == CompletedSession(w.sessions[(p, q)], m.to, r);
  }

  /** All that ever went back for one peer: one block for each time a session got its keys. */
  function Blocks(run: seq<Step>, p: Vip, q: Vip): seq<Payload> {
    if run == [] then [] else
      var before, st := run[..|run| - 1], run[|run| - 1];
      Blocks(before, p, q) + if Completes(Exec(Start, before), st, p, q) then First24(Submitted(before, p, q)) else []
  }

  lemma {:induction false} InjectedExactly(run: seq<Step>, p: Vip, q: Vip)
    ensures Tun(Exec(Start, run), p, q) == Blocks(run, p, q)
    decreases |run|
  {
    if run != [] {
      var before, st := LastStep(run);
      InjectedExactly(before, p, q);
      InjectionExact(before, st, p, q);
    }
  }
}
