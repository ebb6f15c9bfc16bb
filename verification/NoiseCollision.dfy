/** Collision of two initiators: which handshake can complete, and that it does complete
    once its two messages get through, whatever else the network delivers meanwhile. */
module NoiseCollision {
  import opened Bytes
  import opened NoiseProtocol
  import opened NoiseAgreement

  lemma NetGrows(w: World, st: Step)
    ensures w.net <= Apply(w, st).net
  {
  }

  lemma {:induction false} NetGrowsRun(w: World, steps: seq<Step>)
    ensures w.net <= Exec(w, steps).net
    decreases |steps|
  {
    if steps != [] {
      NetGrows(w, steps[0]);
      NetGrowsRun(Apply(w, steps[0]), steps[1..]);
    }
  }

  predicate InitiatorOfToken(s: Option<Session>, i: Token) {
    s.Some? && s.value.isInitiator && ShapeOk(s.value) && TokenOf(s.value) == i
  }

  predicate OnlyLower(w: World, lo: Vip, hi: Vip, i: Token) {
    && InitiatorOfToken(Lookup(w, lo, hi), i)
    && (IsReady(Lookup(w, hi, lo)) ==>
          !Lookup(w, hi, lo).value.isInitiator && Lookup(w, hi, lo).value.cipher.sender.init == i)
  }

  lemma CollisionState(w: World, lo: Vip, hi: Vip, i: Token, j: Token)
    requires Less(lo, hi) && StrictInv(w)
    requires Envelope(lo, hi, Initiation(i)) in w.net && Envelope(hi, lo, Initiation(j)) in w.net
    ensures OnlyLower(w, lo, hi, i)
  {
    LessTrichotomy(lo, hi);
    assert StrictPair(w, lo, hi) && StrictPair(w, hi, lo);
    assert HasInitiated(Lookup(w, lo, hi).value, lo, hi, i);
    assert Justified(w.net, hi, lo, w.sessions[(hi, lo)]);
  }

  /** Once both have initiated, the lower peer stays on its own handshake and neither peer
      ever becomes ready on any other. */
  lemma CollisionWinner(run: seq<Step>, more: seq<Step>, lo: Vip, hi: Vip, i: Token, j: Token)
    requires Less(lo, hi) && StrictRun(Start, run) && StrictRun(Exec(Start, run), more)
    requires Envelope(lo, hi, Initiation(i)) in Exec(Start, run).net
    requires Envelope(hi, lo, Initiation(j)) in Exec(Start, run).net
    ensures OnlyLower(Exec(Exec(Start, run), more), lo, hi, i)
  {
    StrictInvRun(Start, run);
    StrictInvRun(Exec(Start, run), more);
    NetGrowsRun(Exec(Start, run), more);
    CollisionState(Exec(Exec(Start, run), more), lo, hi, i, j);
  }

  /** Readiness and keys are permanent while nobody initiates over a session or sweeps it. */
  lemma ReadyStep(w: World, st: Step, p: Vip, q: Vip)
    requires Strict(w, st) && IsReady(Lookup(w, p, q))
    ensures var s, t := Lookup(w, p, q), Lookup(Apply(w, st), p, q);
      IsReady(t) && t.value.cipher == s.value.cipher && t.value.isInitiator == s.value.isInitiator
  {
    match st
    case Deliver(env) => ReceiveCases(w, env.dst, env.src, env.msg);
    case Noise(src, dst, len) => ReceiveCases(w, dst, src, Opaque(len));
    case _ =>
  }

  lemma {:induction false} ReadyRun(w: World, steps: seq<Step>, p: Vip, q: Vip)
    requires StrictRun(w, steps) && IsReady(Lookup(w, p, q))
    ensures var s, t := Lookup(w, p, q), Lookup(Exec(w, steps), p, q);
      IsReady(t) && t.value.cipher == s.value.cipher && t.value.isInitiator == s.value.isInitiator
    decreases |steps|
  {
    if steps != [] {
      ReadyStep(w, steps[0], p, q);
      ReadyRun(Apply(w, steps[0]), steps[1..], p, q);
    }
  }

  /** `p` initiated with `i`, and `q` has the higher address or has not initiated itself. */
  ghost predicate Wins(w: World, p: Vip, q: Vip, i: Token) {
    && p != q && Envelope(p, q, Initiation(i)) in w.net
    && (Less(p, q) || forall j :: Envelope(q, p, Initiation(j)) !in w.net)
  }

  lemma AnswerOnDelivery(w: World, p: Vip, q: Vip, i: Token)
    requires StrictInv(w) && Wins(w, p, q, i)
    ensures var s := Lookup(Apply(w, Deliver(Envelope(p, q, Initiation(i)))), q, p);
      ReadyResponder(s) && s.value.cipher.sender.init == i
  {
    ReceiveCases(w, q, p, Initiation(i));
    LessTrichotomy(p, q);
    assert StrictPair(w, p, q) && StrictPair(w, q, p);
    assert (q, p) in w.sessions ==> Justified(w.net, q, p, w.sessions[(q, p)]);
  }

  lemma CompleteOnDelivery(w: World, p: Vip, q: Vip, i: Token, r: Token)
    requires StrictInv(w) && p != q && OnHandshake(Lookup(w, q, p), i, r)
    ensures Envelope(q, p, Response(i, r)) in w.net
    ensures var w1 := Apply(w, Deliver(Envelope(q, p, Response(i, r))));
      IsReady(Lookup(w1, p, q)) && Lookup(w1, p, q).value.cipher.sender == Key(i, r, Cs2)
      && OnHandshake(Lookup(w1, q, p), i, r)
  {
    var a, b := ResponderFacts(w, q, p);
    ReceiveCases(w, p, q, Response(i, r));
  }

  /** The answer to `i` is in flight; once delivered, both peers are on it for good. */
  lemma AnswerCompletes(w: World, zs: seq<Step>, p: Vip, q: Vip, i: Token, r: Token)
    requires StrictInv(w) && p != q && OnHandshake(Lookup(w, q, p), i, r)
    requires StrictRun(Apply(w, Deliver(Envelope(q, p, Response(i, r)))), zs)
    ensures var w' := Exec(Apply(w, Deliver(Envelope(q, p, Response(i, r)))), zs);
      && IsReady(Lookup(w', p, q)) && Lookup(w', p, q).value.cipher == Ready(Key(i, r, Cs1), Key(i, r, Cs2))
      && IsReady(Lookup(w', q, p)) && Lookup(w', q, p).value.cipher == Ready(Key(i, r, Cs2), Key(i, r, Cs1))
  {
    CompleteOnDelivery(w, p, q, i, r);
    var w1 := Apply(w, Deliver(Envelope(q, p, Response(i, r))));
    StrictStep(w, Deliver(Envelope(q, p, Response(i, r))));
    assert Justified(w1.net, p, q, w1.sessions[(p, q)]) && Justified(w1.net, q, p, w1.sessions[(q, p)]);
    ReadyRun(w1, zs, p, q);
    ReadyRun(w1, zs, q, p);
  }

  /** After the winner's initiation has been delivered its peer stays ready on it. */
  lemma AnswerStays(w: World, ys: seq<Step>, p: Vip, q: Vip, i: Token)
    requires StrictInv(w) && Wins(w, p, q, i)
    requires StrictRun(Apply(w, Deliver(Envelope(p, q, Initiation(i)))), ys)
    ensures var w2 := Exec(Apply(w, Deliver(Envelope(p, q, Initiation(i)))), ys);
      StrictInv(w2) && ReadyResponder(Lookup(w2, q, p)) && Lookup(w2, q, p).value.cipher.sender.init == i
  {
    var w1 := Apply(w, Deliver(Envelope(p, q, Initiation(i))));
    AnswerOnDelivery(w, p, q, i);
    StrictStep(w, Deliver(Envelope(p, q, Initiation(i))));
    ReadyRun(w1, ys, q, p);
    StrictInvRun(w1, ys);
  }

  /** From every reachable state, in every interleaving: when the winner's initiation is
      delivered and later the answer to it, both peers are ready on that handshake with
      crossed keys and stay so. */
  lemma CollisionResolves(run: seq<Step>, ys: seq<Step>, zs: seq<Step>, p: Vip, q: Vip, i: Token)
    requires StrictRun(Start, run) && Wins(Exec(Start, run), p, q, i)
    requires StrictRun(Apply(Exec(Start, run), Deliver(Envelope(p, q, Initiation(i)))), ys)
    ensures
      var w2 := Exec(Apply(Exec(Start, run), Deliver(Envelope(p, q, Initiation(i)))), ys);
      && ReadyResponder(Lookup(w2, q, p))
      && var r := Lookup(w2, q, p).value.cipher.sender.resp;
         var w3 := Apply(w2, Deliver(Envelope(q, p, Response(i, r))));
         && Envelope(q, p, Response(i, r)) in w2.net
         && (StrictRun(w3, zs) ==>
               && IsReady(Lookup(Exec(w3, zs), p, q)) && IsReady(Lookup(Exec(w3, zs), q, p))
               && Lookup(Exec(w3, zs), p, q).value.cipher == Ready(Key(i, r, Cs1), Key(i, r, Cs2))
               && Lookup(Exec(w3, zs), q, p).value.cipher == Ready(Key(i, r, Cs2), Key(i, r, Cs1)))
  {
    StrictInvRun(Start, run);
    AnswerStays(Exec(Start, run), ys, p, q, i);
    var w2 := Exec(Apply(Exec(Start, run), Deliver(Envelope(p, q, Initiation(i)))), ys);
    assert Justified(w2.net, q, p, w2.sessions[(q, p)]);
    var r := Lookup(w2, q, p).value.cipher.sender.resp;
    assert OnHandshake(Lookup(w2, q, p), i, r);
    if StrictRun(Apply(w2, Deliver(Envelope(q, p, Response(i, r)))), zs) { AnswerCompletes(w2, zs, p, q, i, r); }
  }
}
