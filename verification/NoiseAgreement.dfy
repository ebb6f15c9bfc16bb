/** Safety of the Noise session protocol over whole runs: what every run keeps, when two
    ready peers must hold the same keys, and how a collision of two initiators resolves. */
module NoiseAgreement {
  import opened Bytes
  import opened NoiseProtocol

  // ---------- every run ----------

  predicate ShapeOk(s: Session) {
    if s.cipher.Pending? then s.isInitiator && s.hs.Some? else
      && s.hs.None?
      && s.cipher.recver.init == s.cipher.sender.init && s.cipher.recver.resp == s.cipher.sender.resp
      && s.cipher.recver.half == (if s.isInitiator then Cs1 else Cs2)
      && s.cipher.sender.half == (if s.isInitiator then Cs2 else Cs1)
  }

  /** The initiator's token of the handshake a session is on. */
  function TokenOf(s: Session): (t: Token)
    requires ShapeOk(s)
  {
    if s.cipher.Pending? then s.hs.value else s.cipher.sender.init
  }

  /** The messages that must have been sent for peer `p` to hold session `s` with `q`. */
  ghost predicate Justified(net: set<Envelope>, p: Vip, q: Vip, s: Session) {
    && ShapeOk(s)
    && (if s.isInitiator then Envelope(p, q, Initiation(TokenOf(s))) in net
        else Envelope(q, p, Initiation(TokenOf(s))) in net)
    && (s.cipher.Ready? ==>
          var m := Response(TokenOf(s), s.cipher.sender.resp);
          if s.isInitiator then Envelope(q, p, m) in net else Envelope(p, q, m) in net)
  }

  ghost predicate MessageOk(w: World, e: Envelope) {
    match e.msg
    case Initiation(i) => i < w.next
    case Response(i, r) => r < w.next && Envelope(e.dst, e.src, Initiation(i)) in w.net
    case Opaque(_) => false
  }

  /** The fresh number a handshake message carries. */
  function Nonce(m: Message): (t: Token)
    requires !m.Opaque?
  {
    m.e
  }

  ghost predicate NetOk(w: World) {
    && (forall e :: e in w.net ==> MessageOk(w, e))
    && (forall e, f :: e in w.net && f in w.net && Nonce(e.msg) == Nonce(f.msg) ==> e == f)
  }

  ghost predicate Authentic(w: World) {
    NetOk(w) && forall k :: k in w.sessions ==> Justified(w.net, k.0, k.1, w.sessions[k])
  }

  /** The world after `me` has answered initiation `i` of `src`. */
  function Answered(w: World, me: Vip, src: Vip, i: Token): World {
    w.(sessions := w.sessions[(me, src) := ResponderSession(i, w.next)],
       net := w.net + {Envelope(me, src, Response(i, w.next))}, next := w.next + 1,
       installed := w.installed + [Key(i, w.next, Cs1)])
  }

  predicate MayAnswer(w: World, me: Vip, src: Vip) {
    var s := Lookup(w, me, src);
    s.None? || (Less(src, me) && s.value.isInitiator && s.value.cipher.Pending?)
  }

  /** The world after `me` has read answer `r` to its own initiation `i`. */
  function Finished(w: World, me: Vip, src: Vip, i: Token, r: Token): World
    requires (me, src) in w.sessions
  {
    var s := w.sessions[(me, src)];
    w.(sessions := w.sessions[(me, src) := CompletedSession(s, i, r)],
       installed := w.installed + [Key(i, r, Cs2)], tun := Inject(w, me, src, s.pending))
  }

  /** A reception leaves the world alone, answers an initiation, or completes a handshake. */
  lemma ReceiveCases(w: World, me: Vip, src: Vip, m: Message)
    ensures var w' := Receive(w, me, src, m); var s := Lookup(w, me, src);
      || w' == w
      || (m.Initiation? && MayAnswer(w, me, src) && w' == Answered(w, me, src, m.e))
      || (&& m.Response? && s.Some? && s.value.isInitiator && s.value.cipher.Pending? && s.value.hs == Some(m.to)
          && w' == Finished(w, me, src, m.to, m.e))
  {
    var s := Lookup(w, me, src);
    if s.Some? { assert w.sessions == w.sessions[(me, src) := s.value]; }
  }

  /** What the caller is told: use the session exactly when it had keys, and otherwise that an
      answer went out, that the session now has keys, or that nothing changed. */
  lemma VerdictExact(w: World, me: Vip, src: Vip, m: Message)
    ensures var s, w' := Lookup(w, me, src), Receive(w, me, src, m);
      var o := HandlePacket(me, src, s, m, w.next);
      && (o.verdict == UseSession <==> IsReady(s))
      && (o.verdict == Replied <==> w'.next != w.next)
      && (o.verdict == Replied <==> o.reply.Some? && Lookup(w', me, src).Some? && !Lookup(w', me, src).value.isInitiator && !IsReady(s))
      && (o.verdict == Verdict.Completed <==> !IsReady(s) && IsReady(Lookup(w', me, src)) && o.reply.None?)
      && (o.verdict == Rejected <==> !IsReady(s) && w' == w)
      && o.session == Lookup(w', me, src) && (o.injected != [] ==> o.verdict == Verdict.Completed)
  {
    var s := Lookup(w, me, src);
    if s.Some? { assert w.sessions == w.sessions[(me, src) := s.value]; }
  }

  lemma ReceiveAuthentic(w: World, me: Vip, src: Vip, m: Message)
    requires Authentic(w)
    requires m.Opaque? || Envelope(src, me, m) in w.net
    ensures Authentic(Receive(w, me, src, m))
  {
    ReceiveCases(w, me, src, m);
  }

  lemma SendAuthentic(w: World, p: Vip, q: Vip, payload: Payload)
    requires Authentic(w)
    ensures Authentic(SendPayload(w, p, q, payload))
  {
  }

  lemma AuthenticStep(w: World, st: Step)
    requires Authentic(w)
    ensures Authentic(Apply(w, st))
  {
    match st
    case Init(p, q, payload) =>
    case Deliver(env) => if env in w.net { ReceiveAuthentic(w, env.dst, env.src, env.msg); }
    case Noise(src, dst, len) => ReceiveAuthentic(w, dst, src, Opaque(len));
    case Send(p, q, payload) => SendAuthentic(w, p, q, payload);
    case Drop(p, q) =>
  }

  // ---------- agreement ----------

  predicate ReadyResponder(s: Option<Session>) {
    IsReady(s) && !s.value.isInitiator
  }

  /** What a peer must look at in its own session table before it resets the session with
      `q`.  `HandshakeInit` and the sweep look at none of it. */
  predicate InitAllowed(w: World, p: Vip, q: Vip) {
    Less(q, p) ==> !ReadyResponder(Lookup(w, p, q))
  }

  predicate DropAllowed(w: World, p: Vip, q: Vip) {
    Lookup(w, p, q).None? || (Less(q, p) && !ReadyResponder(Lookup(w, p, q)))
  }

  predicate Allowed(w: World, st: Step) {
    match st
    case Init(p, q, _) => p != q && InitAllowed(w, p, q)
    case Drop(p, q) => p != q && DropAllowed(w, p, q)
    case _ => true
  }

  predicate AllowedRun(w: World, steps: seq<Step>)
    decreases |steps|
  {
    steps == [] || (Allowed(w, steps[0]) && AllowedRun(Apply(w, steps[0]), steps[1..]))
  }

  /** Two ready peers hold one handshake, each sending under the key the other receives with. */
  predicate Agree(w: World, p: Vip, q: Vip) {
    var s, t := Lookup(w, p, q), Lookup(w, q, p);
    IsReady(s) && IsReady(t) ==>
      && s.value.cipher.sender == t.value.cipher.recver
      && s.value.cipher.recver == t.value.cipher.sender
      && s.value.isInitiator != t.value.isInitiator
  }

  ghost predicate OnHandshake(s: Option<Session>, i: Token, r: Token) {
    ReadyResponder(s) && s.value.cipher.sender == Key(i, r, Cs1)
  }

  /** The higher peer answered without ever having initiated: it will never reset, and the
      lower peer has nothing of the higher peer's to answer. */
  ghost predicate Frozen(w: World, lo: Vip, hi: Vip) {
    ReadyResponder(Lookup(w, hi, lo)) && forall i :: Envelope(hi, lo, Initiation(i)) !in w.net
  }

  /** What the messages a pair has sent say about the sessions it now holds. */
  ghost predicate LowerOk(w: World, lo: Vip, hi: Vip) {
    && (forall i, r :: Envelope(lo, hi, Response(i, r)) in w.net ==>
          Lookup(w, lo, hi).Some? && (Lookup(w, lo, hi).value.isInitiator || OnHandshake(Lookup(w, lo, hi), i, r)))
    && (forall i :: Envelope(lo, hi, Initiation(i)) in w.net ==>
          Lookup(w, lo, hi).Some? && Lookup(w, lo, hi).value.isInitiator)
  }

  ghost predicate PairOk(w: World, lo: Vip, hi: Vip) {
    && (forall i, r :: Envelope(hi, lo, Response(i, r)) in w.net ==> OnHandshake(Lookup(w, hi, lo), i, r))
    && (Frozen(w, lo, hi) || LowerOk(w, lo, hi))
  }

  ghost predicate Inv(w: World) {
    Authentic(w) && forall lo: Vip, hi: Vip :: Less(lo, hi) ==> PairOk(w, lo, hi)
  }

  /** Only what the two peers hold of each other and have sent each other matters. */
  lemma PairFrame(w: World, w': World, lo: Vip, hi: Vip)
    requires PairOk(w, lo, hi)
    requires Lookup(w', lo, hi) == Lookup(w, lo, hi) && Lookup(w', hi, lo) == Lookup(w, hi, lo)
    requires forall m :: Envelope(lo, hi, m) in w'.net <==> Envelope(lo, hi, m) in w.net
    requires forall m :: Envelope(hi, lo, m) in w'.net <==> Envelope(hi, lo, m) in w.net
    ensures PairOk(w', lo, hi)
  {
  }

  lemma AnswerHigher(w: World, i: Token, lo: Vip, hi: Vip)
    requires PairOk(w, lo, hi) && lo != hi && MayAnswer(w, hi, lo)
    ensures PairOk(Answered(w, hi, lo, i), lo, hi)
  {
    var w' := Answered(w, hi, lo, i);
    assert forall j, r :: Envelope(hi, lo, Response(j, r)) !in w.net;
    assert LowerOk(w, lo, hi);
    assert Lookup(w', lo, hi) == Lookup(w, lo, hi);
    assert forall m :: Envelope(lo, hi, m) in w'.net <==> Envelope(lo, hi, m) in w.net;
  }

  lemma AnswerLower(w: World, i: Token, lo: Vip, hi: Vip)
    requires PairOk(w, lo, hi) && Less(lo, hi) && MayAnswer(w, lo, hi)
    ensures PairOk(Answered(w, lo, hi, i), lo, hi)
  {
    LessTrichotomy(lo, hi);
    var w' := Answered(w, lo, hi, i);
    assert Lookup(w, lo, hi).None? && Lookup(w', hi, lo) == Lookup(w, hi, lo);
    assert forall m :: Envelope(hi, lo, m) in w'.net <==> Envelope(hi, lo, m) in w.net;
    if LowerOk(w, lo, hi) {
      assert forall j, r :: Envelope(lo, hi, Response(j, r)) !in w.net;
      assert forall j :: Envelope(lo, hi, Initiation(j)) !in w.net;
    }
  }

  /** A peer without a session, or the higher of two initiators, answers. */
  lemma AnswerPair(w: World, me: Vip, src: Vip, i: Token, lo: Vip, hi: Vip)
    requires PairOk(w, lo, hi) && Less(lo, hi) && MayAnswer(w, me, src)
    ensures PairOk(Answered(w, me, src, i), lo, hi)
  {
    LessTrichotomy(lo, hi);
    if me == hi && src == lo {
      AnswerHigher(w, i, lo, hi);
    } else if me == lo && src == hi {
      AnswerLower(w, i, lo, hi);
    } else {
      PairFrame(w, Answered(w, me, src, i), lo, hi);
    }
  }

  lemma CompletePair(w: World, me: Vip, src: Vip, i: Token, r: Token, lo: Vip, hi: Vip)
    requires PairOk(w, lo, hi) && Less(lo, hi)
    requires var s := Lookup(w, me, src); s.Some? && s.value.isInitiator && s.value.cipher.Pending?
    ensures PairOk(Finished(w, me, src, i, r), lo, hi)
  {
    LessTrichotomy(lo, hi);
  }

  lemma ReceivePair(w: World, me: Vip, src: Vip, m: Message, lo: Vip, hi: Vip)
    requires PairOk(w, lo, hi) && Less(lo, hi)
    ensures PairOk(Receive(w, me, src, m), lo, hi)
  {
    ReceiveCases(w, me, src, m);
    var s := Lookup(w, me, src);
    if Receive(w, me, src, m) == w { return; }
    if m.Initiation? { AnswerPair(w, me, src, m.e, lo, hi); } else { CompletePair(w, me, src, m.to, m.e, lo, hi); }
  }

  lemma InitPair(w: World, p: Vip, q: Vip, payload: Payload, lo: Vip, hi: Vip)
    requires PairOk(w, lo, hi) && Less(lo, hi) && Allowed(w, Init(p, q, payload))
    ensures PairOk(Apply(w, Init(p, q, payload)), lo, hi)
  {
    LessTrichotomy(lo, hi);
  }

  lemma SendPair(w: World, p: Vip, q: Vip, payload: Payload, lo: Vip, hi: Vip)
    requires PairOk(w, lo, hi) && Less(lo, hi)
    ensures PairOk(SendPayload(w, p, q, payload), lo, hi)
  {
    LessTrichotomy(lo, hi);
  }

  lemma DropPair(w: World, p: Vip, q: Vip, lo: Vip, hi: Vip)
    requires PairOk(w, lo, hi) && Less(lo, hi) && Allowed(w, Drop(p, q))
    ensures PairOk(Apply(w, Drop(p, q)), lo, hi)
  {
    LessTrichotomy(lo, hi);
  }

  lemma InvStep(w: World, st: Step)
    requires Inv(w) && Allowed(w, st)
    ensures Inv(Apply(w, st))
  {
    AuthenticStep(w, st);
    forall lo: Vip, hi: Vip | Less(lo, hi) ensures PairOk(Apply(w, st), lo, hi) {
      assert PairOk(w, lo, hi);
      match st
      case Init(p, q, payload) => InitPair(w, p, q, payload, lo, hi);
      case Deliver(env) => if env in w.net { ReceivePair(w, env.dst, env.src, env.msg, lo, hi); }
      case Noise(src, dst, len) => ReceivePair(w, dst, src, Opaque(len), lo, hi);
      case Send(p, q, payload) => SendPair(w, p, q, payload, lo, hi);
      case Drop(p, q) => DropPair(w, p, q, lo, hi);
    }
  }

  lemma {:induction false} InvRun(w: World, steps: seq<Step>)
    requires Inv(w) && AllowedRun(w, steps)
    ensures Inv(Exec(w, steps))
    decreases |steps|
  {
    if steps != [] {
      InvStep(w, steps[0]);
      InvRun(Apply(w, steps[0]), steps[1..]);
    }
  }

  lemma AgreeOrdered(w: World, lo: Vip, hi: Vip)
    requires Inv(w) && Less(lo, hi)
    ensures Agree(w, lo, hi) && Agree(w, hi, lo)
  {
    assert PairOk(w, lo, hi);
    assert (lo, hi) in w.sessions ==> Justified(w.net, lo, hi, w.sessions[(lo, hi)]);
    assert (hi, lo) in w.sessions ==> Justified(w.net, hi, lo, w.sessions[(hi, lo)]);
  }

  /** Over every run of drops, duplicates, reorderings and re-initiations that the guards
      admit, two distinct ready peers agree. */
  lemma Agreement(steps: seq<Step>, p: Vip, q: Vip)
    requires AllowedRun(Start, steps) && p != q
    ensures Agree(Exec(Start, steps), p, q)
  {
    InvRun(Start, steps);
    LessTrichotomy(p, q);
    if Less(p, q) { AgreeOrdered(Exec(Start, steps), p, q); } else { AgreeOrdered(Exec(Start, steps), q, p); }
  }

  // ---------- the guards are exact ----------

  /** The runs the client intends: a peer initiates only without a session, nothing is swept. */
  predicate Strict(w: World, st: Step) {
    match st
    case Init(p, q, _) => p != q && Lookup(w, p, q).None?
    case Drop(_, _) => false
    case _ => true
  }

  predicate StrictRun(w: World, steps: seq<Step>)
    decreases |steps|
  {
    steps == [] || (Strict(w, steps[0]) && StrictRun(Apply(w, steps[0]), steps[1..]))
  }

  /** A peer that initiated with `i` is still on `i`, or it had the higher address and yielded. */
  predicate HasInitiated(s: Session, p: Vip, q: Vip, i: Token) {
    ShapeOk(s) && if s.isInitiator then TokenOf(s) == i else Less(q, p)
  }

  ghost predicate StrictPair(w: World, p: Vip, q: Vip) {
    && (forall i, r :: Envelope(p, q, Response(i, r)) in w.net ==> OnHandshake(Lookup(w, p, q), i, r))
    && (forall i :: Envelope(p, q, Initiation(i)) in w.net ==>
          Lookup(w, p, q).Some? && HasInitiated(Lookup(w, p, q).value, p, q, i))
    && (forall i, j :: Envelope(p, q, Initiation(i)) in w.net && Envelope(p, q, Initiation(j)) in w.net ==> i == j)
  }

  ghost predicate StrictInv(w: World) {
    Inv(w) && forall p: Vip, q: Vip :: p != q ==> StrictPair(w, p, q)
  }

  lemma StrictFrame(w: World, w': World, p: Vip, q: Vip)
    requires StrictPair(w, p, q) && Lookup(w', p, q) == Lookup(w, p, q)
    requires forall m :: Envelope(p, q, m) in w'.net <==> Envelope(p, q, m) in w.net
    ensures StrictPair(w', p, q)
  {
  }

  lemma StrictAnswer(w: World, p: Vip, q: Vip, i: Token)
    requires StrictPair(w, p, q) && MayAnswer(w, p, q)
    ensures StrictPair(Answered(w, p, q, i), p, q)
  {
    var w' := Answered(w, p, q, i);
    assert forall j, r :: Envelope(p, q, Response(j, r)) !in w.net;
    forall j | Envelope(p, q, Initiation(j)) in w'.net ensures HasInitiated(Lookup(w', p, q).value, p, q, j) {
      assert Envelope(p, q, Initiation(j)) in w.net;
    }
  }

  lemma StrictComplete(w: World, p: Vip, q: Vip, i: Token, r: Token)
    requires StrictPair(w, p, q)
    requires var s := Lookup(w, p, q); s.Some? && s.value.isInitiator && s.value.cipher.Pending? && s.value.hs == Some(i)
    ensures StrictPair(Finished(w, p, q, i, r), p, q)
  {
  }

  lemma StrictReceive(w: World, me: Vip, src: Vip, m: Message, p: Vip, q: Vip)
    requires StrictPair(w, p, q)
    ensures StrictPair(Receive(w, me, src, m), p, q)
  {
    ReceiveCases(w, me, src, m);
    var w' := Receive(w, me, src, m);
    if w' == w { return; }
    if me != p || src != q {
      StrictFrame(w, w', p, q);
    } else if m.Initiation? {
      StrictAnswer(w, p, q, m.e);
    } else {
      StrictComplete(w, p, q, m.to, m.e);
    }
  }

  lemma StrictInit(w: World, a: Vip, b: Vip, payload: Payload, p: Vip, q: Vip)
    requires Authentic(w) && StrictPair(w, p, q) && Lookup(w, a, b).None?
    ensures StrictPair(Apply(w, Init(a, b, payload)), p, q)
  {
    var w' := Apply(w, Init(a, b, payload));
    if a != p || b != q {
      StrictFrame(w, w', p, q);
    } else {
      assert forall m :: Envelope(p, q, m) in w'.net ==> m == Initiation(w.next);
    }
  }

  lemma StrictSend(w: World, a: Vip, b: Vip, payload: Payload, p: Vip, q: Vip)
    requires StrictPair(w, p, q)
    ensures StrictPair(SendPayload(w, a, b, payload), p, q)
  {
    var w' := SendPayload(w, a, b, payload);
    assert w'.net == w.net && Lookup(w', p, q).Some? == Lookup(w, p, q).Some?;
    assert Lookup(w, p, q).Some? ==> var x, y := Lookup(w, p, q).value, Lookup(w', p, q).value;
      x.isInitiator == y.isInitiator && x.cipher == y.cipher && x.hs == y.hs;
  }

  lemma StrictStep(w: World, st: Step)
    requires StrictInv(w) && Strict(w, st)
    ensures StrictInv(Apply(w, st))
  {
    InvStep(w, st);
    forall p: Vip, q: Vip | p != q ensures StrictPair(Apply(w, st), p, q) {
      assert StrictPair(w, p, q);
      match st
      case Deliver(env) => if env in w.net { StrictReceive(w, env.dst, env.src, env.msg, p, q); }
      case Noise(src, dst, len) => StrictReceive(w, dst, src, Opaque(len), p, q);
      case Init(a, b, payload) => StrictInit(w, a, b, payload, p, q);
      case Send(a, b, payload) => StrictSend(w, a, b, payload, p, q);
    }
  }

  lemma {:induction false} StrictInvRun(w: World, steps: seq<Step>)
    requires StrictInv(w) && StrictRun(w, steps)
    ensures StrictInv(Exec(w, steps))
    decreases |steps|
  {
    if steps != [] {
      StrictStep(w, steps[0]);
      StrictInvRun(Apply(w, steps[0]), steps[1..]);
    }
  }

  ghost predicate KeepsAgreement(w: World, p: Vip, q: Vip) {
    forall steps :: AllowedRun(w, steps) ==> Agree(Exec(w, steps), p, q)
  }

  lemma InvKeepsAgreement(w: World, p: Vip, q: Vip)
    requires Inv(w) && p != q
    ensures KeepsAgreement(w, p, q)
  {
    forall steps | AllowedRun(w, steps) ensures Agree(Exec(w, steps), p, q) {
      InvRun(w, steps);
      LessTrichotomy(p, q);
      if Less(p, q) { AgreeOrdered(Exec(w, steps), p, q); } else { AgreeOrdered(Exec(w, steps), q, p); }
    }
  }

  function Exec2(w: World, a: Step, b: Step): World { Apply(Apply(w, a), b) }

  lemma TwoDeliveries(w: World, a: Envelope, b: Envelope)
    ensures AllowedRun(w, [Deliver(a), Deliver(b)])
    ensures Exec(w, [Deliver(a), Deliver(b)]) == Exec2(w, Deliver(a), Deliver(b))
  {
    var w1, x, y := Apply(w, Deliver(a)), [Deliver(a), Deliver(b)], [Deliver(b)];
    assert x[1..] == y && y[1..] == [];
    assert Exec(w, x) == Exec(w1, y);
    assert Exec(w1, y) == Exec(Apply(w1, Deliver(b)), []);
    assert AllowedRun(w1, y);
  }

  /** An initiator on token `i`, waiting for the answer or completed with answer `r`. */
  predicate InitiatorOn(s: Option<Session>, i: Token, r: Token) {
    && s.Some? && s.value.isInitiator && ShapeOk(s.value) && TokenOf(s.value) == i
    && (s.value.cipher.Ready? ==> s.value.cipher.sender.resp == r)
  }

  /** A responder that forgets its session answers the same initiation again, under new keys. */
  lemma ReplayBreaks(w: World, p: Vip, q: Vip, i: Token, r: Token)
    requires p != q && r < w.next
    requires Envelope(p, q, Response(i, r)) in w.net && Envelope(q, p, Initiation(i)) in w.net
    requires InitiatorOn(Lookup(w, q, p), i, r)
    requires var s := Lookup(w, p, q); s.None? || (Less(q, p) && s.value.isInitiator && s.value.cipher.Pending?)
    ensures !KeepsAgreement(w, p, q)
  {
    var a, b := Envelope(p, q, Response(i, r)), Envelope(q, p, Initiation(i));
    TwoDeliveries(w, a, b);
    var w1 := Apply(w, Deliver(a));
    ReceiveCases(w, q, p, a.msg);
    assert IsReady(Lookup(w1, q, p)) && Lookup(w1, q, p).value.cipher.sender.resp == r;
    ReceiveCases(w1, p, q, b.msg);
    assert !Agree(Exec(w, [Deliver(a), Deliver(b)]), p, q);
  }

  /** A responder's partner is on the same handshake: waiting for the answer or done with it. */
  lemma ResponderFacts(w: World, p: Vip, q: Vip) returns (i: Token, r: Token)
    requires StrictInv(w) && p != q && ReadyResponder(Lookup(w, p, q))
    ensures r < w.next && OnHandshake(Lookup(w, p, q), i, r)
    ensures Envelope(p, q, Response(i, r)) in w.net && Envelope(q, p, Initiation(i)) in w.net
    ensures InitiatorOn(Lookup(w, q, p), i, r)
  {
    assert Justified(w.net, p, q, w.sessions[(p, q)]);
    i, r := w.sessions[(p, q)].cipher.sender.init, w.sessions[(p, q)].cipher.sender.resp;
    assert Envelope(q, p, Initiation(i)) in w.net;
    assert StrictPair(w, q, p) && StrictPair(w, p, q);
    var t := Lookup(w, q, p).value;
    assert Justified(w.net, q, p, t);
    LessTrichotomy(p, q);
  }

  /** `HandshakeInit` over an existing session is harmless exactly when the peer is the lower
      one or has not answered the other: for every run so far and every run to come. */
  lemma InitExact(run: seq<Step>, p: Vip, q: Vip, payload: Payload)
    requires StrictRun(Start, run) && p != q
    ensures var w := Exec(Start, run);
      InitAllowed(w, p, q) <==> KeepsAgreement(Apply(w, Init(p, q, payload)), p, q)
  {
    var w := Exec(Start, run);
    StrictInvRun(Start, run);
    var w1 := Apply(w, Init(p, q, payload));
    if InitAllowed(w, p, q) {
      InvStep(w, Init(p, q, payload));
      InvKeepsAgreement(w1, p, q);
    } else {
      var i, r := ResponderFacts(w, p, q);
      ReplayBreaks(w1, p, q, i, r);
    }
  }

  lemma KeepsStep(w: World, st: Step, p: Vip, q: Vip)
    requires KeepsAgreement(w, p, q) && Allowed(w, st)
    ensures KeepsAgreement(Apply(w, st), p, q)
  {
    forall steps | AllowedRun(Apply(w, st), steps) ensures Agree(Exec(Apply(w, st), steps), p, q) {
      var all := [st] + steps;
      assert all[0] == st && all[1..] == steps;
      assert AllowedRun(w, all);
      assert Agree(Exec(w, all), p, q);
    }
  }

  /** With both initiations in flight and no session on the lower side, both peers answer. */
  lemma BothAnswer(w: World, lo: Vip, hi: Vip, i: Token, j: Token)
    requires Less(lo, hi) && Lookup(w, lo, hi).None?
    requires Envelope(lo, hi, Initiation(i)) in w.net && Envelope(hi, lo, Initiation(j)) in w.net
    requires var s := Lookup(w, hi, lo); s.Some? && (ReadyResponder(s) || (s.value.isInitiator && s.value.cipher.Pending?))
    ensures !KeepsAgreement(w, lo, hi)
  {
    LessTrichotomy(lo, hi);
    var a, b := Envelope(lo, hi, Initiation(i)), Envelope(hi, lo, Initiation(j));
    TwoDeliveries(w, a, b);
    var w1 := Apply(w, Deliver(a));
    ReceiveCases(w, hi, lo, a.msg);
    assert ReadyResponder(Lookup(w1, hi, lo));
    ReceiveCases(w1, lo, hi, b.msg);
    assert !Agree(Exec(w, [Deliver(a), Deliver(b)]), lo, hi);
  }

  /** Before the lower peer's session goes, some initiation of the higher peer's is around to
      be answered in its place. */
  lemma LowerDropBreaks(w: World, lo: Vip, hi: Vip)
    requires StrictInv(w) && Less(lo, hi) && Lookup(w, lo, hi).Some? && Lookup(w, lo, hi).value.isInitiator
    requires !Frozen(w, lo, hi)
    ensures !KeepsAgreement(Apply(w, Drop(lo, hi)), lo, hi)
  {
    LessTrichotomy(lo, hi);
    var w1 := Apply(w, Drop(lo, hi));
    assert Justified(w.net, lo, hi, w.sessions[(lo, hi)]);
    var i := TokenOf(w.sessions[(lo, hi)]);
    if Lookup(w, hi, lo).None? {
      var w2 := Apply(w1, Init(hi, lo, []));
      BothAnswer(w2, lo, hi, i, w1.next);
      if KeepsAgreement(w1, lo, hi) { KeepsStep(w1, Init(hi, lo, []), lo, hi); }
    } else {
      var t := Lookup(w, hi, lo).value;
      assert Justified(w.net, hi, lo, t) && StrictPair(w, lo, hi);
      var j :| Envelope(hi, lo, Initiation(j)) in w.net;
      BothAnswer(w1, lo, hi, i, j);
    }
  }

  lemma FrozenDropPair(w: World, lo: Vip, hi: Vip, a: Vip, b: Vip)
    requires Less(lo, hi) && Frozen(w, lo, hi) && Less(a, b) && PairOk(w, a, b)
    ensures PairOk(Apply(w, Drop(lo, hi)), a, b)
  {
    LessTrichotomy(lo, hi);
    LessTrichotomy(a, b);
  }

  lemma FrozenDrop(w: World, lo: Vip, hi: Vip)
    requires Inv(w) && Less(lo, hi) && Frozen(w, lo, hi)
    ensures Inv(Apply(w, Drop(lo, hi)))
  {
    var w1 := Apply(w, Drop(lo, hi));
    AuthenticStep(w, Drop(lo, hi));
    forall a: Vip, b: Vip | Less(a, b) ensures PairOk(w1, a, b) {
      assert PairOk(w, a, b);
      FrozenDropPair(w, lo, hi, a, b);
    }
  }

  lemma DropHarmless(w: World, p: Vip, q: Vip)
    requires Inv(w) && p != q && (DropAllowed(w, p, q) || (Less(p, q) && Frozen(w, p, q)))
    ensures KeepsAgreement(Apply(w, Drop(p, q)), p, q)
  {
    if DropAllowed(w, p, q) { InvStep(w, Drop(p, q)); } else { FrozenDrop(w, p, q); }
    InvKeepsAgreement(Apply(w, Drop(p, q)), p, q);
  }

  lemma DropHarmful(w: World, p: Vip, q: Vip)
    requires StrictInv(w) && p != q && !DropAllowed(w, p, q) && !(Less(p, q) && Frozen(w, p, q))
    ensures !KeepsAgreement(Apply(w, Drop(p, q)), p, q)
  {
    LessTrichotomy(p, q);
    if ReadyResponder(Lookup(w, p, q)) {
      var i, r := ResponderFacts(w, p, q);
      ReplayBreaks(Apply(w, Drop(p, q)), p, q, i, r);
    } else {
      assert Justified(w.net, p, q, w.sessions[(p, q)]);
      LowerDropBreaks(w, p, q);
    }
  }

  /** A swept session is harmless exactly when there was none, when the higher peer sweeps a
      session it did not answer with, or when the pair is frozen.  The first two are what the
      sweeping peer can see; whether the pair is frozen depends on the other peer's session and
      on what it ever sent, so a guard in the program could only use the first two. */
  lemma DropExact(run: seq<Step>, p: Vip, q: Vip)
    requires StrictRun(Start, run) && p != q
    ensures var w := Exec(Start, run);
      DropAllowed(w, p, q) || (Less(p, q) && Frozen(w, p, q)) <==> KeepsAgreement(Apply(w, Drop(p, q)), p, q)
  {
    var w := Exec(Start, run);
    StrictInvRun(Start, run);
    if DropAllowed(w, p, q) || (Less(p, q) && Frozen(w, p, q)) { DropHarmless(w, p, q); } else { DropHarmful(w, p, q); }
  }

  // ---------- both conditions fail in a run of two steps ----------

  /** The lower peer initiates and the higher one answers. */
  function FirstAnswer(lo: Vip, hi: Vip, payload: Payload): seq<Step> {
    [Init(lo, hi, payload), Deliver(Envelope(lo, hi, Initiation(0)))]
  }

  lemma AfterFirstAnswer(lo: Vip, hi: Vip, payload: Payload)
    requires Less(lo, hi)
    ensures StrictRun(Start, FirstAnswer(lo, hi, payload))
    ensures ReadyResponder(Lookup(Exec(Start, FirstAnswer(lo, hi, payload)), hi, lo))
  {
    LessTrichotomy(lo, hi);
    var run, env := FirstAnswer(lo, hi, payload), Envelope(lo, hi, Initiation(0));
    var w1 := Apply(Start, run[0]);
    assert run[1..] == [Deliver(env)] && [Deliver(env)][1..] == [];
    assert Exec(w1, [Deliver(env)]) == Exec(Apply(w1, Deliver(env)), []);
    ReceiveCases(w1, hi, lo, env.msg);
    assert StrictRun(w1, [Deliver(env)]);
  }

  /** If the higher peer now initiates over its session, two ready peers can come to disagree. */
  lemma InitBreaks(lo: Vip, hi: Vip, payload: Payload, more: Payload)
    requires Less(lo, hi)
    ensures var w := Exec(Start, FirstAnswer(lo, hi, payload));
      !InitAllowed(w, hi, lo) && !KeepsAgreement(Apply(w, Init(hi, lo, more)), hi, lo)
  {
    LessTrichotomy(lo, hi);
    AfterFirstAnswer(lo, hi, payload);
    InitExact(FirstAnswer(lo, hi, payload), hi, lo, more);
  }

  /** Likewise if its session is swept. */
  lemma SweepBreaks(lo: Vip, hi: Vip, payload: Payload)
    requires Less(lo, hi)
    ensures !KeepsAgreement(Apply(Exec(Start, FirstAnswer(lo, hi, payload)), Drop(hi, lo)), hi, lo)
  {
    LessTrichotomy(lo, hi);
    AfterFirstAnswer(lo, hi, payload);
    DropExact(FirstAnswer(lo, hi, payload), hi, lo);
  }
}
