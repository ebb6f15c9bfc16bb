/** Key and nonce freshness: over every run whatever, with sessions replaced, swept and
    restarted at will, no transport key is put into use twice and no key seals twice under
    the same counter. */
module NoiseNonce {
  import opened Bytes
  import opened NoiseProtocol
  import opened NoiseAgreement

  ghost predicate Distinct<T>(s: seq<T>) {
    forall a, b :: 0 <= a < b < |s| ==> s[a] != s[b]
  }

  ghost predicate KeysOk(w: World) {
    && Distinct(w.installed)
    && (forall k :: k in w.installed ==> k.init < w.next && k.resp < w.next)
    && (forall x :: x in w.sessions && w.sessions[x].cipher.Ready? ==> w.sessions[x].cipher.sender in w.installed)
    && (forall x :: x in w.sessions && w.sessions[x].cipher.Pending? ==>
          w.sessions[x].sends == 0 && w.sessions[x].hs.Some? && forall r :: Key(w.sessions[x].hs.value, r, Cs2) !in w.installed)
  }

  ghost predicate CountersOk(w: World) {
    && Distinct(w.emitted)
    && (forall e :: e in w.emitted ==> e.key in w.installed)
    && (forall e, c: nat :: e in w.emitted && c < e.count ==> Emission(e.key, c) in w.emitted)
    && (forall x, c: nat :: x in w.sessions && w.sessions[x].cipher.Ready? ==>
          (Emission(w.sessions[x].cipher.sender, c) in w.emitted <==> c < w.sessions[x].sends))
  }

  ghost predicate NonceInv(w: World) {
    Authentic(w) && KeysOk(w) && CountersOk(w)
  }

  /** Sender keys tell live sessions apart. */
  lemma SendersDiffer(w: World, x: (Vip, Vip), y: (Vip, Vip))
    requires Authentic(w) && x in w.sessions && y in w.sessions && x != y
    ensures w.sessions[x].cipher.Ready? && w.sessions[y].cipher.Ready? ==>
      w.sessions[x].cipher.sender != w.sessions[y].cipher.sender
    ensures w.sessions[x].isInitiator && w.sessions[y].isInitiator ==>
      TokenOf(w.sessions[x]) != TokenOf(w.sessions[y])
  {
    assert Justified(w.net, x.0, x.1, w.sessions[x]) && Justified(w.net, y.0, y.1, w.sessions[y]);
  }

  lemma AllSendersDiffer(w: World)
    requires NonceInv(w)
    ensures forall x, y :: x in w.sessions && y in w.sessions && x != y && w.sessions[x].isInitiator && w.sessions[y].isInitiator ==>
      TokenOf(w.sessions[x]) != TokenOf(w.sessions[y])
  {
    forall x, y | x in w.sessions && y in w.sessions && x != y
      ensures w.sessions[x].isInitiator && w.sessions[y].isInitiator ==> TokenOf(w.sessions[x]) != TokenOf(w.sessions[y])
    {
      SendersDiffer(w, x, y);
    }
  }

  lemma ReceiveKeys(w: World, me: Vip, src: Vip, m: Message)
    requires NonceInv(w) && (m.Opaque? || Envelope(src, me, m) in w.net)
    ensures KeysOk(Receive(w, me, src, m))
  {
    ReceiveCases(w, me, src, m);
    AllSendersDiffer(w);
  }

  lemma ReceiveCounters(w: World, me: Vip, src: Vip, m: Message)
    requires NonceInv(w) && (m.Opaque? || Envelope(src, me, m) in w.net)
    ensures CountersOk(Receive(w, me, src, m))
  {
    ReceiveCases(w, me, src, m);
  }

  lemma SendKeys(w: World, p: Vip, q: Vip, payload: Payload)
    requires KeysOk(w)
    ensures KeysOk(SendPayload(w, p, q, payload))
  {
  }

  /** Sealing one more packet uses the next counter of that key. */
  lemma SealCounters(w: World, x: (Vip, Vip))
    requires Authentic(w) && CountersOk(w) && x in w.sessions && w.sessions[x].cipher.Ready?
    requires w.sessions[x].cipher.sender in w.installed
    ensures var s := w.sessions[x];
      CountersOk(w.(sessions := w.sessions[x := s.(sends := s.sends + 1)],
                    emitted := w.emitted + [Emission(s.cipher.sender, s.sends)]))
  {
    forall y | y in w.sessions && y != x
      ensures w.sessions[y].cipher.Ready? ==> w.sessions[y].cipher.sender != w.sessions[x].cipher.sender
    {
      SendersDiffer(w, y, x);
    }
  }

  lemma QuietCounters(w: World, x: (Vip, Vip), s: Session)
    requires CountersOk(w) && s.cipher.Pending?
    ensures CountersOk(w.(sessions := w.sessions[x := s]))
  {
  }

  lemma SendCases(w: World, p: Vip, q: Vip, payload: Payload)
    ensures var w', x := SendPayload(w, p, q, payload), (p, q);
      if x !in w.sessions then w' == w
      else if w.sessions[x].cipher.Pending? then
        w' == w.(sessions := w.sessions[x := SendOn(w.sessions[x], payload).0]) && SendOn(w.sessions[x], payload).0.cipher.Pending?
      else if |payload| > MAX_PAYLOAD then w' == w
      else var s := w.sessions[x];
        w' == w.(sessions := w.sessions[x := s.(sends := s.sends + 1)], emitted := w.emitted + [Emission(s.cipher.sender, s.sends)])
  {
    var x := (p, q);
    if x in w.sessions && w.sessions[x].cipher.Ready? && |payload| > MAX_PAYLOAD {
      assert w.sessions[x := w.sessions[x]] == w.sessions;
    }
  }

  lemma SendCounters(w: World, p: Vip, q: Vip, payload: Payload)
    requires NonceInv(w)
    ensures CountersOk(SendPayload(w, p, q, payload))
  {
    SendCases(w, p, q, payload);
    var x := (p, q);
    if x !in w.sessions { return; }
    if w.sessions[x].cipher.Pending? { QuietCounters(w, x, SendOn(w.sessions[x], payload).0); return; }
    if |payload| <= MAX_PAYLOAD { SealCounters(w, x); }
  }

  lemma NonceStep(w: World, st: Step)
    requires NonceInv(w)
    ensures NonceInv(Apply(w, st))
  {
    AuthenticStep(w, st);
    match st
    case Deliver(env) => if env in w.net {
        ReceiveKeys(w, env.dst, env.src, env.msg);
        ReceiveCounters(w, env.dst, env.src, env.msg);
      }
    case Noise(src, dst, len) =>
      ReceiveKeys(w, dst, src, Opaque(len));
      ReceiveCounters(w, dst, src, Opaque(len));
    case Send(p, q, payload) =>
      SendKeys(w, p, q, payload);
      SendCounters(w, p, q, payload);
    case _ =>
  }

  lemma {:induction false} NonceRun(w: World, steps: seq<Step>)
    requires NonceInv(w)
    ensures NonceInv(Exec(w, steps))
    decreases |steps|
  {
    if steps != [] {
      NonceStep(w, steps[0]);
      NonceRun(Apply(w, steps[0]), steps[1..]);
    }
  }

  lemma NonceSpace()
    ensures Pow256(8) == NONCE_SPACE
  {
    assert Pow256(0) == 1 && Pow256(1) == 0x100 && Pow256(2) == 0x1_0000 && Pow256(3) == 0x100_0000;
    assert Pow256(4) == 0x1_0000_0000 && Pow256(5) == 0x100_0000_0000 && Pow256(6) == 0x1_0000_0000_0000;
  }

  /** Packets `a` and `b` of the history: same key, no counter wrapped, different nonces. */
  ghost predicate NoncesDiffer(w: World, a: nat, b: nat)
    requires a < |w.emitted| && b < |w.emitted|
  {
    var x, y := w.emitted[a], w.emitted[b];
    x.key == y.key && x.count < NONCE_SPACE && y.count < NONCE_SPACE ==>
      forall p: Vip, q: Vip :: NonceBytes(p, x.count) != NonceBytes(q, y.count)
  }

  lemma DistinctNonces(m: nat, n: nat, p: Vip, q: Vip)
    requires m != n && m < NONCE_SPACE && n < NONCE_SPACE
    ensures NonceBytes(p, m) != NonceBytes(q, n)
  {
    NonceSpace();
    assert NonceBytes(p, m)[4..] == BigEndian(m, 8) && NonceBytes(q, n)[4..] == BigEndian(n, 8);
    if BigEndian(m, 8) == BigEndian(n, 8) { BigEndianInjective(m, n, 8); }
  }

  lemma DistinctPackets(w: World, a: nat, b: nat)
    requires Distinct(w.emitted) && a < b < |w.emitted|
    ensures NoncesDiffer(w, a, b)
  {
    var x, y := w.emitted[a], w.emitted[b];
    if x.key == y.key && x.count < NONCE_SPACE && y.count < NONCE_SPACE {
      forall p: Vip, q: Vip ensures NonceBytes(p, x.count) != NonceBytes(q, y.count) {
        DistinctNonces(x.count, y.count, p, q);
      }
    }
  }

  /** In every run: no transport key is installed twice; a key's counters are used in order,
      without a gap that a refused payload would leave; and as long as no counter has wrapped,
      two packets sealed under one key carry different nonces. */
  lemma NonceFreshness(steps: seq<Step>)
    ensures Distinct(Exec(Start, steps).installed)
    ensures forall e, c: nat :: e in Exec(Start, steps).emitted && c < e.count ==>
      Emission(e.key, c) in Exec(Start, steps).emitted
    ensures forall a: nat, b: nat :: a < b < |Exec(Start, steps).emitted| ==> NoncesDiffer(Exec(Start, steps), a, b)
  {
    NonceRun(Start, steps);
    var w := Exec(Start, steps);
    forall a: nat, b: nat | a < b < |w.emitted| ensures NoncesDiffer(w, a, b) {
      DistinctPackets(w, a, b);
    }
  }

  /** In every run a payload for a ready session that the packet format can carry is sealed under
      the session's key with the first counter not used under it; any other payload is not. */
  lemma SealsNext(run: seq<Step>, p: Vip, q: Vip, x: Payload)
    ensures var w := Exec(Start, run); var s, w' := Lookup(w, p, q), Apply(w, Send(p, q, x));
      if IsReady(s) && |x| <= 65519 then
        exists c: nat ::
          && w'.emitted == w.emitted + [Emission(s.value.cipher.sender, c)]
          && Emission(s.value.cipher.sender, c) !in w.emitted
          && forall d: nat :: d < c ==> Emission(s.value.cipher.sender, d) in w.emitted
      else w'.emitted == w.emitted
  {
    NonceRun(Start, run);
    var w := Exec(Start, run);
    var s := Lookup(w, p, q);
    if IsReady(s) && |x| <= 65519 {
      var c := s.value.sends;
      assert Apply(w, Send(p, q, x)).emitted == w.emitted + [Emission(s.value.cipher.sender, c)];
    }
  }
}
