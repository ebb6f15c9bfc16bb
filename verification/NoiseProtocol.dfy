/** The Noise IK session protocol between peers that share a lossy, duplicating and
    reordering network.  A handshake is an ideal token: the initiator's and the
    responder's ephemeral numbers determine the two transport keys, and nobody else
    can produce either message. */
module NoiseProtocol {
  import opened Bytes

  type Vip = Key4
  type Payload = seq<byte>
  type Token = nat

  /** Capacity of the queue of payloads that wait for the handshake. */
  const PENDING_CAPACITY := 24
  /** A packet at least this long is taken for a first handshake message. */
  const COLLISION_LENGTH := 64
  const NONCE_SPACE := 0x1_0000_0000_0000_0000

  /** `Split` yields two keys per handshake, in this order, on both sides. */
  datatype Half = Cs1 | Cs2
  datatype Key = Key(init: Token, resp: Token, half: Half)
  datatype Cipher = Pending | Ready(recver: Key, sender: Key)

  datatype Session = Session(
    isInitiator: bool, hs: Option<Token>, cipher: Cipher, pending: seq<Payload>, sends: nat)

  datatype Message = Initiation(e: Token) | Response(to: Token, e: Token) | Opaque(len: nat)

  /** Sizes of the two IK messages with empty payloads; anything else is opaque. */
  function Length(m: Message): (n: nat) {
    match m
    case Initiation(_) => 96
    case Response(_, _) => 48
    case Opaque(len) => len
  }

  datatype Verdict = UseSession | Replied | Completed | Rejected
  datatype Outcome = Outcome(
    session: Option<Session>, reply: Option<Message>, injected: seq<Payload>, verdict: Verdict)

  function InitiatorSession(t: Token, payload: Payload): Session {
    Session(true, Some(t), Pending, [payload], 0)
  }

  function ResponderSession(i: Token, r: Token): Session {
    Session(false, None, Ready(Key(i, r, Cs2), Key(i, r, Cs1)), [], 0)
  }

  /** The initiator reads `Split`'s keys as (receive, send), the responder as (send, receive). */
  function CompletedSession(s: Session, i: Token, r: Token): Session {
    s.(hs := None, cipher := Ready(Key(i, r, Cs1), Key(i, r, Cs2)), pending := [])
  }

  function HandleResponderFirst(s: Option<Session>, m: Message, next: Token): Outcome {
    if m.Initiation? then
      Outcome(Some(ResponderSession(m.e, next)), Some(Response(m.e, next)), [], Replied)
    else
      Outcome(s, None, [], Rejected)
  }

  /** What one received packet does to the session with `src`. */
  function HandlePacket(me: Vip, src: Vip, s: Option<Session>, m: Message, next: Token): Outcome {
    if s.None? then
      HandleResponderFirst(s, m, next)
    else if s.value.cipher.Ready? then
      Outcome(s, None, [], UseSession)
    else if s.value.isInitiator && Length(m) >= COLLISION_LENGTH then
      if Less(src, me) then HandleResponderFirst(s, m, next) else Outcome(s, None, [], Rejected)
    else if s.value.isInitiator && m.Response? && s.value.hs == Some(m.to) then
      Outcome(Some(CompletedSession(s.value, m.to, m.e)), None, s.value.pending, Completed)
    else
      Outcome(s, None, [], Rejected)
  }

  datatype Envelope = Envelope(src: Vip, dst: Vip, msg: Message)
  datatype Emission = Emission(key: Key, count: nat)

  /** `net` keeps every handshake message ever sent: a message may be delivered any number
      of times, in any order, or never.  `installed` and `emitted` are the history of send
      keys put into use and of packets sealed, `tun` of the queued payloads that a peer put back
      into its tunnel channel when the session with another was completed. */
  datatype World = World(
    sessions: map<(Vip, Vip), Session>, net: set<Envelope>, next: Token,
    installed: seq<Key>, emitted: seq<Emission>, tun: map<(Vip, Vip), seq<Payload>>)

  const Start: World := World(map[], {}, 0, [], [], map[])

  datatype Step =
    | Init(p: Vip, q: Vip, payload: Payload)        // HandshakeInit, whatever the session table holds
    | Deliver(env: Envelope)                        // one more delivery of a message sent before
    | Noise(src: Vip, dst: Vip, len: nat)           // any other packet: transport data, damaged bytes
    | Send(p: Vip, q: Vip, payload: Payload)        // a packet read from the tunnel device
    | Drop(p: Vip, q: Vip)                          // DeleteSession, or the sweep of an idle session

  function Lookup(w: World, p: Vip, q: Vip): Option<Session> {
    if (p, q) in w.sessions then Some(w.sessions[(p, q)]) else None
  }

  predicate IsReady(s: Option<Session>) {
    s.Some? && s.value.cipher.Ready?
  }

  function Tun(w: World, p: Vip, q: Vip): seq<Payload> {
    if (p, q) in w.tun then w.tun[(p, q)] else []
  }

  function Inject(w: World, p: Vip, q: Vip, payloads: seq<Payload>): map<(Vip, Vip), seq<Payload>> {
    if payloads == [] then w.tun else w.tun[(p, q) := Tun(w, p, q) + payloads]
  }

  function Receive(w: World, me: Vip, src: Vip, m: Message): World {
    var s := Lookup(w, me, src);
    var o := HandlePacket(me, src, s, m, w.next);
    w.(sessions := if o.session.Some? then w.sessions[(me, src) := o.session.value] else w.sessions,
       net := if o.reply.Some? then w.net + {Envelope(me, src, o.reply.value)} else w.net,
       next := if o.reply.Some? then w.next + 1 else w.next,
       installed := if IsReady(o.session) && !IsReady(s)
                    then w.installed + [o.session.value.cipher.sender] else w.installed,
       tun := Inject(w, me, src, o.injected))
  }

  /** A payload on an existing session: queued before readiness, sealed after, and refused
      without taking a counter when the packet format cannot carry it. */
  function SendOn(s: Session, payload: Payload): (r: (Session, Option<Emission>)) {
    if s.cipher.Pending? then
      (if |s.pending| < PENDING_CAPACITY then s.(pending := s.pending + [payload]) else s, None)
    else if |payload| > MAX_PAYLOAD then (s, None)
    else (s.(sends := s.sends + 1), Some(Emission(s.cipher.sender, s.sends)))
  }

  /** `packetSend`: without a session the server is asked and nothing changes here. */
  function SendPayload(w: World, p: Vip, q: Vip, payload: Payload): World {
    var s := Lookup(w, p, q);
    if s.None? then w else
      var (s', e) := SendOn(s.value, payload);
      w.(sessions := w.sessions[(p, q) := s'],
         emitted := if e.Some? then w.emitted + [e.value] else w.emitted)
  }

  function Apply(w: World, st: Step): World {
    match st
    case Init(p, q, payload) =>
      w.(sessions := w.sessions[(p, q) := InitiatorSession(w.next, payload)],
         net := w.net + {Envelope(p, q, Initiation(w.next))}, next := w.next + 1)
    case Deliver(env) => if env in w.net then Receive(w, env.dst, env.src, env.msg) else w
    case Noise(src, dst, len) => Receive(w, dst, src, Opaque(len))
    case Send(p, q, payload) => SendPayload(w, p, q, payload)
    case Drop(p, q) => w.(sessions := w.sessions - {(p, q)})
  }

  function Exec(w: World, steps: seq<Step>): World
    decreases |steps|
  {
    if steps == [] then w else Exec(Apply(w, steps[0]), steps[1..])
  }
}
