/** The session table of one peer as the program keeps it: session objects updated in place
    and a table that is copied and republished.  Every operation is tied to the protocol's
    own step functions. */
module NoiseManager {
  import opened Bytes
  import opened NoiseProtocol

  class NoiseSession {
    var isInitiator: bool
    var hs: Option<Token>
    var cipher: Cipher
    var pendingChan: seq<Payload>
    var pendingClosed: bool
    var sends: nat
    var lastSeen: int

    constructor (isInitiator: bool, hs: Option<Token>, now: int)
      ensures View() == Session(isInitiator, hs, Pending, [], 0)
      ensures !pendingClosed && lastSeen == now
    {
      this.isInitiator, this.hs, this.lastSeen := isInitiator, hs, now;
      cipher, pendingChan, pendingClosed, sends := Pending, [], false, 0;
    }

    /** An initiator's session, with its first payload queued. */
    constructor Initiator(token: Token, payload: Payload, now: int)
      ensures Valid() && View() == InitiatorSession(token, payload) && lastSeen == now
    {
      isInitiator, hs, lastSeen := true, Some(token), now;
      cipher, pendingChan, pendingClosed, sends := Pending, [], false, 0;
      new;
      AddPendingData(payload);
      assert pendingChan == [payload];
    }

    /** The channel is closed exactly once the keys are in place. */
    predicate Valid() reads this {
      pendingClosed == cipher.Ready? && |pendingChan| <= PENDING_CAPACITY && (cipher.Pending? ==> sends == 0)
    }

    function View(): Session reads this { Session(isInitiator, hs, cipher, pendingChan, sends) }

    predicate IsTimeout(now: int, timeout: int) reads this { now - lastSeen > timeout }

    /** Queues a payload; a closed or full queue swallows it. */
    method AddPendingData(data: Payload)
      requires Valid()
      modifies this`pendingChan
      ensures Valid()
      ensures pendingChan == if cipher.Pending? && |old(pendingChan)| < PENDING_CAPACITY
                             then old(pendingChan) + [data] else old(pendingChan)
    {
      if pendingClosed { return; }
      if |pendingChan| < PENDING_CAPACITY { pendingChan := pendingChan + [data]; }
    }

    /** One payload: queued before the keys are there; afterwards the session counts as seen and
        the payload takes the next counter, unless the packet format cannot carry it. */
    method Send(data: Payload, now: int) returns (sealed: Option<Emission>)
      requires Valid()
      modifies this
      ensures Valid() && View() == SendOn(old(View()), data).0 && sealed == SendOn(old(View()), data).1
      ensures lastSeen == if cipher.Ready? then now else old(lastSeen)
    {
      if cipher.Pending? {
        AddPendingData(data);
        return None;
      }
      lastSeen := now;
      if |data| > MAX_PAYLOAD { return None; }
      sealed := Some(Emission(cipher.sender, sends));
      sends := sends + 1;
    }

    /** Installs the keys and drains the queue, in order, into `recv`. */
    method Complete(recvKey: Key, sendKey: Key, recv: seq<Payload>) returns (out: seq<Payload>)
      requires Valid() && cipher.Pending?
      modifies this
      ensures Valid()
      ensures View() == old(View()).(hs := None, cipher := Ready(recvKey, sendKey), pending := [], sends := 0)
      ensures lastSeen == old(lastSeen)
      ensures out == recv + old(pendingChan)
    {
      cipher, sends, hs, pendingClosed := Ready(recvKey, sendKey), 0, None, true;
      out := recv;
      while pendingChan != []
        invariant pendingClosed && cipher == Ready(recvKey, sendKey) && hs == None && sends == 0
        invariant isInitiator == old(isInitiator) && lastSeen == old(lastSeen)
        invariant |pendingChan| <= PENDING_CAPACITY && out + pendingChan == recv + old(pendingChan)
        decreases |pendingChan|
      {
        out, pendingChan := out + [pendingChan[0]], pendingChan[1..];
      }
    }

    /** The answer to an initiator's handshake: its keys. */
    method Finish(i: Token, r: Token, recv: seq<Payload>) returns (out: seq<Payload>)
      requires Valid() && cipher.Pending?
      modifies this
      ensures Valid() && View() == CompletedSession(old(View()), i, r) && out == recv + old(pendingChan)
    {
      out := Complete(Key(i, r, Cs1), Key(i, r, Cs2), recv);
    }
  }

  ghost function Views(m: map<Vip, NoiseSession>): map<Vip, Session> reads m.Values {
    map a | a in m :: m[a].View()
  }

  class NoiseManager {
    var myVip: Vip
    var sessions: map<Vip, NoiseSession>
    var tunChan: seq<Payload>

    constructor (vip: Vip)
      ensures Valid() && View() == map[] && tunChan == [] && myVip == vip && sessions == map[]
    {
      myVip, sessions, tunChan := vip, map[], [];
    }

    /** No session object is filed under two addresses. */
    ghost predicate Valid() reads this, sessions.Values {
      && (forall a, b :: a in sessions && b in sessions && a != b ==> sessions[a] != sessions[b])
      && (forall a :: a in sessions ==> sessions[a].Valid())
    }

    ghost function View(): map<Vip, Session> reads this, sessions.Values {
      Views(sessions)
    }

    ghost function Entry(a: Vip): Option<Session> reads this, sessions.Values {
      if a in sessions then Some(sessions[a].View()) else None
    }

    method SetSession(key: Vip, value: NoiseSession)
      modifies this`sessions
      ensures sessions == old(sessions)[key := value]
    {
      var newSessions, todo := map[], sessions.Keys;
      while todo != {}
        invariant todo <= sessions.Keys && sessions == old(sessions)
        invariant newSessions.Keys == sessions.Keys - todo
        invariant forall k :: k in newSessions ==> newSessions[k] == sessions[k]
        decreases |todo|
      {
        var k :| k in todo;
        newSessions, todo := newSessions[k := sessions[k]], todo - {k};
      }
      sessions := newSessions[key := value];
    }

    /** Files a session object that is not in the table yet. */
    method File(key: Vip, value: NoiseSession)
      requires Valid() && value.Valid() && forall a :: a in sessions ==> sessions[a] != value
      modifies this`sessions
      ensures Valid() && View() == old(View())[key := value.View()] && Entry(key) == Some(value.View())
      ensures sessions == old(sessions)[key := value]
    {
      SetSession(key, value);
    }

    method HandshakeInit(remoteVip: Vip, payload: Payload, token: Token, now: int) returns (msg: Message)
      requires Valid()
      modifies this`sessions
      ensures Valid() && msg == Initiation(token)
      ensures View() == old(View())[remoteVip := InitiatorSession(token, payload)]
      ensures remoteVip in sessions && fresh(sessions[remoteVip]) && sessions[remoteVip].lastSeen == now
      ensures sessions == old(sessions)[remoteVip := sessions[remoteVip]]
    {
      var session := new NoiseSession.Initiator(token, payload, now);
      File(remoteVip, session);
      msg := Initiation(token);
    }

    /** Reads a first message and answers it; the session filed before, if any, is replaced
        and whatever it had queued is gone. */
    method ResponderFirst(srcVip: Vip, m: Message, token: Token, now: int)
      returns (reply: Option<Message>, verdict: Verdict)
      requires Valid()
      modifies this`sessions
      ensures Valid()
      ensures var o := HandleResponderFirst(old(Entry(srcVip)), m, token);
        && Entry(srcVip) == o.session && reply == o.reply && verdict == o.verdict
        && View() == if o.session.Some? then old(View())[srcVip := o.session.value] else old(View())
      ensures if m.Initiation? then
          srcVip in sessions && fresh(sessions[srcVip]) && sessions[srcVip].lastSeen == now
          && sessions == old(sessions)[srcVip := sessions[srcVip]]
        else sessions == old(sessions)
    {
      if !m.Initiation? {
        assert srcVip in sessions ==> View() == View()[srcVip := sessions[srcVip].View()];
        return None, Rejected;
      }
      var session := new NoiseSession(false, None, now);
      var drained := session.Complete(Key(m.e, token, Cs2), Key(m.e, token, Cs1), []);
      File(srcVip, session);
      return Some(Response(m.e, token)), Replied;
    }

    /** The answer to the pending session has come: keys in place, its queue is to go to `recv`. */
    method CompleteSession(srcVip: Vip, i: Token, r: Token, recv: seq<Payload>) returns (out: seq<Payload>)
      requires Valid() && srcVip in sessions && sessions[srcVip].cipher.Pending?
      modifies sessions[srcVip]
      ensures Valid() && out == recv + old(sessions[srcVip].pendingChan)
      ensures View() == old(View())[srcVip := CompletedSession(old(View())[srcVip], i, r)]
    {
      out := sessions[srcVip].Finish(i, r, recv);
    }

    method Inject(q: seq<Payload>)
      requires Valid()
      modifies this`tunChan
      ensures Valid() && View() == old(View()) && tunChan == q
    {
      tunChan := q;
    }

    method CompleteWith(srcVip: Vip, i: Token, r: Token)
      requires Valid() && srcVip in sessions && sessions[srcVip].cipher.Pending?
      modifies this`tunChan, sessions[srcVip]
      ensures Valid() && tunChan == old(tunChan) + old(sessions[srcVip].pendingChan)
      ensures View() == old(View())[srcVip := CompletedSession(old(View())[srcVip], i, r)]
    {
      var out := CompleteSession(srcVip, i, r, tunChan);
      Inject(out);
    }

    /** One received packet: exactly the protocol's step, on the one session it concerns. */
    method HandleNoisePacket(srcVip: Vip, m: Message, token: Token, now: int)
      returns (reply: Option<Message>, verdict: Verdict)
      requires Valid()
      modifies this`sessions, this`tunChan, sessions.Values
      ensures Valid() && myVip == old(myVip)
      ensures var o := HandlePacket(myVip, srcVip, old(Entry(srcVip)), m, token);
        && Entry(srcVip) == o.session && reply == o.reply && verdict == o.verdict
        && tunChan == old(tunChan) + o.injected
        && View() == if o.session.Some? then old(View())[srcVip := o.session.value] else old(View())
    {
      if srcVip !in sessions {
        reply, verdict := ResponderFirst(srcVip, m, token, now);
        return;
      }
      var session := sessions[srcVip];
      assert View() == View()[srcVip := session.View()];
      if session.cipher.Ready? { return None, UseSession; }
      if session.isInitiator && Length(m) >= COLLISION_LENGTH {
        if Less(srcVip, myVip) {
          reply, verdict := ResponderFirst(srcVip, m, token, now);
          return;
        }
        return None, Rejected;
      }
      if session.isInitiator && m.Response? && session.hs == Some(m.to) {
        CompleteWith(srcVip, m.to, m.e);
        assert View()[srcVip] == sessions[srcVip].View();
        return None, Completed;
      }
      return None, Rejected;
    }

    /** `packetSend` for one payload: the protocol's step on the session with `dst`, which counts
        as seen when it is ready, whether or not the payload can be carried. */
    method PacketSend(dst: Vip, payload: Payload, now: int) returns (sealed: Option<Emission>)
      requires Valid()
      modifies sessions.Values
      ensures Valid()
      ensures old(Entry(dst)).None? ==> sealed == None && View() == old(View())
      ensures old(Entry(dst)).Some? ==>
        View() == old(View())[dst := SendOn(old(Entry(dst)).value, payload).0]
        && sealed == SendOn(old(Entry(dst)).value, payload).1
      ensures forall k :: k in sessions ==>
        sessions[k].lastSeen == if k == dst && old(sessions[k].cipher.Ready?) then now else old(sessions[k].lastSeen)
    {
      if dst !in sessions { return None; }
      sealed := sessions[dst].Send(payload, now);
    }

    /** The sweep publishes the table without exactly the idle sessions. */
    method SweepSessions(now: int, timeout: int)
      requires Valid()
      modifies this`sessions
      ensures Valid()
      ensures sessions == map k | k in old(sessions) && now - old(sessions)[k].lastSeen <= timeout :: old(sessions)[k]
    {
      var newSessions, changed := Active(sessions, now, timeout);
      if changed { sessions := newSessions; }
    }

    static method Active(m: map<Vip, NoiseSession>, now: int, timeout: int) returns (r: map<Vip, NoiseSession>, changed: bool)
      ensures forall k :: k in r <==> k in m && now - m[k].lastSeen <= timeout
      ensures forall k :: k in r ==> r[k] == m[k]
      ensures !changed ==> forall k :: k in m ==> now - m[k].lastSeen <= timeout
    {
      r, changed := map[], false;
      var todo := m.Keys;
      while todo != {}
        invariant todo <= m.Keys
        invariant forall k :: k in r <==> k in m && k !in todo && !m[k].IsTimeout(now, timeout)
        invariant forall k :: k in r ==> r[k] == m[k]
        invariant !changed ==> forall k :: k in m && k !in todo ==> !m[k].IsTimeout(now, timeout)
        decreases |todo|
      {
        var k :| k in todo;
        if m[k].IsTimeout(now, timeout) { changed := true; } else { r := r[k := m[k]]; }
        todo := todo - {k};
      }
    }
  }
}
