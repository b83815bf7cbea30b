/** The daemon's end: daemonState of cmd/agbridge/daemon.go, its handshake handler and read loop. */
module Daemon {
  import opened Wrappers
  import opened Bytes
  import opened Crypto
  import opened Proto
  import opened Channel
  import opened Receiving
  import opened EndToEnd
  import opened Endpoints
  import E2e

  datatype Mode = Disabled | Optional | Required

  // What the Noise library makes of a NoiseInit message and of writing the reply.
  datatype Noise =
    | BadMessage1
    | Initiator(peer: bytes, reply: Option<Reply>)

  datatype Reply = Reply(msg2: bytes, send: Key, recv: Key)

  const TYPE_NOISE_RESP: byte := 51

  function HexValue(b: byte): Option<int> {
    if 48 <= b <= 57 then Some(b - 48)
    else if 97 <= b <= 102 then Some(b - 87)
    else if 65 <= b <= 70 then Some(b - 55)
    else None
  }

  // hex.DecodeString.
  function HexDecode(s: bytes): Option<bytes> {
    if |s| == 0 then Some([])
    else if |s| == 1 then None
    else match (HexValue(s[0]), HexValue(s[1]), HexDecode(s[2..]))
         case (Some(h), Some(l), Some(rest)) =>
           if 0 <= h < 16 && 0 <= l < 16 then Some([h * 16 + l] + rest) else None
         case _ => None
  }

  function HexDigit(n: int): byte
    requires 0 <= n < 16
  {
    if n < 10 then 48 + n else 87 + n
  }

  // hex.EncodeToString.
  function HexEncode(b: bytes): bytes {
    if b == [] then [] else [HexDigit(b[0] / 16), HexDigit(b[0] % 16)] + HexEncode(b[1..])
  }

  /** The session id the bridge sends as a ReqID is the one the daemon installs. */
  lemma {:induction false} HexRoundTrip(b: bytes)
    ensures HexDecode(HexEncode(b)) == Some(b)
  {
    if b != [] {
      HexRoundTrip(b[1..]);
      var s := HexEncode(b);
      assert s[2..] == HexEncode(b[1..]);
      var h, l := b[0] / 16, b[0] % 16;
      assert HexValue(HexDigit(h)) == Some(h) && HexValue(HexDigit(l)) == Some(l);
      assert [b[0]] + b[1..] == b;
    }
  }

  // A to F written small.
  function LowerDigit(c: byte): byte {
    if 65 <= c <= 70 then c + 32 else c
  }

  function Lower(s: bytes): (r: bytes)
    ensures |r| == |s| && forall k :: 0 <= k < |s| ==> r[k] == LowerDigit(s[k])
  {
    seq(|s|, k requires 0 <= k < |s| => LowerDigit(s[k]))
  }

  lemma HexValueOfDigit(c: byte, n: int)
    requires 0 <= n < 16
    ensures HexValue(c) == Some(n) <==> LowerDigit(c) == HexDigit(n)
  {
  }

  lemma PairInFront(c: byte, d: byte, s: bytes, c': byte, d': byte, s': bytes)
    ensures [c, d] + s == [c', d'] + s' <==> c == c' && d == d' && s == s'
  {
    var x, x' := [c, d] + s, [c', d'] + s';
    assert x[0] == c && x[1] == d && x[2..] == s && x'[0] == c' && x'[1] == d' && x'[2..] == s';
  }

  /** hex.DecodeString reads what hex.EncodeToString writes, in capitals too, and nothing else. */
  lemma {:induction false} HexDecodesExactly(s: bytes, b: bytes)
    ensures HexDecode(s) == Some(b) <==> Lower(s) == HexEncode(b)
    decreases |s|
  {
    HexLength(b);
    if |s| >= 2 && b != [] {
      HexDecodesExactly(s[2..], b[1..]);
      HexPair(s, b);
      HexValueOfDigit(s[0], b[0] / 16);
      HexValueOfDigit(s[1], b[0] % 16);
      assert Lower(s) == [LowerDigit(s[0]), LowerDigit(s[1])] + Lower(s[2..]);
      PairInFront(LowerDigit(s[0]), LowerDigit(s[1]), Lower(s[2..]),
                  HexDigit(b[0] / 16), HexDigit(b[0] % 16), HexEncode(b[1..]));
    } else {
      HexShort(s, b);
    }
  }

  lemma HexShort(s: bytes, b: bytes)
    requires |s| < 2 || b == []
    ensures HexDecode(s) == Some(b) <==> s == [] && b == []
    ensures Lower(s) == HexEncode(b) <==> s == [] && b == []
  {
    HexLength(b);
  }

  lemma {:induction false} HexLength(b: bytes)
    ensures |HexEncode(b)| == 2 * |b|
  {
    if b != [] {
      HexLength(b[1..]);
    }
  }

  // The first byte of what is decoded comes from the first two digits.
  lemma HexPair(s: bytes, b: bytes)
    requires |s| >= 2 && b != []
    ensures HexDecode(s) == Some(b) <==>
              HexValue(s[0]) == Some(b[0] / 16) && HexValue(s[1]) == Some(b[0] % 16) && HexDecode(s[2..]) == Some(b[1..])
  {
    assert b == [b[0]] + b[1..];
    if HexDecode(s) == Some(b) {
      var h, l, rest := HexValue(s[0]).value, HexValue(s[1]).value, HexDecode(s[2..]).value;
      assert b == [h * 16 + l] + rest;
      assert b[1..] == rest && b[0] == h * 16 + l;
    }
  }

  predicate PeerAllowed(mode: Mode, allowed: seq<bytes>, peer: bytes) {
    mode != Disabled && if |allowed| == 0 then mode == Optional else peer in allowed
  }

  // The session a NoiseInit frame leads to: its id and the keys of the two directions.
  function Negotiated(mode: Mode, allowed: seq<bytes>, f: Frame, noise: Noise): Option<(bytes, Reply)> {
    match (HexDecode(f.reqID), noise)
    case (Some(sid), Initiator(peer, Some(reply))) =>
      if mode != Disabled && |sid| == SID_LEN && PeerAllowed(mode, allowed, peer) then Some((sid, reply)) else None
    case _ => None
  }

  /** Who gets a session: an initiator that completes the handshake under an 8-byte id in hex and is on the
      list, or anyone in mode optional when there is no list; nobody when encryption is off, nor in mode
      required without a list. */
  lemma NegotiatedExactly(mode: Mode, allowed: seq<bytes>, f: Frame, noise: Noise, sid: bytes, reply: Reply)
    ensures Negotiated(mode, allowed, f, noise) == Some((sid, reply)) <==>
              && |sid| == 8 && Lower(f.reqID) == HexEncode(sid)
              && noise.Initiator? && noise.reply == Some(reply)
              && ((mode == Optional && allowed == []) || (mode != Disabled && exists k :: 0 <= k < |allowed| && allowed[k] == noise.peer))
  {
    HexDecodesExactly(f.reqID, sid);
  }

  function ErrorReply(f: Frame, code: bytes): Frame {
    Frame(TYPE_ERROR, f.reqID, code)
  }

  // "e2e_disabled" and "handshake_failed"
  const E2E_DISABLED: bytes := [101, 50, 101, 95, 100, 105, 115, 97, 98, 108, 101, 100]
  const HANDSHAKE_FAILED: bytes := [104, 97, 110, 100, 115, 104, 97, 107, 101, 95, 102, 97, 105, 108, 101, 100]

  // The frame a NoiseInit is answered with.
  function NoiseAnswer(mode: Mode, allowed: seq<bytes>, f: Frame, noise: Noise): Frame {
    if mode == Disabled then ErrorReply(f, E2E_DISABLED)
    else match Negotiated(mode, allowed, f, noise)
         case None => ErrorReply(f, HANDSHAKE_FAILED)
         case Some((_, reply)) => Frame(TYPE_NOISE_RESP, f.reqID, reply.msg2)
  }

  // What one Send of a frame adds to what is written.
  function SentAs(f: Frame, live: bool, wrote: bool): seq<bytes> {
    if live && wrote && Encoded(f).Ok? then [Encoded(f).value] else []
  }

  class DaemonState {
    const suite: Suite
    const mode: Mode
    const allowed: seq<bytes>
    const conn: Conn
    var session: E2e.Session?
    var sessionID: bytes

    constructor (suite: Suite, mode: Mode, allowed: seq<bytes>, conn: Conn)
      ensures this.suite == suite && this.mode == mode && this.allowed == allowed && this.conn == conn
      ensures session == null
    {
      this.suite, this.mode, this.allowed, this.conn := suite, mode, allowed, conn;
      session, sessionID := null, ZERO_SID;
    }

    ghost predicate Valid()
      reads this, session
    {
      session != null ==> session.suite == suite
    }

    ghost function Outgoing(): Option<Keyed>
      reads this, session
    {
      if session == null then None else Some(Keyed(sessionID, session.send))
    }

    ghost function Incoming(): Option<Keyed>
      reads this, session
    {
      if session == null then None else Some(Keyed(sessionID, session.recv))
    }

    method SendInner(inner: Frame, live: bool, wrote: bool)
      requires Valid()
      modifies session, conn
      ensures Valid() && Incoming() == old(Incoming())
      ensures Encoded(inner).Err? ==> Outgoing() == old(Outgoing()) && conn.out == old(conn.out)
      ensures Encoded(inner).Ok? ==>
                var plain := Encoded(inner).value;
                var p := Payload(suite, old(Outgoing()), plain);
                && Outgoing() == Spent(suite, old(Outgoing()), plain)
                && conn.out == old(conn.out) +
                     if p.Ok? && Encoded(RouteFrame(p.value)).Ok? && live && wrote
                     then [Encoded(RouteFrame(p.value)).value] else []
      ensures session == null && live && wrote && Encoded(inner).Ok? ==>
                var outer := Frame(TYPE_ROUTE, [], Encoded(inner).value);
                Encoded(outer).Ok? ==> conn.out == old(conn.out) + [Encoded(outer).value]
      ensures session != null && Encoded(inner).Ok? ==>
                var k := old(session.send);
                if k.n >= 0xFFFF_FFFF_FFFF_FFFF then conn.out == old(conn.out) && session.send == k
                else
                  var outer := Frame(TYPE_ROUTE, [], sessionID + suite.seal(k.key, k.n, sessionID, Encoded(inner).value));
                  && session.send == k.(n := k.n + 1)
                  && conn.out == old(conn.out) + if live && wrote && Encoded(outer).Ok? then [Encoded(outer).value] else []
    {
      var encoded := Encode(inner);
      if encoded.Err? {
        return;
      }
      var sess, sid := session, sessionID;
      var payload;
      if sess != null {
        var ct := sess.Encrypt(sid, encoded.value);
        if ct.Err? {
          return;
        }
        payload := sid + ct.value;
      } else {
        payload := encoded.value;
      }
      var _ := conn.Send(RouteFrame(payload), live, wrote);
    }

    method UnwrapRoute(payload: bytes) returns (r: Result<bytes, RouteError>)
      requires Valid()
      modifies session
      ensures Valid() && Outgoing() == old(Outgoing())
      ensures r == Unwrapped(suite, mode == Required, old(Incoming()), payload)
      ensures session == null ==> r == if mode == Required then Err(PlaintextRefused) else Ok(payload)
      ensures session != null ==>
                var k := old(session.recv);
                && (r.Ok? <==> |payload| >= 8 && payload[..8] == sessionID && k.n < 0xFFFF_FFFF_FFFF_FFFF
                               && suite.unseal(k.key, k.n, sessionID, payload[8..]).Some?)
                && (r.Ok? ==> suite.unseal(k.key, k.n, sessionID, payload[8..]) == Some(r.value))
                && session.recv == if r.Ok? then k.(n := k.n + 1) else k
      ensures Incoming() == Receive(suite, mode == Required, Receiver(old(Incoming()), []), Route(payload)).session
    {
      if session == null {
        if mode == Required {
          return Err(PlaintextRefused);
        }
        return Ok(payload);
      }
      if |payload| < SID_LEN {
        return Err(TooShort);
      }
      var got := payload[..SID_LEN];
      if got != sessionID {
        return Err(SidMismatch);
      }
      var plain := session.Decrypt(sessionID, payload[SID_LEN..]);
      if plain.Err? {
        return Err(BadCiphertext(plain.error));
      }
      return Ok(plain.value);
    }

    /** A new session is installed exactly when the handshake is complete and the peer allowed; in
        every other case the current session stays as it is. Either way there is one answer: a refusal that
        tells only whether encryption is off, or the second message of the handshake. */
    method HandleNoiseInit(f: Frame, noise: Noise, live: bool, wrote: bool)
      requires Valid()
      modifies this, conn
      ensures Valid()
      ensures match Negotiated(mode, allowed, f, noise)
              case None => session == old(session) && sessionID == old(sessionID)
              case Some((sid, reply)) =>
                && session != null && fresh(session) && sessionID == sid
                && session.send == E2e.CipherState(reply.send, 0) && session.recv == E2e.CipherState(reply.recv, 0)
      ensures conn.out == old(conn.out) + SentAs(NoiseAnswer(mode, allowed, f, noise), live, wrote)
      ensures forall sid, reply :: |sid| == 8 && Lower(f.reqID) == HexEncode(sid) && noise.Initiator? && noise.reply == Some(reply) ==>
                if (mode == Optional && allowed == []) || (mode != Disabled && exists k :: 0 <= k < |allowed| && allowed[k] == noise.peer)
                then && fresh(session) && sessionID == sid
                     && conn.out == old(conn.out) + SentAs(Frame(51, f.reqID, reply.msg2), live, wrote)
                else session == old(session) && sessionID == old(sessionID)
      ensures (forall sid :: |sid| == 8 ==> Lower(f.reqID) != HexEncode(sid)) || noise.BadMessage1? || noise.reply.None? ==>
                session == old(session) && sessionID == old(sessionID)
      ensures session == old(session) ==>
                conn.out == old(conn.out) + SentAs(Frame(3, f.reqID, if mode == Disabled then E2E_DISABLED else HANDSHAKE_FAILED), live, wrote)
    {
      forall sid, reply
        ensures Negotiated(mode, allowed, f, noise) == Some((sid, reply)) <==>
                  && |sid| == 8 && Lower(f.reqID) == HexEncode(sid) && noise.Initiator? && noise.reply == Some(reply)
                  && ((mode == Optional && allowed == [])
                      || (mode != Disabled && exists k :: 0 <= k < |allowed| && allowed[k] == noise.peer))
      {
        NegotiatedExactly(mode, allowed, f, noise, sid, reply);
      }
      if mode == Disabled {
        var _ := conn.Send(ErrorReply(f, E2E_DISABLED), live, wrote);
        return;
      }
      var sidBytes := HexDecode(f.reqID);
      if sidBytes.None? || |sidBytes.value| != SID_LEN {
        var _ := conn.Send(ErrorReply(f, HANDSHAKE_FAILED), live, wrote);
        return;
      }
      if noise.BadMessage1? || !PeerAllowed(mode, allowed, noise.peer) || noise.reply.None? {
        var _ := conn.Send(ErrorReply(f, HANDSHAKE_FAILED), live, wrote);
        return;
      }
      var reply := noise.reply.value;
      session := new E2e.Session(suite, E2e.CipherState(reply.send, 0), E2e.CipherState(reply.recv, 0));
      sessionID := sidBytes.value;
      var _ := conn.Send(Frame(TYPE_NOISE_RESP, f.reqID, reply.msg2), live, wrote);
    }

    // One pass of the read loop; out is what goes to dispatch.
    method OnMessage(m: Message) returns (out: seq<Frame>)
      requires Valid()
      modifies this, session, conn
      ensures Valid() && (session == old(session) || fresh(session))
      ensures Incoming() == ReceiveSeen(suite, mode == Required, Receiver(old(Incoming()), []),
                                        SeenAs(mode, allowed, m)).session
      ensures out == DispatchedFor(suite, mode == Required, old(Incoming()), SeenAs(mode, allowed, m))
      ensures conn.out == old(conn.out) + if m.NoiseInit? then SentAs(NoiseAnswer(mode, allowed, m.f, m.noise), m.live, m.wrote)
                                          else []
    {
      out := [];
      match m
      case NoiseInit(f, noise, live, wrote) =>
        HandleNoiseInit(f, noise, live, wrote);
      case RouteMsg(payload) =>
        var innerBytes := UnwrapRoute(payload);
        if innerBytes.Ok? {
          var inner := Decode(innerBytes.value);
          if inner.Ok? {
            out := [inner.value];
          }
        }
      case Stray =>
    }
  }

  // A frame as the read loop sees it: a NoiseInit with what the library makes of it, a Route, or
  // anything else.
  datatype Message =
    | NoiseInit(f: Frame, noise: Noise, live: bool, wrote: bool)
    | RouteMsg(payload: bytes)
    | Stray

  // The events of the receiving side of the channel that the messages amount to.
  function Seen(mode: Mode, allowed: seq<bytes>, ms: seq<Message>): seq<Inbound> {
    if ms == [] then []
    else Seen(mode, allowed, ms[..|ms| - 1]) + SeenAs(mode, allowed, ms[|ms| - 1])
  }

  function SeenAs(mode: Mode, allowed: seq<bytes>, m: Message): seq<Inbound> {
    match m
    case NoiseInit(f, noise, _, _) =>
      (match Negotiated(mode, allowed, f, noise)
       case None => []
       case Some((sid, reply)) => [Handshaken(Agreed(sid, reply.recv))])
    case RouteMsg(payload) => [Route(payload)]
    case Stray => []
  }

  function ReceiveSeen(c: Suite, required: bool, r: Receiver, seen: seq<Inbound>): Receiver
    requires |seen| <= 1
  {
    if seen == [] then r else Receive(c, required, r, seen[0])
  }

  // The frame that one event leads to dispatching, if any.
  function DispatchedFor(c: Suite, required: bool, session: Option<Keyed>, seen: seq<Inbound>): seq<Frame>
    requires |seen| <= 1
  {
    if seen == [] || seen[0].Handshaken? then []
    else match Unwrapped(c, required, session, seen[0].payload)
         case Err(_) => []
         case Ok(p) => if Decoded(p).Ok? then [Decoded(p).value] else []
  }

  // What has been dispatched and the session held after a list of messages.
  function Outcome(c: Suite, mode: Mode, allowed: seq<bytes>, ms: seq<Message>): (seq<Frame>, Option<Keyed>) {
    var r := ReceiveAll(c, mode == Required, FRESH, Seen(mode, allowed, ms));
    (Dispatched(Plaintexts(r.accepted)), r.session)
  }

  lemma ReceivesSeen(c: Suite, required: bool, r: Receiver, seen: seq<Inbound>)
    requires |seen| <= 1
    ensures var r' := ReceiveSeen(c, required, r, seen);
      && r'.session == ReceiveSeen(c, required, Receiver(r.session, []), seen).session
      && Dispatched(Plaintexts(r'.accepted))
         == Dispatched(Plaintexts(r.accepted)) + DispatchedFor(c, required, r.session, seen)
  {
    if seen != [] && seen[0].Route? && Unwrapped(c, required, r.session, seen[0].payload).Ok? {
      var p := Unwrapped(c, required, r.session, seen[0].payload).value;
      assert Plaintexts(ReceiveSeen(c, required, r, seen).accepted) == Plaintexts(r.accepted) + [p];
      DispatchesOneMore(Plaintexts(r.accepted), p);
    }
  }

  lemma SeesOneMore(c: Suite, mode: Mode, allowed: seq<bytes>, ms: seq<Message>, m: Message)
    ensures var (ds, k), (ds', k') := Outcome(c, mode, allowed, ms), Outcome(c, mode, allowed, ms + [m]);
      && ds' == ds + DispatchedFor(c, mode == Required, k, SeenAs(mode, allowed, m))
      && k' == ReceiveSeen(c, mode == Required, Receiver(k, []), SeenAs(mode, allowed, m)).session
  {
    assert (ms + [m])[..|ms|] == ms;
    var xs, seen := Seen(mode, allowed, ms), SeenAs(mode, allowed, m);
    if seen == [] {
      assert xs + seen == xs;
    } else {
      assert seen == [seen[0]];
      ReceiveAllAppend(c, mode == Required, xs, seen[0]);
    }
    ReceivesSeen(c, mode == Required, ReceiveAll(c, mode == Required, FRESH, xs), seen);
  }

  /** The read loop of one daemon connection is the fold of its receiving side: what it dispatches,
      in order, are the decodable plaintexts accepted from the messages it was shown. */
  method RunDaemonSession(suite: Suite, mode: Mode, allowed: seq<bytes>, conn: Conn, ms: seq<Message>)
    returns (dispatched: seq<Frame>, state: DaemonState)
    modifies conn
    ensures fresh(state) && state.Valid()
    ensures (dispatched, state.Incoming()) == Outcome(suite, mode, allowed, ms)
  {
    state := new DaemonState(suite, mode, allowed, conn);
    dispatched := [];
    assert ms[..0] == [];
    for i := 0 to |ms|
      invariant fresh(state) && state.Valid() && (state.session != null ==> fresh(state.session))
      invariant state.suite == suite && state.mode == mode && state.allowed == allowed && state.conn == conn
      invariant (dispatched, state.Incoming()) == Outcome(suite, mode, allowed, ms[..i])
    {
      assert ms[..i + 1] == ms[..i] + [ms[i]];
      SeesOneMore(suite, mode, allowed, ms[..i], ms[i]);
      var out := state.OnMessage(ms[i]);
      dispatched := dispatched + out;
    }
    assert ms[..|ms|] == ms;
  }

  // The NoiseInit leads to a session with this id and receiving key: its initiator is on the list, or
  // there is none and the mode is optional.
  ghost predicate Opens(mode: Mode, allowed: seq<bytes>, m: Message, sid: bytes, key: Key) {
    && m.NoiseInit? && m.noise.Initiator? && m.noise.reply.Some? && m.noise.reply.value.recv == key
    && |sid| == 8 && Lower(m.f.reqID) == HexEncode(sid)
    && ((mode == Optional && allowed == [])
        || (mode != Disabled && exists k :: 0 <= k < |allowed| && allowed[k] == m.noise.peer))
  }

  /** The session a read loop holds is always one that such a NoiseInit opened; a connection with
      encryption off, or required without a list, never gets one. */
  lemma {:induction false} SessionsAreOpened(c: Suite, mode: Mode, allowed: seq<bytes>, ms: seq<Message>)
    ensures var k := Outcome(c, mode, allowed, ms).1;
      && (k.Some? ==> exists m :: m in ms && Opens(mode, allowed, m, k.value.sid, k.value.cs.key))
      && (mode == Disabled || (mode == Required && allowed == []) ==> k.None?)
    decreases |ms|
  {
    if ms != [] {
      var init, m := ms[..|ms| - 1], ms[|ms| - 1];
      assert ms == init + [m];
      SessionsAreOpened(c, mode, allowed, init);
      SeesOneMore(c, mode, allowed, init, m);
      if m.NoiseInit? && Negotiated(mode, allowed, m.f, m.noise).Some? {
        var (sid, reply) := Negotiated(mode, allowed, m.f, m.noise).value;
        NegotiatedExactly(mode, allowed, m.f, m.noise, sid, reply);
        assert Opens(mode, allowed, m, sid, reply.recv);
      }
    }
  }

  /** And every such NoiseInit opens one, at counter 0, whatever the loop held before; any other message
      leaves id and key as they are. */
  lemma OpensSession(c: Suite, mode: Mode, allowed: seq<bytes>, ms: seq<Message>, m: Message)
    ensures forall sid, key :: Opens(mode, allowed, m, sid, key) ==>
              Outcome(c, mode, allowed, ms + [m]).1 == Some(Keyed(sid, E2e.CipherState(key, 0)))
    ensures (forall sid, key :: !Opens(mode, allowed, m, sid, key)) ==>
              var k, k' := Outcome(c, mode, allowed, ms).1, Outcome(c, mode, allowed, ms + [m]).1;
              if k.None? then k'.None? else k'.Some? && KeyOf(k'.value) == KeyOf(k.value)
  {
    SeesOneMore(c, mode, allowed, ms, m);
    forall sid, key | Opens(mode, allowed, m, sid, key)
      ensures Outcome(c, mode, allowed, ms + [m]).1 == Some(Keyed(sid, E2e.CipherState(key, 0)))
    {
      NegotiatedExactly(mode, allowed, m.f, m.noise, sid, m.noise.reply.value);
    }
    if m.NoiseInit? && Negotiated(mode, allowed, m.f, m.noise).Some? {
      var (sid, reply) := Negotiated(mode, allowed, m.f, m.noise).value;
      NegotiatedExactly(mode, allowed, m.f, m.noise, sid, reply);
      assert Opens(mode, allowed, m, sid, reply.recv);
    }
  }

  /** Upwards without a session on either side: what the bridge's sendInner writes for a frame goes through
      the gateway, and the daemon dispatches that frame, if and only if its ReqID is shorter than 2^16
      bytes; a daemon that requires encryption dispatches nothing. */
  lemma PlainFrameIsDispatched(c: Suite, apiKey: bytes, f: Frame)
    requires c.FixedMac() && Encoded(f).Ok? && |Encoded(f).value| + MAC_SIZE <= MAX_PAYLOAD_LEN
    ensures Payload(c, None, Encoded(f).value) == Ok(Encoded(f).value) && FromBridge(c, apiKey, Encoded(f).value).Ok?
    ensures var relayed := GatewayRelay(c, apiKey, FromBridge(c, apiKey, Encoded(f).value).value);
      && relayed.Some? && AtDaemon(relayed.value).Some?
      && var seen := [Route(AtDaemon(relayed.value).value)];
      && (DispatchedFor(c, false, None, seen) == [f] <==> |f.reqID| < MAX_REQ_ID_LEN)
      && DispatchedFor(c, true, None, seen) == []
  {
    var plain := Encoded(f).value;
    HopIsTransparent(c, apiKey, plain);
    RoundTrip(f, []);
    assert plain + [] == plain;
  }
}
