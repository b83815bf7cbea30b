/** From the frames handed to the bridge's sendInner to the frames the daemon dispatches: inner
    encoding, sealing, MAC, outer framing, the gateway's check and re-wrap, unwrapping, decoding. */
module EndToEnd {
  import opened Wrappers
  import opened Bytes
  import opened Crypto
  import opened Proto
  import opened Channel
  import opened Receiving
  import Guarantees
  import Auth

  function RouteFrame(payload: bytes): Frame {
    Frame(TYPE_ROUTE, [], payload)
  }

  // The message the bridge puts on its connection for a Route payload.
  function FromBridge(c: Suite, apiKey: bytes, payload: bytes): Result<bytes, Proto.Error> {
    Encoded(RouteFrame(Auth.Signed(c, apiKey, payload)))
  }

  // What the gateway writes to the daemon's connection for one message from a bridge, if anything.
  function GatewayRelay(c: Suite, apiKey: bytes, message: bytes): Option<bytes> {
    match Decoded(message)
    case Err(_) => None
    case Ok(f) =>
      if f.ftype != TYPE_ROUTE then None
      else match Auth.Verified(c, apiKey, f.payload)
           case Err(_) => None
           case Ok(inner) =>
             match Encoded(RouteFrame(inner))
             case Err(_) => None
             case Ok(b) => Some(b)
  }

  // The Route payload the daemon's read loop finds in a message.
  function AtDaemon(message: bytes): Option<bytes> {
    match Decoded(message)
    case Err(_) => None
    case Ok(f) => if f.ftype == TYPE_ROUTE then Some(f.payload) else None
  }

  lemma RouteFrameRoundTrip(payload: bytes)
    requires |payload| <= MAX_PAYLOAD_LEN
    ensures Encoded(RouteFrame(payload)).Ok?
    ensures Decoded(Encoded(RouteFrame(payload)).value) == Ok(RouteFrame(payload))
  {
    DecodesLayout(RouteFrame(payload), []);
    assert Layout(RouteFrame(payload)) + [] == Layout(RouteFrame(payload));
  }

  /** The gateway is transparent: a payload the bridge can frame arrives at the daemon unchanged. */
  lemma HopIsTransparent(c: Suite, apiKey: bytes, payload: bytes)
    requires c.FixedMac()
    ensures FromBridge(c, apiKey, payload).Ok? <==> |payload| + MAC_SIZE <= MAX_PAYLOAD_LEN
    ensures |payload| + MAC_SIZE <= MAX_PAYLOAD_LEN ==>
              var relayed := GatewayRelay(c, apiKey, FromBridge(c, apiKey, payload).value);
              relayed.Some? && AtDaemon(relayed.value) == Some(payload)
  {
    var signed := Auth.Signed(c, apiKey, payload);
    assert |signed| == |payload| + MAC_SIZE;
    if |signed| <= MAX_PAYLOAD_LEN {
      RouteFrameRoundTrip(signed);
      Auth.VerifiesExactly(c, apiKey, signed, payload);
      RouteFrameRoundTrip(payload);
    }
  }

  /** And it forwards nothing else: what it writes to the daemon is a payload that came in under the
      bridge's own MAC. */
  lemma HopForwardsOnlySigned(c: Suite, apiKey: bytes, message: bytes)
    requires c.FixedMac() && GatewayRelay(c, apiKey, message).Some?
    ensures var out := GatewayRelay(c, apiKey, message).value;
      && AtDaemon(out).Some?
      && FromBridge(c, apiKey, AtDaemon(out).value).Ok?
      && Decoded(message).Ok? && Decoded(message).value.ftype == TYPE_ROUTE
      && Decoded(message).value.payload == Auth.Signed(c, apiKey, AtDaemon(out).value)
  {
    var f := Decoded(message).value;
    var inner := Auth.Verified(c, apiKey, f.payload).value;
    AcceptedIsLayout(message);
    Auth.VerifiesExactly(c, apiKey, f.payload, inner);
    RouteFrameRoundTrip(inner);
  }

  // The frames dispatched for a list of accepted plaintexts: those that decode.
  function Dispatched(ps: seq<bytes>): seq<Frame> {
    if ps == [] then []
    else
      var d := Decoded(ps[|ps| - 1]);
      Dispatched(ps[..|ps| - 1]) + if d.Ok? then [d.value] else []
  }

  lemma DispatchedLength(ps: seq<bytes>)
    ensures |Dispatched(ps)| <= |ps|
  {
  }

  lemma SnocEqual<T>(head: seq<T>, last: seq<T>, all: seq<T>)
    requires |head| < |all| && |last| <= 1
    ensures head + last == all <==> head == all[..|all| - 1] && last == [all[|all| - 1]]
  {
    if head + last == all {
      assert head == (head + last)[..|head|];
    }
  }

  /** Field for field: the dispatched frames are the encrypted ones if and only if each of those has
      a ReqID shorter than 2^16 bytes, the length at which Encode and Decode part ways. */
  lemma {:induction false} DispatchedExactly(fs: seq<Frame>, ps: seq<bytes>)
    requires |ps| == |fs| && forall m :: 0 <= m < |fs| ==> Encoded(fs[m]) == Ok(ps[m])
    ensures Dispatched(ps) == fs <==> forall m :: 0 <= m < |fs| ==> |fs[m].reqID| < MAX_REQ_ID_LEN
  {
    if fs != [] {
      var m := |fs| - 1;
      DispatchedExactly(fs[..m], ps[..m]);
      DispatchedLength(ps[..m]);
      RoundTrip(fs[m], []);
      assert ps[m] + [] == ps[m];
      var head := Dispatched(ps[..m]);
      SnocEqual(head, if Decoded(ps[m]).Ok? then [Decoded(ps[m]).value] else [], fs);
    }
  }

  // From Route payloads on: whatever the relay does, the frames dispatched in a session are a prefix of
  // the frames given to sendInner, in the order they were encrypted, with every field intact.
  lemma DispatchIsPrefix(cfg: Config, s: State, required: bool, xs: seq<Inbound>, i: nat)
    requires cfg.mutex && cfg.suite.IdealAead() && Reachable(cfg, s) && i < |s.sessions|
    requires AllRelayed(cfg.suite, s, xs) && FreshKeys(xs)
    requires forall f :: f in s.sessions[i].log ==> |f.reqID| < MAX_REQ_ID_LEN
    ensures Dispatched(Guarantees.Got(cfg, s, required, xs, i)) <= s.sessions[i].log
    ensures |Dispatched(Guarantees.Got(cfg, s, required, xs, i))| <= LeadingSent(s.sessions[i].fate)
  {
    Guarantees.Safety(cfg, s, required, xs, i);
    var got := Guarantees.Got(cfg, s, required, xs, i);
    DispatchedExactly(s.sessions[i].log[..|got|], got);
  }

  // What reaches the daemon's side: a message some bridge connection brings the gateway, or a completed
  // handshake.
  datatype Arrival = FromNetwork(message: bytes) | Completed(a: Agreed)

  // What one arrival shows the daemon's read loop, if anything.
  function ShownAs(c: Suite, apiKey: bytes, x: Arrival): seq<Inbound> {
    match x
    case Completed(a) => [Handshaken(a)]
    case FromNetwork(message) =>
      match GatewayRelay(c, apiKey, message)
      case None => []
      case Some(out) =>
        match AtDaemon(out)
        case None => []
        case Some(payload) => [Route(payload)]
  }

  function ShownAtDaemon(c: Suite, apiKey: bytes, xs: seq<Arrival>): seq<Inbound> {
    if xs == [] then [] else ShownAtDaemon(c, apiKey, xs[..|xs| - 1]) + ShownAs(c, apiKey, xs[|xs| - 1])
  }

  // A message the bridge sent for one of its sealed payloads, in full; or any other bytes, as long as no
  // message of one of its sessions is under a valid MAC in them.
  ghost predicate Offered(c: Suite, s: State, apiKey: bytes, message: bytes) {
    || (exists w :: w in s.wire && w.tag.Some? && FromBridge(c, apiKey, w.payload) == Ok(message))
    || (forall p :: Decoded(message).Ok? && Decoded(message).value.payload == Auth.Signed(c, apiKey, p) ==> Foreign(c, s, p))
  }

  lemma OfferedIsRelayed(c: Suite, s: State, apiKey: bytes, message: bytes, payload: bytes)
    requires c.FixedMac() && Offered(c, s, apiKey, message)
    requires ShownAs(c, apiKey, FromNetwork(message)) == [Route(payload)]
    ensures Relayed(c, s, payload)
  {
    HopForwardsOnlySigned(c, apiKey, message);
    assert Decoded(message).value.payload == Auth.Signed(c, apiKey, payload);
    if w :| w in s.wire && w.tag.Some? && FromBridge(c, apiKey, w.payload) == Ok(message) {
      RouteFrameRoundTrip(Auth.Signed(c, apiKey, w.payload));
      Auth.VerifiesExactly(c, apiKey, Auth.Signed(c, apiKey, w.payload), w.payload);
      Auth.VerifiesExactly(c, apiKey, Auth.Signed(c, apiKey, w.payload), payload);
    }
  }

  lemma {:induction false} ShownIsRelayed(c: Suite, s: State, apiKey: bytes, xs: seq<Arrival>)
    requires c.FixedMac() && forall x :: x in xs && x.FromNetwork? ==> Offered(c, s, apiKey, x.message)
    ensures AllRelayed(c, s, ShownAtDaemon(c, apiKey, xs))
  {
    if xs != [] {
      var init, x := xs[..|xs| - 1], xs[|xs| - 1];
      ShownIsRelayed(c, s, apiKey, init);
      var shown := ShownAs(c, apiKey, x);
      if x.FromNetwork? && shown != [] {
        assert shown == [Route(shown[0].payload)];
        OfferedIsRelayed(c, s, apiKey, x.message, shown[0].payload);
      }
      assert forall y :: y in ShownAtDaemon(c, apiKey, xs) ==> y in ShownAtDaemon(c, apiKey, init) || y in shown;
    }
  }

  /** Through every layer: whatever reaches the gateway, in any order and number and with whatever else in
      between, the frames the daemon dispatches in a session are a prefix of the frames given to the
      bridge's sendInner, in the order they were encrypted, with every field intact. */
  lemma DispatchThroughGateway(cfg: Config, s: State, apiKey: bytes, required: bool, xs: seq<Arrival>, i: nat)
    requires cfg.mutex && cfg.suite.Ideal() && Reachable(cfg, s) && i < |s.sessions|
    requires forall x :: x in xs && x.FromNetwork? ==> Offered(cfg.suite, s, apiKey, x.message)
    requires FreshKeys(ShownAtDaemon(cfg.suite, apiKey, xs))
    requires forall f :: f in s.sessions[i].log ==> |f.reqID| < MAX_REQ_ID_LEN
    ensures Dispatched(Guarantees.Got(cfg, s, required, ShownAtDaemon(cfg.suite, apiKey, xs), i)) <= s.sessions[i].log
  {
    ShownIsRelayed(cfg.suite, s, apiKey, xs);
    DispatchIsPrefix(cfg, s, required, ShownAtDaemon(cfg.suite, apiKey, xs), i);
  }

  // What arrives at the daemon when the bridge writes a payload and the gateway relays it.
  function Hop(c: Suite, apiKey: bytes, payload: bytes): Option<bytes> {
    match FromBridge(c, apiKey, payload)
    case Err(_) => None
    case Ok(message) =>
      match GatewayRelay(c, apiKey, message)
      case None => None
      case Some(out) => AtDaemon(out)
  }

  // What a reader is shown when each payload goes through a hop on its own.
  function Through(hop: bytes -> Option<bytes>, wire: seq<Written>): seq<Inbound> {
    if wire == [] then []
    else
      var rest := Through(hop, wire[..|wire| - 1]);
      match hop(wire[|wire| - 1].payload)
      case None => rest
      case Some(payload) => rest + [Route(payload)]
  }

  lemma {:induction false} ThroughUnchanged(hop: bytes -> Option<bytes>, wire: seq<Written>)
    requires forall k :: 0 <= k < |wire| ==> hop(wire[k].payload) == Some(wire[k].payload)
    ensures Through(hop, wire) == Routes(wire)
  {
    if wire != [] {
      ThroughUnchanged(hop, wire[..|wire| - 1]);
    }
  }

  // What the daemon's read loop is shown when the gateway relays every message the bridge wrote.
  function Arrivals(c: Suite, apiKey: bytes, wire: seq<Written>): seq<Inbound> {
    Through(payload => Hop(c, apiKey, payload), wire)
  }

  lemma ArrivalsAreTheWire(c: Suite, apiKey: bytes, wire: seq<Written>)
    requires c.FixedMac() && forall k :: 0 <= k < |wire| ==> |wire[k].payload| + MAC_SIZE <= MAX_PAYLOAD_LEN
    ensures Arrivals(c, apiKey, wire) == Routes(wire)
  {
    var hop := payload => Hop(c, apiKey, payload);
    forall k | 0 <= k < |wire|
      ensures hop(wire[k].payload) == Some(wire[k].payload)
    {
      HopIsTransparent(c, apiKey, wire[k].payload);
    }
    ThroughUnchanged(hop, wire);
  }

  /** End to end, nothing lost: through a gateway that relays every message, the daemon dispatches
      exactly the frames of the session up to the first one whose Send failed after its Encrypt. */
  lemma DispatchIsComplete(cfg: Config, s: State, apiKey: bytes, required: bool, i: nat)
    requires cfg.mutex && cfg.suite.Ideal() && cfg.overhead == MAC_SIZE && Reachable(cfg, s) && i < |s.sessions|
    requires PlaintextIsForeign(cfg.suite, s)
    requires forall f :: f in s.sessions[i].log ==> |f.reqID| < MAX_REQ_ID_LEN
    ensures var x := s.sessions[i];
      var xs := [Handshaken(x.agreed)] + Arrivals(cfg.suite, apiKey, s.wire);
      LeadingSent(x.fate) <= |x.log|
      && Dispatched(Guarantees.Got(cfg, s, required, xs, i)) == x.log[..LeadingSent(x.fate)]
  {
    var x := s.sessions[i];
    ReachableInv(cfg, s);
    forall k | 0 <= k < |s.wire|
      ensures |s.wire[k].payload| + MAC_SIZE <= MAX_PAYLOAD_LEN
    {
      assert WrittenOk(cfg, s, s.wire[k]);
    }
    ArrivalsAreTheWire(cfg.suite, apiKey, s.wire);
    FifoExact(cfg, s, required, i);
    DispatchedExactly(x.log[..LeadingSent(x.fate)], Plains(x, LeadingSent(x.fate)));
  }
}
