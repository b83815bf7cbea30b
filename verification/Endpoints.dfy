/** The objects whose methods take the steps of the channel: the bridge's Router, the daemon's
    state, and the connection both write to. Each critical section is one method here; their
    interleavings are the subject of module Channel. */
module Endpoints {
  import opened Wrappers
  import opened Bytes
  import opened Crypto
  import opened Proto
  import opened Channel
  import opened Receiving
  import opened EndToEnd
  import E2e
  import Auth

  // A websocket connection, as the messages written to it so far.
  class Conn {
    var out: seq<bytes>

    constructor ()
      ensures out == []
    {
      out := [];
    }

    // live is false once the caller's context is cancelled, wrote is what WriteMessage reports.
    method Send(f: Frame, live: bool, wrote: bool) returns (ok: bool)
      modifies this
      ensures ok <==> live && wrote && Encoded(f).Ok?
      ensures out == if ok then old(out) + [Encoded(f).value] else old(out)
    {
      if !live {
        return false;
      }
      var b := Encode(f);
      if b.Err? {
        return false;
      }
      if !wrote {
        return false;
      }
      out := out + [b.value];
      return true;
    }
  }

  // The payload sendInner builds for an encoded frame, given the session it snapshots.
  function Payload(c: Suite, session: Option<Keyed>, plain: bytes): Result<bytes, E2e.Error> {
    match session
    case None => Ok(plain)
    case Some(k) =>
      match E2e.Sealed(c, k.cs, k.sid, plain)
      case Err(e) => Err(e)
      case Ok(ct) => Ok(k.sid + ct)
  }

  // The session after building a payload, written or not.
  function Spent(c: Suite, session: Option<Keyed>, plain: bytes): Option<Keyed> {
    match session
    case None => None
    case Some(k) => Some(k.(cs := E2e.After(k.cs, E2e.Sealed(c, k.cs, k.sid, plain))))
  }

  // What a sender finds when it takes its snapshot: the session and its counter, and the tag of the
  // message it is about to build.
  ghost function Snapped(s: State): (Option<Keyed>, Tag)
    requires s.current.Some? ==> s.current.value < |s.sessions|
  {
    match s.current
    case None => (None, None)
    case Some(i) => (Some(Keyed(s.sid, E2e.CipherState(s.sessions[i].agreed.key, s.sessions[i].n))), Some((i, s.sessions[i].n)))
  }

  /** A sendInner that runs without interruption is one pass of a sender through the machine, with a
      session or without: the payload it hands to Send is the one the machine builds, and the nonce it
      leaves is the machine's. */
  lemma SendInnerIsOnePass(cfg: Config, s: State, t: nat, ok: bool)
    requires cfg.mutex && Inv(cfg, s) && s.holder.None? && Enabled(cfg, s, Acquire(t))
    ensures s.current.Some? ==> s.current.value < |s.sessions|
    ensures var f, (k, tag) := s.calls[t].frame, Snapped(s);
      var s1 := Next(cfg, s, Acquire(t));
      Enabled(cfg, s1, Snapshot(t))
      && var s2 := Next(cfg, s1, Snapshot(t));
      Enabled(cfg, s2, Build(t))
      && var s3 := Next(cfg, s2, Build(t));
      && (k.Some? ==> s3.sessions[s.current.value].n == Spent(cfg.suite, k, Layout(f)).value.cs.n)
      && (k.None? ==> s3.sessions == s.sessions && Spent(cfg.suite, k, Layout(f)) == None)
      && match Payload(cfg.suite, k, Layout(f))
         case Err(_) => s3.calls[t].pc == Returned && s3.wire == s.wire && s3.holder == None
         case Ok(p) =>
           && s3.calls[t].pc == Built(p, tag)
           && (ok && |p| + cfg.overhead <= MAX_PAYLOAD_LEN ==>
                 Enabled(cfg, s3, Write(t, true)) && Next(cfg, s3, Write(t, true)).wire == s.wire + [Written(p, tag)])
  {
    assert CallOk(cfg, s, t);
    if s.current.Some? {
      assert SessionOk(s.sessions[s.current.value]);
    }
  }

  // ---------- the bridge side ----------

  class Router {
    const suite: Suite
    const apiKey: bytes
    var conn: Conn?
    var session: E2e.Session?
    var sessionID: bytes
    var pending: map<bytes, seq<Frame>>
    var evicted: bool

    constructor (suite: Suite, conn: Conn?, apiKey: bytes)
      ensures this.suite == suite && this.conn == conn && this.apiKey == apiKey
      ensures session == null && pending == map[] && !evicted
    {
      this.suite, this.conn, this.apiKey := suite, conn, apiKey;
      session, sessionID, pending, evicted := null, ZERO_SID, map[], false;
    }

    // Both fields are read under the router's mutex, so they belong together.
    ghost function Outgoing(): Option<Keyed>
      reads this, session
    {
      if session == null then None else Some(Keyed(sessionID, session.send))
    }

    ghost function Incoming(): Option<Keyed>
      reads this, session
    {
      if session == null then None else Some(Keyed(sessionID, session.recv))
    }

    ghost predicate Valid()
      reads this, session
    {
      session != null ==> session.suite == suite
    }

    method InstallSession(s: E2e.Session, sid: bytes)
      requires s.suite == suite
      modifies this`session, this`sessionID
      ensures Valid() && session == s && sessionID == sid
    {
      session := s;
      sessionID := sid;
    }

    // Drops the connection's session and hands back the queues of the calls in flight.
    method ReplaceConn(newConn: Conn?) returns (abandoned: map<bytes, seq<Frame>>)
      modifies this
      ensures abandoned == old(pending) && pending == map[] && conn == newConn
      ensures session == null && sessionID == ZERO_SID && evicted == old(evicted)
    {
      abandoned := pending;
      pending := map[];
      conn := newConn;
      session := null;
      sessionID := ZERO_SID;
    }

    method SendInner(inner: Frame, live: bool, wrote: bool) returns (ok: bool)
      requires Valid()
      modifies session, conn
      ensures Valid() && Incoming() == old(Incoming())
      ensures Encoded(inner).Err? ==>
                !ok && Outgoing() == old(Outgoing()) && (conn != null ==> conn.out == old(conn.out))
      ensures Encoded(inner).Ok? ==>
                var plain := Encoded(inner).value;
                var p := Payload(suite, old(Outgoing()), plain);
                && Outgoing() == Spent(suite, old(Outgoing()), plain)
                && (ok <==> p.Ok? && FromBridge(suite, apiKey, p.value).Ok? && conn != null && live && wrote)
                && (conn != null ==> conn.out == if ok then old(conn.out) + [FromBridge(suite, apiKey, p.value).value]
                                                 else old(conn.out))
      ensures session == null && ok ==>
                && Encoded(inner).Ok?
                && var outer := Frame(TYPE_ROUTE, [], Auth.Signed(suite, apiKey, Encoded(inner).value));
                   Encoded(outer).Ok? && conn.out == old(conn.out) + [Encoded(outer).value]
      ensures session != null && ok ==>
                && Encoded(inner).Ok? && old(session.send.n) < 0xFFFF_FFFF_FFFF_FFFF
                && session.send == old(session.send).(n := old(session.send.n) + 1)
                && var k := old(session.send);
                   var sealed := suite.seal(k.key, k.n, sessionID, Encoded(inner).value);
                   var outer := Frame(TYPE_ROUTE, [], Auth.Signed(suite, apiKey, sessionID + sealed));
                   Encoded(outer).Ok? && conn.out == old(conn.out) + [Encoded(outer).value]
    {
      var innerBytes := Encode(inner);
      if innerBytes.Err? {
        return false;
      }
      var sess, sid := session, sessionID;
      var routePayload;
      if sess != null {
        var ct := sess.Encrypt(sid, innerBytes.value);
        if ct.Err? {
          return false;
        }
        routePayload := sid + ct.value;
      } else {
        routePayload := innerBytes.value;
      }
      var signed := Auth.SignFrame(suite, apiKey, routePayload);
      if conn == null {
        return false;
      }
      ok := conn.Send(RouteFrame(signed), live, wrote);
    }

    method DecodeInbound(payload: bytes) returns (r: Result<Frame, RouteError>)
      requires Valid()
      modifies session
      ensures Valid() && Outgoing() == old(Outgoing())
      ensures Incoming() == Receive(suite, false, Receiver(old(Incoming()), []), Route(payload)).session
      ensures var u := Unwrapped(suite, false, old(Incoming()), payload);
              match u
              case Err(e) => r == Err(e)
              case Ok(p) => (r.Ok? <==> Decoded(p).Ok?) && (r.Ok? ==> r.value == Decoded(p).value)
      ensures session == null ==> (r.Ok? <==> Decoded(payload).Ok?) && (r.Ok? ==> Decoded(payload) == Ok(r.value))
      ensures session != null && r.Ok? ==>
                && |payload| >= 8 && payload[..8] == sessionID && session.recv == old(session.recv).(n := old(session.recv.n) + 1)
                && var p := suite.unseal(old(session.recv.key), old(session.recv.n), sessionID, payload[8..]);
                   p.Some? && Decoded(p.value) == Ok(r.value)
    {
      var plain := payload;
      if session != null {
        if |payload| < SID_LEN {
          return Err(TooShort);
        }
        var got := payload[..SID_LEN];
        if got != sessionID {
          return Err(SidMismatch);
        }
        var p := session.Decrypt(sessionID, payload[SID_LEN..]);
        if p.Err? {
          return Err(BadCiphertext(p.error));
        }
        plain := p.value;
      }
      var f := Decode(plain);
      match f
      case Err(e) => return Err(BadFrame(e));
      case Ok(g) => return Ok(g);
    }

    method RegisterCall(reqID: bytes)
      modifies this`pending
      ensures pending == old(pending)[reqID := []]
    {
      pending := pending[reqID := []];
    }

    method UnregisterCall(reqID: bytes)
      modifies this`pending
      ensures pending == old(pending) - {reqID}
    {
      pending := pending - {reqID};
    }

    // One pass of the read loop.
    method OnFrame(f: Frame)
      requires Valid()
      modifies this`pending, this`evicted, session
      ensures Valid() && Outgoing() == old(Outgoing())
      ensures Incoming() == Advanced(suite, old(Incoming()), f)
      ensures evicted <==> old(evicted) || IsEviction(f)
      ensures IsEviction(f) <==> f.ftype == TYPE_ERROR && f.payload == SESSION_REPLACED
      ensures pending == Enqueued(old(pending), Inner(suite, old(Incoming()), f))
    {
      EnqueuesNothing(pending);
      if IsEviction(f) {
        evicted := true;
        return;
      }
      if f.ftype != TYPE_ROUTE {
        return;
      }
      var inner := DecodeInbound(f.payload);
      if inner.Err? {
        return;
      }
      var id := inner.value.reqID;
      assert [inner.value] == [] + [inner.value];
      forall k {
        FiltersOneMore([], inner.value, k);
      }
      if id in pending {
        pending := pending[id := pending[id] + [inner.value]];
      }
    }

    /** The read loop: every accepted inner frame goes to the queue registered under its ReqID, in
        the order of arrival, and nowhere else; an eviction notice is remembered. */
    method RunReader(frames: seq<Frame>)
      requires Valid()
      modifies this`pending, this`evicted, session
      ensures Valid() && Outgoing() == old(Outgoing())
      ensures Incoming() == Read(suite, old(Incoming()), frames).0
      ensures pending == Enqueued(old(pending), Read(suite, old(Incoming()), frames).1)
      ensures evicted <==> old(evicted) || exists f :: f in frames && IsEviction(f)
    {
      ghost var start, before := Incoming(), pending;
      assert frames[..0] == [];
      EnqueuesNothing(pending);
      for i := 0 to |frames|
        invariant Valid() && Outgoing() == old(Outgoing())
        invariant Incoming() == Read(suite, start, frames[..i]).0
        invariant pending == Enqueued(before, Read(suite, start, frames[..i]).1)
        invariant evicted <==> old(evicted) || exists f :: f in frames[..i] && IsEviction(f)
      {
        assert frames[..i + 1] == frames[..i] + [frames[i]];
        ReadsOneMore(suite, start, frames[..i], frames[i]);
        EnqueuesOneMore(before, Read(suite, start, frames[..i]).1, Inner(suite, Incoming(), frames[i]));
        OnFrame(frames[i]);
      }
      assert frames[..|frames|] == frames;
    }

    /** The same while calls register and unregister in between: the queue of each call is what the
        interleaving makes of it. */
    method RunAmongCalls(acts: seq<Activity>)
      requires Valid()
      modifies this`pending, this`evicted, session
      ensures Valid() && Outgoing() == old(Outgoing())
      ensures Incoming() == Read(suite, old(Incoming()), FramesOf(acts)).0
      ensures forall id :: QueueIn(pending, id) == Queue(suite, old(Incoming()), old(pending), acts, id)
    {
      ghost var start, before := Incoming(), pending;
      assert acts[..0] == [];
      for i := 0 to |acts|
        invariant Valid() && Outgoing() == old(Outgoing())
        invariant Incoming() == Read(suite, start, FramesOf(acts[..i])).0
        invariant forall id :: QueueIn(pending, id) == Queue(suite, start, before, acts[..i], id)
      {
        assert acts[..i + 1][..i] == acts[..i];
        match acts[i] {
          case Arrives(f) =>
            assert FramesOf(acts[..i + 1]) == FramesOf(acts[..i]) + [f];
            ReadsOneMore(suite, start, FramesOf(acts[..i]), f);
            OnFrame(f);
          case Registers(id) =>
            RegisterCall(id);
          case Unregisters(id) =>
            UnregisterCall(id);
        }
      }
      assert acts[..|acts|] == acts;
    }
  }

  // What happens at the router: a frame arrives, a call registers its ReqID, a call takes it back.
  datatype Activity = Arrives(f: Frame) | Registers(id: bytes) | Unregisters(id: bytes)

  function FramesOf(acts: seq<Activity>): seq<Frame> {
    if acts == [] then []
    else
      var rest, a := FramesOf(acts[..|acts| - 1]), acts[|acts| - 1];
      if a.Arrives? then rest + [a.f] else rest
  }

  function QueueIn(pending: map<bytes, seq<Frame>>, id: bytes): Option<seq<Frame>> {
    if id in pending then Some(pending[id]) else None
  }

  // The queue registered under a ReqID after these activities.
  function Queue(c: Suite, session: Option<Keyed>, pending: map<bytes, seq<Frame>>, acts: seq<Activity>, id: bytes)
    : Option<seq<Frame>>
  {
    if acts == [] then QueueIn(pending, id)
    else
      var acts', a := acts[..|acts| - 1], acts[|acts| - 1];
      var q := Queue(c, session, pending, acts', id);
      match a
      case Registers(k) => if k == id then Some([]) else q
      case Unregisters(k) => if k == id then None else q
      case Arrives(f) =>
        if q.None? then None
        else Some(q.value + WithReqID(Inner(c, Read(c, session, FramesOf(acts')).0, f), id))
  }

  lemma {:induction false} FramesConcat(a: seq<Activity>, b: seq<Activity>)
    ensures FramesOf(a + b) == FramesOf(a) + FramesOf(b)
    decreases |b|
  {
    if b == [] {
      assert a + b == a;
    } else {
      var init := b[..|b| - 1];
      FramesConcat(a, init);
      assert (a + b)[..|a + b| - 1] == a + init;
    }
  }

  ghost predicate LeavesAlone(acts: seq<Activity>, id: bytes) {
    forall a :: a in acts ==> a != Registers(id) && a != Unregisters(id)
  }

  lemma JustRegistered(c: Suite, session: Option<Keyed>, pending: map<bytes, seq<Frame>>, before: seq<Activity>, id: bytes)
    ensures FramesOf(before + [Registers(id)]) == FramesOf(before)
    ensures Queue(c, session, pending, before + [Registers(id)], id) == Some([])
  {
    assert (before + [Registers(id)])[..|before|] == before;
  }

  // One more activity that leaves the call registered.
  lemma QueueGrows(c: Suite, session: Option<Keyed>, pending: map<bytes, seq<Frame>>, acts: seq<Activity>, a: Activity,
                   id: bytes, n: nat)
    requires a != Registers(id) && a != Unregisters(id)
    requires var all := Read(c, session, FramesOf(acts)).1;
      n <= |all| && Queue(c, session, pending, acts, id) == Some(WithReqID(all[n..], id))
    ensures var all, all' := Read(c, session, FramesOf(acts)).1, Read(c, session, FramesOf(acts + [a])).1;
      all <= all' && Queue(c, session, pending, acts + [a], id) == Some(WithReqID(all'[n..], id))
  {
    assert (acts + [a])[..|acts|] == acts;
    if a.Arrives? {
      var (k, all) := Read(c, session, FramesOf(acts));
      ReadsOneMore(c, session, FramesOf(acts), a.f);
      var more := Inner(c, k, a.f);
      assert (all + more)[n..] == all[n..] + more;
      FiltersAtMostOne(all[n..], more, id);
    }
  }

  /** A call's queue holds exactly the accepted inner frames with its ReqID that came since it registered,
      in order of arrival, whatever other calls do meanwhile. */
  lemma {:induction false} QueueSinceRegistered(c: Suite, session: Option<Keyed>, pending: map<bytes, seq<Frame>>,
                                                before: seq<Activity>, id: bytes, after: seq<Activity>)
    requires LeavesAlone(after, id)
    ensures var seen, all := Read(c, session, FramesOf(before)).1, Read(c, session, FramesOf(before + [Registers(id)] + after)).1;
      && seen <= all
      && Queue(c, session, pending, before + [Registers(id)] + after, id) == Some(WithReqID(all[|seen|..], id))
    decreases |after|
  {
    var acts := before + [Registers(id)] + after;
    var seen := Read(c, session, FramesOf(before)).1;
    if after == [] {
      assert acts == before + [Registers(id)];
      JustRegistered(c, session, pending, before, id);
      assert seen[|seen|..] == [];
    } else {
      var init, a := after[..|after| - 1], after[|after| - 1];
      assert forall x :: x in init ==> x in after;
      QueueSinceRegistered(c, session, pending, before, id, init);
      assert a in after && acts == (before + [Registers(id)] + init) + [a];
      QueueGrows(c, session, pending, before + [Registers(id)] + init, a, id, |seen|);
    }
  }

  const TYPE_ERROR: byte := 3
  // "session_replaced"
  const SESSION_REPLACED: bytes := [115, 101, 115, 115, 105, 111, 110, 95, 114, 101, 112, 108, 97, 99, 101, 100]

  predicate IsEviction(f: Frame) {
    f.ftype == TYPE_ERROR && f.payload == SESSION_REPLACED
  }

  function Plaintexts(accepted: seq<Accepted>): (ps: seq<bytes>)
    ensures |ps| == |accepted| && forall i :: 0 <= i < |ps| ==> ps[i] == accepted[i].plain
  {
    seq(|accepted|, i requires 0 <= i < |accepted| => accepted[i].plain)
  }

  function WithReqID(fs: seq<Frame>, id: bytes): seq<Frame> {
    if fs == [] then []
    else
      var f := fs[|fs| - 1];
      WithReqID(fs[..|fs| - 1], id) + if f.reqID == id then [f] else []
  }

  // What a reader holding a session makes of the frames on its connection.
  function ReadAll(c: Suite, session: Option<Keyed>, frames: seq<Frame>): Receiver {
    if frames == [] then Receiver(session, [])
    else
      var f, r := frames[|frames| - 1], ReadAll(c, session, frames[..|frames| - 1]);
      if f.ftype == TYPE_ROUTE then Receive(c, false, r, Route(f.payload)) else r
  }

  // The queues of the calls in flight after a list of inner frames: each gets those with its ReqID.
  function Enqueued(pending: map<bytes, seq<Frame>>, inners: seq<Frame>): map<bytes, seq<Frame>> {
    map id | id in pending :: pending[id] + WithReqID(inners, id)
  }

  // The inner frame that one frame on the connection yields, if any.
  function Inner(c: Suite, session: Option<Keyed>, f: Frame): seq<Frame> {
    if f.ftype != TYPE_ROUTE then []
    else match Unwrapped(c, false, session, f.payload)
         case Err(_) => []
         case Ok(p) => if Decoded(p).Ok? then [Decoded(p).value] else []
  }

  /** Downwards without a session: the frame that the daemon's sendInner put into a Route frame is the one
      the bridge's read loop finds in it, if and only if its ReqID is shorter than 2^16 bytes. */
  lemma PlainFrameIsRead(c: Suite, f: Frame)
    requires Encoded(f).Ok?
    ensures Inner(c, None, RouteFrame(Encoded(f).value)) == [f] <==> |f.reqID| < MAX_REQ_ID_LEN
  {
    var plain := Encoded(f).value;
    RoundTrip(f, []);
    assert plain + [] == plain;
  }

  lemma DispatchesOneMore(ps: seq<bytes>, p: bytes)
    ensures Dispatched(ps + [p]) == Dispatched(ps) + if Decoded(p).Ok? then [Decoded(p).value] else []
  {
    assert (ps + [p])[..|ps|] == ps;
  }

  lemma FiltersOneMore(fs: seq<Frame>, f: Frame, id: bytes)
    ensures WithReqID(fs + [f], id) == WithReqID(fs, id) + if f.reqID == id then [f] else []
  {
    assert (fs + [f])[..|fs|] == fs;
  }

  lemma FiltersAtMostOne(ds: seq<Frame>, inner: seq<Frame>, id: bytes)
    requires |inner| <= 1
    ensures WithReqID(ds + inner, id) == WithReqID(ds, id) + WithReqID(inner, id)
  {
    if inner == [] {
      assert ds + inner == ds;
    } else {
      assert inner == [inner[0]] == [] + [inner[0]];
      FiltersOneMore(ds, inner[0], id);
      FiltersOneMore([], inner[0], id);
    }
  }

  // The session left and the inner frames found by a reader of these frames.
  function Read(c: Suite, session: Option<Keyed>, frames: seq<Frame>): (Option<Keyed>, seq<Frame>) {
    var r := ReadAll(c, session, frames);
    (r.session, Dispatched(Plaintexts(r.accepted)))
  }

  // The session after one frame.
  function Advanced(c: Suite, session: Option<Keyed>, f: Frame): Option<Keyed> {
    if f.ftype == TYPE_ROUTE then Receive(c, false, Receiver(session, []), Route(f.payload)).session else session
  }

  lemma ReadsOneMore(c: Suite, session: Option<Keyed>, frames: seq<Frame>, f: Frame)
    ensures var (k, ds) := Read(c, session, frames);
      Read(c, session, frames + [f]) == (Advanced(c, k, f), ds + Inner(c, k, f))
  {
    assert (frames + [f])[..|frames|] == frames;
    var r, r' := ReadAll(c, session, frames), ReadAll(c, session, frames + [f]);
    if f.ftype == TYPE_ROUTE && Unwrapped(c, false, r.session, f.payload).Ok? {
      var p := Unwrapped(c, false, r.session, f.payload).value;
      assert Plaintexts(r'.accepted) == Plaintexts(r.accepted) + [p];
      DispatchesOneMore(Plaintexts(r.accepted), p);
    } else {
      assert r'.accepted == r.accepted;
      assert Dispatched(Plaintexts(r.accepted)) + [] == Dispatched(Plaintexts(r.accepted));
    }
  }

  lemma EnqueuesNothing(pending: map<bytes, seq<Frame>>)
    ensures Enqueued(pending, []) == pending
  {
    assert forall id :: id in pending ==> pending[id] + WithReqID([], id) == pending[id];
  }

  lemma EnqueuesOneMore(pending: map<bytes, seq<Frame>>, inners: seq<Frame>, inner: seq<Frame>)
    requires |inner| <= 1
    ensures Enqueued(Enqueued(pending, inners), inner) == Enqueued(pending, inners + inner)
  {
    forall id | id in pending
      ensures pending[id] + WithReqID(inners, id) + WithReqID(inner, id) == pending[id] + WithReqID(inners + inner, id)
    {
      FiltersAtMostOne(inners, inner, id);
    }
  }
}
