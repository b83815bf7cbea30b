/** One direction of the encrypted channel. Many goroutines call sendInner concurrently while the
    endpoint may install a new session at any moment; the other side reads Route payloads one by
    one. The sender is a machine that takes the source's steps one at a time, in any interleaving;
    the receiver is the fold of its read loop over whatever the relay hands it. */
module Channel {
  import opened Wrappers
  import opened Bytes
  import opened Crypto
  import opened Proto
  import E2e

  const SID_LEN := 8

  // What a completed handshake leaves behind for one direction.
  datatype Agreed = Agreed(sid: bytes, key: Key)

  // The Route payload of the n-th message of a session: its id, then the ciphertext bound to it.
  function RoutePayload(c: Suite, a: Agreed, n: nat, plain: bytes): bytes {
    a.sid + c.seal(a.key, n, a.sid, plain)
  }

  // ---------- the sender ----------

  // What became of an encrypted message: not yet written, written, or dropped by a failing Send.
  datatype Fate = InFlight | Sent | Lost

  // A session of the sender. log and fate record, per nonce, which frame was encrypted and what
  // became of it; they are not read by any step.
  datatype Sess = Sess(agreed: Agreed, n: nat, log: seq<Frame>, fate: seq<Fate>)

  // Which session and nonce a payload was made with; None for a plaintext payload.
  type Tag = Option<(nat, nat)>

  datatype Pc =
    | Waiting
    | Locked
    | Snapped(session: Option<nat>, sid: bytes)
    | Built(payload: bytes, tag: Tag)
    | Returned

  datatype Call = Call(frame: Frame, pc: Pc)

  datatype Written = Written(payload: bytes, tag: Tag)

  datatype State = State(
    sessions: seq<Sess>,
    current: Option<nat>,
    sid: bytes,
    calls: map<nat, Call>,
    holder: Option<nat>,
    wire: seq<Written>)

  // overhead is what the endpoint adds around a Route payload before framing it: the MAC of the
  // bridge side, nothing on the daemon side. mutex says whether sendMu is there at all.
  datatype Config = Config(suite: Suite, overhead: nat, mutex: bool)

  const ZERO_SID: bytes := [0, 0, 0, 0, 0, 0, 0, 0]

  const INITIAL := State([], None, ZERO_SID, map[], None, [])

  datatype Event =
    | Install(a: Agreed)
    | Drop
    | Enter(t: nat, frame: Frame)
    | Acquire(t: nat)
    | Snapshot(t: nat)
    | Build(t: nat)
    | Write(t: nat, ok: bool)

  ghost predicate Enabled(cfg: Config, s: State, e: Event) {
    match e
    case Install(a) =>
      |a.sid| == SID_LEN && forall i :: 0 <= i < |s.sessions| ==> s.sessions[i].agreed.key != a.key
    case Drop => true
    case Enter(t, f) => t !in s.calls && Encoded(f).Ok?
    case Acquire(t) => t in s.calls && s.calls[t].pc.Waiting? && (cfg.mutex ==> s.holder.None?)
    case Snapshot(t) => t in s.calls && s.calls[t].pc.Locked?
    case Build(t) =>
      && t in s.calls && s.calls[t].pc.Snapped? && Encoded(s.calls[t].frame).Ok?
      && (s.calls[t].pc.session.Some? ==> s.calls[t].pc.session.value < |s.sessions|)
    case Write(t, ok) =>
      && t in s.calls && s.calls[t].pc.Built?
      && (ok ==> |s.calls[t].pc.payload| + cfg.overhead <= MAX_PAYLOAD_LEN)
      && match s.calls[t].pc.tag
         case None => true
         case Some((i, n)) => i < |s.sessions| && n < |s.sessions[i].fate|
  }

  ghost function Moved(s: State, t: nat, pc: Pc, holder: Option<nat>): State
    requires t in s.calls
  {
    s.(calls := s.calls[t := s.calls[t].(pc := pc)], holder := holder)
  }

  ghost function Next(cfg: Config, s: State, e: Event): State
    requires Enabled(cfg, s, e)
  {
    match e
    case Install(a) =>
      s.(sessions := s.sessions + [Sess(a, 0, [], [])], current := Some(|s.sessions|), sid := a.sid)
    case Drop => s.(current := None, sid := ZERO_SID)
    case Enter(t, f) => s.(calls := s.calls[t := Call(f, Waiting)])
    case Acquire(t) => Moved(s, t, Locked, Some(t))
    case Snapshot(t) => Moved(s, t, Snapped(s.current, s.sid), s.holder)
    case Build(t) => Sealing(cfg, s, t)
    case Write(t, ok) => Writing(s, t, ok)
  }

  // sess.Encrypt(sid[:], innerBytes), or the plaintext when no session was there to snapshot.
  ghost function Sealing(cfg: Config, s: State, t: nat): State
    requires Enabled(cfg, s, Build(t))
  {
    var f, session, sid := s.calls[t].frame, s.calls[t].pc.session, s.calls[t].pc.sid;
    match session
    case None => Moved(s, t, Built(Layout(f), None), s.holder)
    case Some(i) =>
      var x := s.sessions[i];
      match E2e.Sealed(cfg.suite, E2e.CipherState(x.agreed.key, x.n), sid, Layout(f))
      case Err(_) => Moved(s, t, Returned, None)
      case Ok(ct) =>
        Moved(s.(sessions := s.sessions[i := x.(n := x.n + 1, log := x.log + [f], fate := x.fate + [InFlight])]),
              t, Built(sid + ct, Some((i, |x.fate|))), s.holder)
  }

  // r.send: the payload reaches the wire or it does not; the deferred Unlock follows.
  ghost function Writing(s: State, t: nat, ok: bool): State
    requires t in s.calls && s.calls[t].pc.Built?
    requires match s.calls[t].pc.tag
             case None => true
             case Some((i, n)) => i < |s.sessions| && n < |s.sessions[i].fate|
  {
    var payload, tag := s.calls[t].pc.payload, s.calls[t].pc.tag;
    var s1 := Moved(s, t, Returned, None);
    var s2 := if ok then s1.(wire := s1.wire + [Written(payload, tag)]) else s1;
    match tag
    case None => s2
    case Some((i, n)) =>
      var x := s.sessions[i];
      s2.(sessions := s2.sessions[i := x.(fate := x.fate[n := if ok then Sent else Lost])])
  }

  // s2 is reached from s1 by taking the events es in order.
  ghost predicate Run(cfg: Config, s1: State, es: seq<Event>, s2: State)
    decreases |es|
  {
    if es == [] then s1 == s2
    else Enabled(cfg, s1, es[0]) && Run(cfg, Next(cfg, s1, es[0]), es[1..], s2)
  }

  ghost predicate Reachable(cfg: Config, s: State) {
    exists es :: Run(cfg, INITIAL, es, s)
  }

  // ---------- what every step keeps ----------

  // The nonces of session i on the wire, in wire order.
  ghost function NoncesOn(wire: seq<Written>, i: nat): seq<nat> {
    if wire == [] then []
    else
      var w := wire[|wire| - 1];
      NoncesOn(wire[..|wire| - 1], i) + if w.tag.Some? && w.tag.value.0 == i then [w.tag.value.1] else []
  }

  // The nonces whose message was written, in increasing order.
  ghost function SentNonces(fate: seq<Fate>): seq<nat> {
    if fate == [] then []
    else
      var m := |fate| - 1;
      SentNonces(fate[..m]) + if fate[m] == Sent then [m] else []
  }

  ghost predicate SessionOk(x: Sess) {
    && |x.agreed.sid| == SID_LEN && x.n == |x.log| == |x.fate| && x.n <= E2e.MAX_NONCE + 1
    && forall m :: 0 <= m < |x.log| ==> Encoded(x.log[m]).Ok?
  }

  ghost predicate SessionsOk(s: State) {
    && (forall i :: 0 <= i < |s.sessions| ==> SessionOk(s.sessions[i]))
    && (forall i, j :: 0 <= i < j < |s.sessions| ==> s.sessions[i].agreed.key != s.sessions[j].agreed.key)
    && (s.current.Some? ==> s.current.value < |s.sessions| && s.sid == s.sessions[s.current.value].agreed.sid)
  }

  ghost predicate HasTag(s: State, i: nat, n: nat, f: Fate) {
    i < |s.sessions| && n < |s.sessions[i].log| && n < |s.sessions[i].fate| && s.sessions[i].fate[n] == f
  }

  // The payload is the one session i makes for its n-th frame.
  ghost predicate Genuine(c: Suite, s: State, payload: bytes, i: nat, n: nat)
    requires i < |s.sessions| && n < |s.sessions[i].log|
  {
    var x := s.sessions[i];
    Encoded(x.log[n]).Ok? && payload == RoutePayload(c, x.agreed, n, Layout(x.log[n]))
  }

  ghost predicate CallOk(cfg: Config, s: State, t: nat)
    requires t in s.calls
  {
    && Encoded(s.calls[t].frame).Ok?
    && ((s.calls[t].pc.Waiting? || s.calls[t].pc.Returned?) <==> s.holder != Some(t))
    && match s.calls[t].pc
       case Snapped(Some(i), sid) => i < |s.sessions| && sid == s.sessions[i].agreed.sid
       case Built(payload, Some((i, n))) =>
         && HasTag(s, i, n, InFlight) && n == |s.sessions[i].log| - 1
         && s.sessions[i].log[n] == s.calls[t].frame && Genuine(cfg.suite, s, payload, i, n)
       case Built(payload, None) => payload == Layout(s.calls[t].frame)
       case _ => true
  }

  ghost predicate CallsOk(cfg: Config, s: State) {
    && (forall t :: t in s.calls ==> CallOk(cfg, s, t))
    && (s.holder.Some? ==> s.holder.value in s.calls)
  }

  ghost predicate WrittenOk(cfg: Config, s: State, w: Written) {
    && |w.payload| + cfg.overhead <= MAX_PAYLOAD_LEN
    && (w.tag.Some? ==> HasTag(s, w.tag.value.0, w.tag.value.1, Sent)
                        && Genuine(cfg.suite, s, w.payload, w.tag.value.0, w.tag.value.1))
  }

  ghost predicate WireOk(cfg: Config, s: State) {
    && (forall k :: 0 <= k < |s.wire| ==> WrittenOk(cfg, s, s.wire[k]))
    && (forall i :: 0 <= i < |s.sessions| ==> NoncesOn(s.wire, i) == SentNonces(s.sessions[i].fate))
    && (forall i: nat :: |s.sessions| <= i ==> NoncesOn(s.wire, i) == [])
  }

  // Only the holder of sendMu has a message between Encrypt and Send.
  ghost predicate InFlightOk(s: State) {
    forall i: nat, n: nat :: HasTag(s, i, n, InFlight) ==>
      s.holder.Some? && s.holder.value in s.calls && s.calls[s.holder.value].pc.Built?
      && s.calls[s.holder.value].pc.tag == Some((i, n))
  }

  ghost predicate Inv(cfg: Config, s: State) {
    SessionsOk(s) && CallsOk(cfg, s) && WireOk(cfg, s) && InFlightOk(s)
  }

  lemma StepKeepsInv(cfg: Config, s: State, e: Event)
    requires cfg.mutex && Inv(cfg, s) && Enabled(cfg, s, e)
    ensures Inv(cfg, Next(cfg, s, e))
  {
    match e
    case Install(a) => InstallKeepsInv(cfg, s, a);
    case Drop => LocalStepKeepsInv(cfg, s, e);
    case Enter(_, _) => LocalStepKeepsInv(cfg, s, e);
    case Acquire(_) => LocalStepKeepsInv(cfg, s, e);
    case Snapshot(_) => LocalStepKeepsInv(cfg, s, e);
    case Build(t) => BuildKeepsInv(cfg, s, t);
    case Write(t, ok) => WriteKeepsInv(cfg, s, t, ok);
  }

  // A step that touches neither the sessions nor the wire leaves what is said of them true.
  lemma KeepsRest(cfg: Config, s: State, s': State)
    requires WireOk(cfg, s) && s'.sessions == s.sessions && s'.wire == s.wire
    ensures WireOk(cfg, s')
    ensures forall i: nat, n: nat, f :: HasTag(s', i, n, f) ==> HasTag(s, i, n, f)
  {
    forall k | 0 <= k < |s'.wire|
      ensures WrittenOk(cfg, s', s'.wire[k])
    {
      assert WrittenOk(cfg, s, s.wire[k]);
    }
  }

  lemma LocalStepKeepsInv(cfg: Config, s: State, e: Event)
    requires cfg.mutex && Inv(cfg, s) && Enabled(cfg, s, e)
    requires e.Drop? || e.Enter? || e.Acquire? || e.Snapshot?
    ensures Inv(cfg, Next(cfg, s, e))
  {
    var s' := Next(cfg, s, e);
    KeepsRest(cfg, s, s');
    assert InFlightOk(s');
    forall u | u in s'.calls
      ensures CallOk(cfg, s', u)
    {
      assert u in s.calls ==> CallOk(cfg, s, u);
    }
  }

  lemma InstallKeepsInv(cfg: Config, s: State, a: Agreed)
    requires Inv(cfg, s) && Enabled(cfg, s, Install(a))
    ensures Inv(cfg, Next(cfg, s, Install(a)))
  {
    var s' := Next(cfg, s, Install(a));
    assert forall i: nat, n: nat, f :: HasTag(s', i, n, f) == HasTag(s, i, n, f);
    forall k | 0 <= k < |s'.wire|
      ensures WrittenOk(cfg, s', s'.wire[k])
    {
      assert WrittenOk(cfg, s, s.wire[k]);
    }
    forall t | t in s'.calls
      ensures CallOk(cfg, s', t)
    {
      assert CallOk(cfg, s, t);
    }
  }

  lemma BuildKeepsInv(cfg: Config, s: State, t: nat)
    requires Inv(cfg, s) && Enabled(cfg, s, Build(t))
    ensures Inv(cfg, Next(cfg, s, Build(t)))
  {
    var s' := Next(cfg, s, Build(t));
    assert CallOk(cfg, s, t);
    if s'.sessions == s.sessions {
      KeepsRest(cfg, s, s');
      forall u | u in s'.calls
        ensures CallOk(cfg, s', u)
      {
        assert CallOk(cfg, s, u);
      }
    } else {
      SealKeepsSessions(cfg, s, t);
      SealKeepsWire(cfg, s, t);
      SealKeepsCalls(cfg, s, t);
    }
  }

  // What Encrypt does to the session table: one entry gains one message in flight.
  ghost predicate SealsOne(cfg: Config, s: State, t: nat) {
    Enabled(cfg, s, Build(t)) && Next(cfg, s, Build(t)).sessions != s.sessions
  }

  lemma SealTags(cfg: Config, s: State, t: nat)
    requires Inv(cfg, s) && SealsOne(cfg, s, t)
    ensures var s', i := Next(cfg, s, Build(t)), s.calls[t].pc.session.value;
      && i < |s.sessions|
      && (forall j: nat, n: nat, f :: HasTag(s, j, n, f) ==> HasTag(s', j, n, f))
      && (forall j: nat, n: nat, f :: HasTag(s', j, n, f) ==>
            HasTag(s, j, n, f) || (j == i && n == |s.sessions[i].log| && f == InFlight))
      && HasTag(s', i, |s.sessions[i].log|, InFlight)
      && (forall j: nat, n: nat :: !HasTag(s, j, n, InFlight))
  {
    assert CallOk(cfg, s, t);
    assert SessionOk(s.sessions[s.calls[t].pc.session.value]);
  }

  lemma SealKeepsSessions(cfg: Config, s: State, t: nat)
    requires SessionsOk(s) && CallsOk(cfg, s) && SealsOne(cfg, s, t)
    ensures SessionsOk(Next(cfg, s, Build(t)))
  {
    assert CallOk(cfg, s, t);
    assert SessionOk(s.sessions[s.calls[t].pc.session.value]);
  }

  lemma SealKeepsWire(cfg: Config, s: State, t: nat)
    requires Inv(cfg, s) && SealsOne(cfg, s, t)
    ensures WireOk(cfg, Next(cfg, s, Build(t)))
  {
    var s', i := Next(cfg, s, Build(t)), s.calls[t].pc.session.value;
    SealTags(cfg, s, t);
    forall k | 0 <= k < |s'.wire|
      ensures WrittenOk(cfg, s', s'.wire[k])
    {
      assert WrittenOk(cfg, s, s.wire[k]);
    }
    assert s'.sessions[i].fate[..|s.sessions[i].fate|] == s.sessions[i].fate;
  }

  lemma SealKeepsCalls(cfg: Config, s: State, t: nat)
    requires Inv(cfg, s) && SealsOne(cfg, s, t)
    ensures CallsOk(cfg, Next(cfg, s, Build(t))) && InFlightOk(Next(cfg, s, Build(t)))
  {
    var s', i := Next(cfg, s, Build(t)), s.calls[t].pc.session.value;
    SealTags(cfg, s, t);
    assert CallOk(cfg, s, t);
    assert SessionOk(s.sessions[i]);
    forall u | u in s'.calls
      ensures CallOk(cfg, s', u)
    {
      assert CallOk(cfg, s, u);
    }
  }

  lemma WriteKeepsInv(cfg: Config, s: State, t: nat, ok: bool)
    requires Inv(cfg, s) && Enabled(cfg, s, Write(t, ok))
    ensures Inv(cfg, Next(cfg, s, Write(t, ok)))
  {
    WriteTags(cfg, s, t, ok);
    WriteKeepsNonces(cfg, s, t, ok);
    WriteKeepsWire(cfg, s, t, ok);
    WriteKeepsSessions(cfg, s, t, ok);
    WriteKeepsCalls(cfg, s, t, ok);
  }

  lemma WriteTags(cfg: Config, s: State, t: nat, ok: bool)
    requires CallsOk(cfg, s) && InFlightOk(s) && Enabled(cfg, s, Write(t, ok))
    ensures var s', tag := Next(cfg, s, Write(t, ok)), s.calls[t].pc.tag;
      && (forall j: nat, m: nat, f :: HasTag(s, j, m, f) && tag != Some((j, m)) ==> HasTag(s', j, m, f))
      && (forall j: nat, m: nat, f :: HasTag(s', j, m, f) && tag != Some((j, m)) ==> HasTag(s, j, m, f))
      && (tag.Some? ==> HasTag(s', tag.value.0, tag.value.1, if ok then Sent else Lost))
      && (forall j: nat, m: nat :: HasTag(s, j, m, InFlight) ==> tag == Some((j, m)))
      && (forall j: nat, m: nat :: !HasTag(s', j, m, InFlight))
  {
    assert CallOk(cfg, s, t);
  }

  // Deciding the fate of the last message.
  lemma LastFate(fate: seq<Fate>)
    requires fate != [] && fate[|fate| - 1] == InFlight
    ensures SentNonces(fate[|fate| - 1 := Sent]) == SentNonces(fate) + [|fate| - 1]
    ensures SentNonces(fate[|fate| - 1 := Lost]) == SentNonces(fate)
  {
    var m := |fate| - 1;
    assert fate[m := Sent][..m] == fate[..m];
    assert fate[m := Lost][..m] == fate[..m];
  }

  lemma OneMoreWritten(wire: seq<Written>, w: Written, i: nat)
    ensures NoncesOn(wire + [w], i)
         == NoncesOn(wire, i) + if w.tag.Some? && w.tag.value.0 == i then [w.tag.value.1] else []
  {
    assert (wire + [w])[..|wire|] == wire;
  }

  // What a write does to the wire and to the fates of one session.
  lemma WriteEffect(cfg: Config, s: State, t: nat, ok: bool, i: nat)
    requires SessionsOk(s) && CallsOk(cfg, s) && Enabled(cfg, s, Write(t, ok))
    ensures var s', tag := Next(cfg, s, Write(t, ok)), s.calls[t].pc.tag;
      && s'.wire == (if ok then s.wire + [Written(s.calls[t].pc.payload, tag)] else s.wire)
      && |s'.sessions| == |s.sessions|
      && (i < |s.sessions| ==>
            var fate := s.sessions[i].fate;
            if tag.Some? && tag.value.0 == i
            then fate != [] && tag.value.1 == |fate| - 1 && fate[|fate| - 1] == InFlight
                 && s'.sessions[i].fate == fate[|fate| - 1 := if ok then Sent else Lost]
            else s'.sessions[i].fate == fate)
      && (tag.Some? && tag.value.0 == i ==> i < |s.sessions|)
  {
    assert CallOk(cfg, s, t);
    if i < |s.sessions| {
      assert SessionOk(s.sessions[i]);
    }
  }

  lemma NoncesAfterWrite(cfg: Config, s: State, t: nat, ok: bool, i: nat)
    requires SessionsOk(s) && CallsOk(cfg, s) && Enabled(cfg, s, Write(t, ok))
    requires NoncesOn(s.wire, i) == if i < |s.sessions| then SentNonces(s.sessions[i].fate) else []
    ensures var s' := Next(cfg, s, Write(t, ok));
      NoncesOn(s'.wire, i) == if i < |s'.sessions| then SentNonces(s'.sessions[i].fate) else []
  {
    var tag := s.calls[t].pc.tag;
    WriteEffect(cfg, s, t, ok, i);
    OneMoreWritten(s.wire, Written(s.calls[t].pc.payload, tag), i);
    if tag.Some? && tag.value.0 == i {
      LastFate(s.sessions[i].fate);
    }
  }

  lemma WriteKeepsNonces(cfg: Config, s: State, t: nat, ok: bool)
    requires SessionsOk(s) && CallsOk(cfg, s) && WireOk(cfg, s) && Enabled(cfg, s, Write(t, ok))
    ensures var s' := Next(cfg, s, Write(t, ok));
      && (forall i :: 0 <= i < |s'.sessions| ==> NoncesOn(s'.wire, i) == SentNonces(s'.sessions[i].fate))
      && (forall i: nat :: |s'.sessions| <= i ==> NoncesOn(s'.wire, i) == [])
  {
    forall i: nat
      ensures var s' := Next(cfg, s, Write(t, ok));
        NoncesOn(s'.wire, i) == if i < |s'.sessions| then SentNonces(s'.sessions[i].fate) else []
    {
      NoncesAfterWrite(cfg, s, t, ok, i);
    }
  }

  lemma WriteKeepsWire(cfg: Config, s: State, t: nat, ok: bool)
    requires Inv(cfg, s) && Enabled(cfg, s, Write(t, ok))
    ensures var s' := Next(cfg, s, Write(t, ok));
      forall k :: 0 <= k < |s'.wire| ==> WrittenOk(cfg, s', s'.wire[k])
  {
    var s' := Next(cfg, s, Write(t, ok));
    WriteTags(cfg, s, t, ok);
    assert CallOk(cfg, s, t);
    forall k | 0 <= k < |s'.wire|
      ensures WrittenOk(cfg, s', s'.wire[k])
    {
      if k < |s.wire| {
        assert WrittenOk(cfg, s, s.wire[k]);
      }
    }
  }

  lemma WriteKeepsSessions(cfg: Config, s: State, t: nat, ok: bool)
    requires SessionsOk(s) && CallsOk(cfg, s) && Enabled(cfg, s, Write(t, ok))
    ensures SessionsOk(Next(cfg, s, Write(t, ok)))
  {
    var s' := Next(cfg, s, Write(t, ok));
    assert CallOk(cfg, s, t);
    forall i | 0 <= i < |s'.sessions|
      ensures SessionOk(s'.sessions[i])
    {
      assert SessionOk(s.sessions[i]);
    }
  }

  lemma WriteKeepsCalls(cfg: Config, s: State, t: nat, ok: bool)
    requires CallsOk(cfg, s) && Enabled(cfg, s, Write(t, ok))
    ensures CallsOk(cfg, Next(cfg, s, Write(t, ok)))
  {
    var s' := Next(cfg, s, Write(t, ok));
    assert CallOk(cfg, s, t);
    forall u | u in s'.calls
      ensures CallOk(cfg, s', u)
    {
      assert CallOk(cfg, s, u);
    }
  }

  lemma {:induction false} RunKeepsInv(cfg: Config, s1: State, es: seq<Event>, s2: State)
    requires cfg.mutex && Inv(cfg, s1) && Run(cfg, s1, es, s2)
    ensures Inv(cfg, s2)
    decreases |es|
  {
    if es != [] {
      StepKeepsInv(cfg, s1, es[0]);
      RunKeepsInv(cfg, Next(cfg, s1, es[0]), es[1..], s2);
    }
  }

  lemma ReachableInv(cfg: Config, s: State)
    requires cfg.mutex && Reachable(cfg, s)
    ensures Inv(cfg, s)
  {
    var es :| Run(cfg, INITIAL, es, s);
    assert Inv(cfg, INITIAL);
    RunKeepsInv(cfg, INITIAL, es, s);
  }
}
