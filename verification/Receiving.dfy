/** The other end of the channel: unwrapping Route payloads in a read loop, and what a receiver can
    accept from a sender in any state the sender can reach, through any relay. */
module Receiving {
  import opened Wrappers
  import opened Bytes
  import opened Crypto
  import opened Proto
  import opened Channel
  import E2e

  datatype RouteError =
    | PlaintextRefused | TooShort | SidMismatch | BadCiphertext(e: E2e.Error) | BadFrame(f: Proto.Error)

  // The installed session of a receiver: its id and its receiving cipher state.
  datatype Keyed = Keyed(sid: bytes, cs: E2e.CipherState)

  function KeyOf(k: Keyed): Agreed {
    Agreed(k.sid, k.cs.key)
  }

  // unwrapRoute, and decodeInbound when required is false.
  function Unwrapped(c: Suite, required: bool, session: Option<Keyed>, payload: bytes): Result<bytes, RouteError> {
    match session
    case None => if required then Err(PlaintextRefused) else Ok(payload)
    case Some(k) =>
      if |payload| < SID_LEN then Err(TooShort)
      else if payload[..SID_LEN] != k.sid then Err(SidMismatch)
      else match E2e.Opened(c, k.cs, k.sid, payload[SID_LEN..])
           case Err(e) => Err(BadCiphertext(e))
           case Ok(p) => Ok(p)
  }

  // What arrives: a completed handshake, or the payload of a Route frame.
  datatype Inbound = Handshaken(a: Agreed) | Route(payload: bytes)

  // A plaintext handed on, and the session it arrived under.
  datatype Accepted = Accepted(under: Option<Agreed>, plain: bytes)

  datatype Receiver = Receiver(session: Option<Keyed>, accepted: seq<Accepted>)

  const FRESH := Receiver(None, [])

  function Receive(c: Suite, required: bool, r: Receiver, x: Inbound): Receiver {
    match x
    case Handshaken(a) => r.(session := Some(Keyed(a.sid, E2e.CipherState(a.key, 0))))
    case Route(payload) =>
      match Unwrapped(c, required, r.session, payload)
      case Err(_) => r
      case Ok(p) =>
        match r.session
        case None => r.(accepted := r.accepted + [Accepted(None, p)])
        case Some(k) =>
          Receiver(Some(k.(cs := k.cs.(n := k.cs.n + 1))), r.accepted + [Accepted(Some(KeyOf(k)), p)])
  }

  function ReceiveAll(c: Suite, required: bool, r: Receiver, xs: seq<Inbound>): Receiver {
    if xs == [] then r
    else Receive(c, required, ReceiveAll(c, required, r, xs[..|xs| - 1]), xs[|xs| - 1])
  }

  lemma ReceiveAllAppend(c: Suite, required: bool, xs: seq<Inbound>, x: Inbound)
    ensures ReceiveAll(c, required, FRESH, xs + [x]) == Receive(c, required, ReceiveAll(c, required, FRESH, xs), x)
  {
    assert (xs + [x])[..|xs|] == xs;
  }

  // The plaintexts accepted under one session, in order.
  function Under(accepted: seq<Accepted>, a: Agreed): seq<bytes> {
    if accepted == [] then []
    else
      var x := accepted[|accepted| - 1];
      Under(accepted[..|accepted| - 1], a) + if x.under == Some(a) then [x.plain] else []
  }

  // ---------- what a relay can do ----------

  // A payload that is not a message of any of the sender's sessions: anything the relay makes up,
  // and anything another peer sealed.
  ghost predicate Foreign(c: Suite, s: State, payload: bytes) {
    forall i, n, p :: 0 <= i < |s.sessions| ==> payload != RoutePayload(c, s.sessions[i].agreed, n, p)
  }

  // The relay may drop, repeat and reorder what the sender wrote, and may add foreign payloads.
  ghost predicate Relayed(c: Suite, s: State, payload: bytes) {
    || (exists w :: w in s.wire && w.tag.Some? && w.payload == payload)
    || Foreign(c, s, payload)
  }

  ghost predicate AllRelayed(c: Suite, s: State, xs: seq<Inbound>) {
    forall x :: x in xs && x.Route? ==> Relayed(c, s, x.payload)
  }

  // Every handshake yields a key of its own.
  ghost predicate FreshKeys(xs: seq<Inbound>) {
    forall i, j :: 0 <= i < j < |xs| && xs[i].Handshaken? && xs[j].Handshaken? ==> xs[i].a.key != xs[j].a.key
  }

  // How many messages of a session were written before the first one that was not.
  ghost function LeadingSent(fate: seq<Fate>): (n: nat)
    ensures n <= |fate|
  {
    if fate == [] then 0
    else
      var m := |fate| - 1;
      if LeadingSent(fate[..m]) == m && fate[m] == Sent then |fate| else LeadingSent(fate[..m])
  }

  lemma LeadingSentExactly(fate: seq<Fate>, n: nat)
    requires n <= |fate|
    ensures n <= LeadingSent(fate) <==> forall m :: 0 <= m < n ==> fate[m] == Sent
  {
    if fate != [] {
      var init := fate[..|fate| - 1];
      LeadingSentExactly(init, if n == |fate| then n - 1 else n);
      assert forall m :: 0 <= m < |init| ==> fate[m] == init[m];
    }
  }

  // The plaintexts of the first n messages of a session.
  ghost function Plains(x: Sess, n: nat): (ps: seq<bytes>)
    requires SessionOk(x) && n <= |x.log|
    ensures |ps| == n && forall m :: 0 <= m < n ==> ps[m] == Layout(x.log[m])
  {
    seq(n, m requires 0 <= m < n => assert Encoded(x.log[m]).Ok?; Layout(x.log[m]))
  }

  lemma SameMessage(c: Suite, a: Agreed, n: nat, p: bytes, b: Agreed, m: nat, q: bytes)
    requires c.IdealAead() && |a.sid| == |b.sid| && RoutePayload(c, a, n, p) == RoutePayload(c, b, m, q)
    ensures a == b && n == m && p == q
  {
    var w := RoutePayload(c, a, n, p);
    assert a.sid == w[..|a.sid|] == b.sid;
    assert c.seal(a.key, n, a.sid, p) == w[|a.sid|..] == c.seal(b.key, m, b.sid, q);
    assert c.unseal(a.key, n, a.sid, c.seal(a.key, n, a.sid, p)) == Some(p);
  }

  /** A receiver at counter n of a session accepts a payload as p exactly when it is that session's
      n-th message, carrying p. */
  lemma UnwrapsExactly(c: Suite, required: bool, a: Agreed, n: nat, payload: bytes, p: bytes)
    requires c.IdealAead() && |a.sid| == SID_LEN
    ensures Unwrapped(c, required, Some(Keyed(a.sid, E2e.CipherState(a.key, n))), payload) == Ok(p)
            <==> n <= E2e.MAX_NONCE && payload == RoutePayload(c, a, n, p)
  {
    if payload == RoutePayload(c, a, n, p) {
      assert payload[..SID_LEN] == a.sid && payload[SID_LEN..] == c.seal(a.key, n, a.sid, p);
    }
    if |payload| >= SID_LEN {
      assert payload == payload[..SID_LEN] + payload[SID_LEN..];
    }
  }

  // A written payload is a message of one session and one nonce only.
  lemma SameTag(cfg: Config, s: State, w: Written, i: nat, n: nat, p: bytes)
    requires cfg.suite.IdealAead() && SessionsOk(s) && WrittenOk(cfg, s, w) && w.tag.Some? && i < |s.sessions|
    requires w.payload == RoutePayload(cfg.suite, s.sessions[i].agreed, n, p)
    ensures w.tag == Some((i, n)) && p == Layout(s.sessions[i].log[n])
  {
    var (j, m) := w.tag.value;
    assert SessionOk(s.sessions[i]) && SessionOk(s.sessions[j]);
    assert i != j ==> s.sessions[i].agreed.key != s.sessions[j].agreed.key;
    SameMessage(cfg.suite, s.sessions[i].agreed, n, p, s.sessions[j].agreed, m, Layout(s.sessions[j].log[m]));
  }

  /** Whatever reaches the receiver and is a message of one of the sender's sessions is one the
      sender wrote: under that nonce, with that plaintext. */
  lemma RelayedIsWritten(cfg: Config, s: State, i: nat, n: nat, p: bytes)
    requires cfg.suite.IdealAead() && Inv(cfg, s) && i < |s.sessions|
    requires Relayed(cfg.suite, s, RoutePayload(cfg.suite, s.sessions[i].agreed, n, p))
    ensures HasTag(s, i, n, Sent) && Encoded(s.sessions[i].log[n]).Ok? && p == Layout(s.sessions[i].log[n])
  {
    var b := RoutePayload(cfg.suite, s.sessions[i].agreed, n, p);
    assert !Foreign(cfg.suite, s, b);
    var w :| w in s.wire && w.tag.Some? && w.payload == b;
    SameTag(cfg, s, w, i, n, p);
  }

  // ---------- safety, for any relay ----------

  // The receiver's counter is the number of plaintexts it accepted under its session.
  ghost predicate CounterOk(r: Receiver) {
    r.session.Some? ==> r.session.value.cs.n == |Under(r.accepted, KeyOf(r.session.value))|
  }

  ghost predicate AcceptedOk(s: State, i: nat, got: seq<bytes>)
    requires i < |s.sessions| && SessionOk(s.sessions[i])
  {
    && |got| <= LeadingSent(s.sessions[i].fate)
    && got == Plains(s.sessions[i], |got|)
  }

  lemma UnderUnused(c: Suite, required: bool, xs: seq<Inbound>, a: Agreed)
    requires forall x :: x in xs && x.Handshaken? ==> x.a.key != a.key
    ensures var r := ReceiveAll(c, required, FRESH, xs);
      Under(r.accepted, a) == [] && (r.session.Some? ==> r.session.value.cs.key != a.key)
  {
    if xs != [] {
      var xs' := xs[..|xs| - 1];
      UnderUnused(c, required, xs', a);
      var r', r := ReceiveAll(c, required, FRESH, xs'), ReceiveAll(c, required, FRESH, xs);
      if r.accepted != r'.accepted {
        assert r.accepted[..|r'.accepted|] == r'.accepted;
      }
    }
  }

  lemma {:induction false} CounterIsAccepted(c: Suite, required: bool, xs: seq<Inbound>)
    requires FreshKeys(xs)
    ensures CounterOk(ReceiveAll(c, required, FRESH, xs))
  {
    if xs != [] {
      var xs', x := xs[..|xs| - 1], xs[|xs| - 1];
      CounterIsAccepted(c, required, xs');
      var r', r := ReceiveAll(c, required, FRESH, xs'), ReceiveAll(c, required, FRESH, xs);
      if x.Handshaken? {
        UnderUnused(c, required, xs', x.a);
      } else if r.accepted != r'.accepted {
        assert r.accepted[..|r'.accepted|] == r'.accepted;
      }
    }
  }

  // One more plaintext accepted under session i, at the counter the receiver stood at.
  lemma AcceptsNext(cfg: Config, s: State, i: nat, got: seq<bytes>, k: Keyed, payload: bytes)
    requires cfg.suite.IdealAead() && Inv(cfg, s) && i < |s.sessions| && Relayed(cfg.suite, s, payload)
    requires AcceptedOk(s, i, got) && KeyOf(k) == s.sessions[i].agreed && k.cs.n == |got|
    requires Unwrapped(cfg.suite, true, Some(k), payload).Ok?
    ensures AcceptedOk(s, i, got + [Unwrapped(cfg.suite, true, Some(k), payload).value])
  {
    var p := Unwrapped(cfg.suite, true, Some(k), payload).value;
    var x := s.sessions[i];
    assert SessionOk(x);
    UnwrapsExactly(cfg.suite, true, x.agreed, |got|, payload, p);
    RelayedIsWritten(cfg, s, i, |got|, p);
    LeadingSentExactly(x.fate, |got|);
    LeadingSentExactly(x.fate, |got| + 1);
    assert Plains(x, |got| + 1) == got + [p];
  }

  lemma UnderAppend(accepted: seq<Accepted>, x: Accepted, a: Agreed)
    ensures Under(accepted + [x], a) == Under(accepted, a) + if x.under == Some(a) then [x.plain] else []
  {
    assert (accepted + [x])[..|accepted|] == accepted;
  }

  /** In every state the sender can reach and for every relay, what the receiver has accepted under a
      session is a prefix of what the sender encrypted under it, in Encrypt order, and reaches no
      further than the first message that was never written. */
  lemma {:induction false} AcceptedIsPrefix(cfg: Config, s: State, required: bool, xs: seq<Inbound>, i: nat)
    requires cfg.suite.IdealAead() && Inv(cfg, s) && i < |s.sessions|
    requires AllRelayed(cfg.suite, s, xs) && FreshKeys(xs)
    ensures AcceptedOk(s, i, Under(ReceiveAll(cfg.suite, required, FRESH, xs).accepted, s.sessions[i].agreed))
  {
    assert SessionOk(s.sessions[i]);
    if xs == [] {
      assert Plains(s.sessions[i], 0) == [];
    } else {
      var xs', x := xs[..|xs| - 1], xs[|xs| - 1];
      var a := s.sessions[i].agreed;
      AcceptedIsPrefix(cfg, s, required, xs', i);
      CounterIsAccepted(cfg.suite, required, xs');
      var r' := ReceiveAll(cfg.suite, required, FRESH, xs');
      if x.Route? && Unwrapped(cfg.suite, required, r'.session, x.payload).Ok? {
        var p := Unwrapped(cfg.suite, required, r'.session, x.payload).value;
        var under := if r'.session.None? then None else Some(KeyOf(r'.session.value));
        UnderAppend(r'.accepted, Accepted(under, p), a);
        if under == Some(a) {
          AcceptsNext(cfg, s, i, Under(r'.accepted, a), r'.session.value, x.payload);
        }
      }
    }
  }

  // ---------- a lossless relay that keeps the order ----------

  function Routes(wire: seq<Written>): (xs: seq<Inbound>)
    ensures |xs| == |wire| && forall k :: 0 <= k < |wire| ==> xs[k] == Route(wire[k].payload)
  {
    seq(|wire|, k requires 0 <= k < |wire| => Route(wire[k].payload))
  }

  // The counter a receiver ends at when it is shown messages with these nonces.
  ghost function Reached(nonces: seq<nat>): nat {
    if nonces == [] then 0
    else
      var n := Reached(nonces[..|nonces| - 1]);
      if nonces[|nonces| - 1] == n then n + 1 else n
  }

  lemma {:induction false} ReachedIsLeading(fate: seq<Fate>)
    ensures Reached(SentNonces(fate)) == LeadingSent(fate)
  {
    if fate != [] {
      var m := |fate| - 1;
      ReachedIsLeading(fate[..m]);
      var ns := SentNonces(fate[..m]);
      assert SentNonces(fate) == if fate[m] == Sent then ns + [m] else ns;
      assert (ns + [m])[..|ns|] == ns;
    }
  }

  ghost predicate PlaintextIsForeign(c: Suite, s: State) {
    forall k :: 0 <= k < |s.wire| && s.wire[k].tag.None? ==> Foreign(c, s, s.wire[k].payload)
  }

  // What one written payload does to a receiver of session i at counter n.
  lemma ReceivesWritten(cfg: Config, s: State, required: bool, i: nat, n: nat, k: nat)
    requires cfg.suite.IdealAead() && Inv(cfg, s) && i < |s.sessions| && k < |s.wire|
    requires PlaintextIsForeign(cfg.suite, s)
    ensures var a := s.sessions[i].agreed;
      Unwrapped(cfg.suite, required, Some(Keyed(a.sid, E2e.CipherState(a.key, n))), s.wire[k].payload).Ok?
      <==> s.wire[k].tag == Some((i, n))
  {
    var a, w := s.sessions[i].agreed, s.wire[k];
    var u := Unwrapped(cfg.suite, required, Some(Keyed(a.sid, E2e.CipherState(a.key, n))), w.payload);
    assert WrittenOk(cfg, s, w) && SessionOk(s.sessions[i]);
    if u.Ok? {
      UnwrapsExactly(cfg.suite, required, a, n, w.payload, u.value);
      assert w.tag.Some?;
      SameTag(cfg, s, w, i, n, u.value);
    }
    if w.tag == Some((i, n)) {
      UnwrapsExactly(cfg.suite, required, a, n, w.payload, Layout(s.sessions[i].log[n]));
    }
  }

  lemma ReachedAppend(ns: seq<nat>, m: nat)
    ensures Reached(ns + [m]) == Reached(ns) + if m == Reached(ns) then 1 else 0
  {
    assert (ns + [m])[..|ns|] == ns;
  }

  // At every counter, a receiver of session a opens precisely the payload tagged with it.
  ghost predicate TellsApart(c: Suite, required: bool, a: Agreed, i: nat, w: Written) {
    forall n: nat ::
      Unwrapped(c, required, Some(Keyed(a.sid, E2e.CipherState(a.key, n))), w.payload).Ok? <==> w.tag == Some((i, n))
  }

  lemma FifoStep(c: Suite, required: bool, a: Agreed, i: nat, w: Written, r: Receiver, ns: seq<nat>)
    requires TellsApart(c, required, a, i, w)
    requires r.session == Some(Keyed(a.sid, E2e.CipherState(a.key, Reached(ns))))
    ensures Receive(c, required, r, Route(w.payload)).session
            == Some(Keyed(a.sid, E2e.CipherState(a.key,
                 Reached(ns + if w.tag.Some? && w.tag.value.0 == i then [w.tag.value.1] else []))))
  {
    if w.tag.Some? && w.tag.value.0 == i {
      ReachedAppend(ns, w.tag.value.1);
    } else {
      assert ns + [] == ns;
    }
  }

  // A receiver that completes the handshake of session a and is then shown these payloads.
  ghost function Shown(c: Suite, required: bool, before: seq<Inbound>, a: Agreed, wire: seq<Written>): Receiver {
    ReceiveAll(c, required, FRESH, before + [Handshaken(a)] + Routes(wire))
  }

  lemma ShownNothing(c: Suite, required: bool, before: seq<Inbound>, a: Agreed)
    ensures Shown(c, required, before, a, []).session == Some(Keyed(a.sid, E2e.CipherState(a.key, 0)))
  {
    ReceiveAllAppend(c, required, before, Handshaken(a));
    assert before + [Handshaken(a)] + Routes([]) == before + [Handshaken(a)];
  }

  lemma ShownOneMore(c: Suite, required: bool, before: seq<Inbound>, a: Agreed, wire: seq<Written>, w: Written)
    ensures Shown(c, required, before, a, wire + [w])
         == Receive(c, required, Shown(c, required, before, a, wire), Route(w.payload))
  {
    var xs := before + [Handshaken(a)] + Routes(wire);
    ReceiveAllAppend(c, required, xs, Route(w.payload));
    assert before + [Handshaken(a)] + Routes(wire + [w]) == xs + [Route(w.payload)];
  }

  lemma {:induction false} FifoCounter(c: Suite, required: bool, before: seq<Inbound>, a: Agreed, i: nat, wire: seq<Written>)
    requires forall k :: 0 <= k < |wire| ==> TellsApart(c, required, a, i, wire[k])
    ensures Shown(c, required, before, a, wire).session
            == Some(Keyed(a.sid, E2e.CipherState(a.key, Reached(NoncesOn(wire, i)))))
  {
    if wire == [] {
      ShownNothing(c, required, before, a);
    } else {
      var ws, w := wire[..|wire| - 1], wire[|wire| - 1];
      FifoCounter(c, required, before, a, i, ws);
      assert wire == ws + [w];
      ShownOneMore(c, required, before, a, ws, w);
      OneMoreWritten(ws, w, i);
      FifoStep(c, required, a, i, w, Shown(c, required, before, a, ws), NoncesOn(ws, i));
    }
  }

  // The handshakes of a list are of other keys.
  ghost predicate OtherKeys(xs: seq<Inbound>, a: Agreed) {
    forall x :: x in xs && x.Handshaken? ==> x.a.key != a.key
  }

  // Once another handshake has come, nothing is accepted under session a any more.
  lemma {:induction false} AfterNextHandshake(c: Suite, required: bool, xs: seq<Inbound>, after: seq<Inbound>, a: Agreed)
    requires OtherKeys(after, a) && (after != [] ==> after[0].Handshaken?)
    ensures Under(ReceiveAll(c, required, FRESH, xs + after).accepted, a) == Under(ReceiveAll(c, required, FRESH, xs).accepted, a)
    ensures var r := ReceiveAll(c, required, FRESH, xs + after);
      after != [] && r.session.Some? ==> r.session.value.cs.key != a.key
    decreases |after|
  {
    if after == [] {
      assert xs + after == xs;
    } else {
      var init, x := after[..|after| - 1], after[|after| - 1];
      AfterNextHandshake(c, required, xs, init, a);
      assert xs + after == (xs + init) + [x];
      ReceiveAllAppend(c, required, xs + init, x);
      var r := ReceiveAll(c, required, FRESH, xs + init);
      if x.Route? && r.session.Some? && Unwrapped(c, required, r.session, x.payload).Ok? {
        UnderAppend(r.accepted, Accepted(Some(KeyOf(r.session.value)), Unwrapped(c, required, r.session, x.payload).value), a);
      } else if x.Route? && Unwrapped(c, required, r.session, x.payload).Ok? {
        UnderAppend(r.accepted, Accepted(None, Unwrapped(c, required, r.session, x.payload).value), a);
      }
    }
  }

  lemma WireTellsApart(cfg: Config, s: State, required: bool, i: nat)
    requires cfg.suite.IdealAead() && Inv(cfg, s) && i < |s.sessions| && PlaintextIsForeign(cfg.suite, s)
    ensures forall k :: 0 <= k < |s.wire| ==> TellsApart(cfg.suite, required, s.sessions[i].agreed, i, s.wire[k])
  {
    forall k, n: nat | 0 <= k < |s.wire| {
      ReceivesWritten(cfg, s, required, i, n, k);
    }
  }

  lemma WireIsRelayed(c: Suite, s: State, xs: seq<Inbound>)
    requires PlaintextIsForeign(c, s)
    requires forall x :: x in xs && x.Route? ==> exists w :: w in s.wire && w.payload == x.payload
    ensures AllRelayed(c, s, xs)
  {
    forall x | x in xs && x.Route?
      ensures Relayed(c, s, x.payload)
    {
      var w :| w in s.wire && w.payload == x.payload;
      var k: nat :| k < |s.wire| && s.wire[k] == w;
    }
  }

  /** When a stretch of the wire arrives whole and in order between the handshake of session i and the
      next one, the receiver accepts exactly the session's messages 0, 1, 2, ... as far as the stretch
      holds them in a row from 0, whatever it was shown before and is shown after. Messages of other
      sessions are rejected and do not move its counter. */
  lemma WindowExact(cfg: Config, s: State, required: bool, i: nat, before: seq<Inbound>, p: nat, q: nat, after: seq<Inbound>)
    requires cfg.suite.IdealAead() && Inv(cfg, s) && i < |s.sessions| && PlaintextIsForeign(cfg.suite, s)
    requires p <= q <= |s.wire| && (after != [] ==> after[0].Handshaken?)
    requires var xs := before + [Handshaken(s.sessions[i].agreed)] + Routes(s.wire[p..q]) + after;
      AllRelayed(cfg.suite, s, xs) && FreshKeys(xs)
    ensures SessionOk(s.sessions[i]) && Reached(NoncesOn(s.wire[p..q], i)) <= |s.sessions[i].log|
    ensures var x, xs := s.sessions[i], before + [Handshaken(s.sessions[i].agreed)] + Routes(s.wire[p..q]) + after;
      Under(ReceiveAll(cfg.suite, required, FRESH, xs).accepted, x.agreed)
      == Plains(x, Reached(NoncesOn(s.wire[p..q], i)))
  {
    var a := s.sessions[i].agreed;
    var xs := before + [Handshaken(a)] + Routes(s.wire[p..q]);
    assert SessionOk(s.sessions[i]);
    AcceptedIsPrefix(cfg, s, required, xs + after, i);
    WireTellsApart(cfg, s, required, i);
    FifoCounter(cfg.suite, required, before, a, i, s.wire[p..q]);
    WindowKeys(before, a, Routes(s.wire[p..q]), after);
    CounterIsAccepted(cfg.suite, required, xs);
    AfterNextHandshake(cfg.suite, required, xs, after, a);
  }

  lemma WindowKeys(before: seq<Inbound>, a: Agreed, mid: seq<Inbound>, after: seq<Inbound>)
    requires FreshKeys(before + [Handshaken(a)] + mid + after)
    ensures FreshKeys(before + [Handshaken(a)] + mid) && OtherKeys(after, a)
  {
    var xs, all := before + [Handshaken(a)] + mid, before + [Handshaken(a)] + mid + after;
    assert forall k :: 0 <= k < |xs| ==> xs[k] == all[k];
    forall x | x in after && x.Handshaken?
      ensures x.a.key != a.key
    {
      var k: nat :| k < |after| && after[k] == x;
      assert all[|xs| + k] == x && all[|before|] == Handshaken(a);
    }
  }

  lemma RoutesAreWritten(wire: seq<Written>, a: Agreed)
    ensures forall x :: x in [Handshaken(a)] + Routes(wire) && x.Route? ==> exists w :: w in wire && w.payload == x.payload
    ensures FreshKeys([Handshaken(a)] + Routes(wire))
  {
    var xs := [Handshaken(a)] + Routes(wire);
    forall x | x in xs && x.Route?
      ensures exists w :: w in wire && w.payload == x.payload
    {
      var k: nat :| k < |xs| && xs[k] == x;
      assert wire[k - 1] in wire;
    }
  }

  /** In particular, when the relay hands on everything that was written to a receiver that holds the
      session all along, it accepts the session's messages up to the first one never written. */
  lemma FifoExact(cfg: Config, s: State, required: bool, i: nat)
    requires cfg.suite.IdealAead() && Inv(cfg, s) && i < |s.sessions| && PlaintextIsForeign(cfg.suite, s)
    ensures SessionOk(s.sessions[i])
    ensures Under(ReceiveAll(cfg.suite, required, FRESH, [Handshaken(s.sessions[i].agreed)] + Routes(s.wire)).accepted,
                  s.sessions[i].agreed)
            == Plains(s.sessions[i], LeadingSent(s.sessions[i].fate))
  {
    var a := s.sessions[i].agreed;
    assert s.wire[0..|s.wire|] == s.wire;
    assert [] + [Handshaken(a)] + Routes(s.wire) + [] == [Handshaken(a)] + Routes(s.wire);
    RoutesAreWritten(s.wire, a);
    WireIsRelayed(cfg.suite, s, [Handshaken(a)] + Routes(s.wire));
    WindowExact(cfg, s, required, i, [], 0, |s.wire|, []);
    ReachedIsLeading(s.sessions[i].fate);
  }
}
