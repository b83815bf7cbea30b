/** What holds of the channel over whole runs: the theorems a user of the two sendInner methods and
    the two read loops can rely on. */
module Guarantees {
  import opened Wrappers
  import opened Bytes
  import opened Crypto
  import opened Proto
  import opened Channel
  import opened Receiving
  import E2e

  // What a receiver holds of session i after being shown xs.
  ghost function Got(cfg: Config, s: State, required: bool, xs: seq<Inbound>, i: nat): seq<bytes>
    requires i < |s.sessions|
  {
    Under(ReceiveAll(cfg.suite, required, FRESH, xs).accepted, s.sessions[i].agreed)
  }

  /** No gap, duplicate or reordering: in every interleaving of senders, re-handshakes and failing
      writes, and for every relay, the receiver's plaintexts are the first messages encrypted. */
  lemma Safety(cfg: Config, s: State, required: bool, xs: seq<Inbound>, i: nat)
    requires cfg.mutex && cfg.suite.IdealAead() && Reachable(cfg, s) && i < |s.sessions|
    requires AllRelayed(cfg.suite, s, xs) && FreshKeys(xs)
    ensures SessionOk(s.sessions[i])
    ensures var got := Got(cfg, s, required, xs, i);
      |got| <= LeadingSent(s.sessions[i].fate) && got == Plains(s.sessions[i], |got|)
  {
    ReachableInv(cfg, s);
    AcceptedIsPrefix(cfg, s, required, xs, i);
  }

  /** With a lossless relay that keeps the order, a drained wire means every encrypted message was
      accepted if and only if none failed to be written after its Encrypt. */
  lemma Complete(cfg: Config, s: State, required: bool, i: nat)
    requires cfg.mutex && cfg.suite.IdealAead() && Reachable(cfg, s) && i < |s.sessions|
    requires PlaintextIsForeign(cfg.suite, s)
    ensures SessionOk(s.sessions[i])
    ensures var x := s.sessions[i];
      Got(cfg, s, required, [Handshaken(x.agreed)] + Routes(s.wire), i) == Plains(x, |x.log|)
      <==> forall m :: 0 <= m < |x.fate| ==> x.fate[m] == Sent
  {
    var x := s.sessions[i];
    ReachableInv(cfg, s);
    FifoExact(cfg, s, required, i);
    LeadingSentExactly(x.fate, |x.fate|);
    assert |Plains(x, LeadingSent(x.fate))| == LeadingSent(x.fate);
  }

  // The messages of session i that a stretch of the wire holds.
  ghost predicate Holds(wire: seq<Written>, p: nat, q: nat, i: nat, m: nat)
    requires p <= q <= |wire|
  {
    exists k :: p <= k < q && wire[k].tag == Some((i, m))
  }

  /** With re-handshakes: what a receiver accepts in a session comes from the stretch of the wire between
      the session's handshake and the next, and is everything encrypted if and only if every message is
      in that stretch. A message written before or after it is lost although its Send succeeded. */
  lemma CompleteBetweenHandshakes(cfg: Config, s: State, required: bool, i: nat,
                                  before: seq<Inbound>, p: nat, q: nat, after: seq<Inbound>)
    requires cfg.mutex && cfg.suite.IdealAead() && Reachable(cfg, s) && i < |s.sessions|
    requires PlaintextIsForeign(cfg.suite, s)
    requires p <= q <= |s.wire| && (after != [] ==> after[0].Handshaken?)
    requires var xs := before + [Handshaken(s.sessions[i].agreed)] + Routes(s.wire[p..q]) + after;
      AllRelayed(cfg.suite, s, xs) && FreshKeys(xs)
    ensures SessionOk(s.sessions[i])
    ensures var x, xs := s.sessions[i], before + [Handshaken(s.sessions[i].agreed)] + Routes(s.wire[p..q]) + after;
      Got(cfg, s, required, xs, i) == Plains(x, |x.log|) <==> forall m: nat :: m < |x.log| ==> Holds(s.wire, p, q, i, m)
    ensures var x, xs := s.sessions[i], before + [Handshaken(s.sessions[i].agreed)] + Routes(s.wire[p..q]) + after;
      forall m: nat :: m < |x.log| && !Holds(s.wire, p, q, i, m) ==> |Got(cfg, s, required, xs, i)| <= m
  {
    var x, ns := s.sessions[i], NoncesOn(s.wire[p..q], i);
    ReachableInv(cfg, s);
    WindowExact(cfg, s, required, i, before, p, q, after);
    WindowIncreases(cfg, s, i, p, q);
    ReachedIsLeast(ns);
    forall m: nat
      ensures m in ns <==> Holds(s.wire, p, q, i, m)
    {
      OnStretch(s.wire, p, q, i, m);
    }
    if forall m: nat :: m < |x.log| ==> Holds(s.wire, p, q, i, m) {
      assert Reached(ns) == |x.log|;
    }
  }

  lemma {:induction false} NoncesOnConcat(v: seq<Written>, w: seq<Written>, i: nat)
    ensures NoncesOn(v + w, i) == NoncesOn(v, i) + NoncesOn(w, i)
    decreases |w|
  {
    if w == [] {
      assert v + w == v;
    } else {
      var init := w[..|w| - 1];
      NoncesOnConcat(v, init, i);
      assert v + w == (v + init) + [w[|w| - 1]] && w == init + [w[|w| - 1]];
      OneMoreWritten(v + init, w[|w| - 1], i);
      OneMoreWritten(init, w[|w| - 1], i);
    }
  }

  ghost predicate Increasing(ns: seq<nat>) {
    forall j, k :: 0 <= j < k < |ns| ==> ns[j] < ns[k]
  }

  // The nonces of a session increase on any stretch of the wire, as they do on all of it.
  lemma WindowIncreases(cfg: Config, s: State, i: nat, p: nat, q: nat)
    requires Inv(cfg, s) && i < |s.sessions| && p <= q <= |s.wire|
    ensures Increasing(NoncesOn(s.wire[p..q], i))
  {
    var a, m, z := s.wire[..p], s.wire[p..q], s.wire[q..];
    SentNoncesIncrease(s.sessions[i].fate);
    assert s.wire == (a + m) + z;
    NoncesOnConcat(a + m, z, i);
    NoncesOnConcat(a, m, i);
    MiddleIncreases(NoncesOn(a, i), NoncesOn(m, i), NoncesOn(z, i));
  }

  lemma MiddleIncreases(a: seq<nat>, m: seq<nat>, z: seq<nat>)
    requires Increasing(a + m + z)
    ensures Increasing(m)
  {
    assert forall j :: 0 <= j < |m| ==> m[j] == (a + m + z)[|a| + j];
  }

  // From increasing nonces a receiver gets as far as the first number that is missing.
  lemma {:induction false} ReachedIsLeast(ns: seq<nat>)
    requires Increasing(ns)
    ensures forall m: nat :: m < Reached(ns) ==> m in ns
    ensures Reached(ns) !in ns
  {
    if ns != [] {
      var init, last := ns[..|ns| - 1], ns[|ns| - 1];
      ReachedIsLeast(init);
      assert ns == init + [last];
      assert forall m :: m in ns <==> m in init || m == last;
      assert forall m :: m in init ==> m < last;
    }
  }

  lemma OnStretch(wire: seq<Written>, p: nat, q: nat, i: nat, m: nat)
    requires p <= q <= |wire|
    ensures m in NoncesOn(wire[p..q], i) <==> Holds(wire, p, q, i, m)
  {
    if m in NoncesOn(wire[p..q], i) {
      NonceIsOnWire(wire[p..q], i, m);
      var k :| 0 <= k < q - p && wire[p..q][k].tag == Some((i, m));
      assert wire[p + k].tag == Some((i, m));
    }
    if Holds(wire, p, q, i, m) {
      var k :| p <= k < q && wire[k].tag == Some((i, m));
      TagIsOnWire(wire[p..q], k - p, i, m);
    }
  }

  lemma {:induction false} TagIsOnWire(wire: seq<Written>, k: nat, i: nat, m: nat)
    requires k < |wire| && wire[k].tag == Some((i, m))
    ensures m in NoncesOn(wire, i)
    decreases |wire|
  {
    var init := wire[..|wire| - 1];
    if k < |init| {
      TagIsOnWire(init, k, i, m);
    }
  }

  // Sessions are never reordered or forgotten, and a dropped message stays dropped.
  lemma {:induction false} LostStaysLost(cfg: Config, s1: State, es: seq<Event>, s2: State, i: nat, n: nat)
    requires cfg.mutex && Inv(cfg, s1) && Run(cfg, s1, es, s2) && HasTag(s1, i, n, Lost)
    ensures HasTag(s2, i, n, Lost) && s2.sessions[i].agreed == s1.sessions[i].agreed
    decreases |es|
  {
    if es != [] {
      StepKeepsInv(cfg, s1, es[0]);
      StepKeepsLost(cfg, s1, es[0], i, n);
      LostStaysLost(cfg, Next(cfg, s1, es[0]), es[1..], s2, i, n);
    }
  }

  lemma StepKeepsLost(cfg: Config, s: State, e: Event, i: nat, n: nat)
    requires Inv(cfg, s) && Enabled(cfg, s, e) && HasTag(s, i, n, Lost)
    ensures HasTag(Next(cfg, s, e), i, n, Lost) && Next(cfg, s, e).sessions[i].agreed == s.sessions[i].agreed
  {
    if e.Write? {
      WriteTags(cfg, s, e.t, e.ok);
      assert CallOk(cfg, s, e.t);
    }
  }

  /** Once the Send of message n fails after its Encrypt, no message from n on is ever accepted: not
      now, not after any further run of the sender, not through any relay. */
  lemma FailedSendStopsSession(cfg: Config, s1: State, es: seq<Event>, s2: State, i: nat, n: nat,
                               required: bool, xs: seq<Inbound>)
    requires cfg.mutex && cfg.suite.IdealAead() && Reachable(cfg, s1) && Run(cfg, s1, es, s2)
    requires HasTag(s1, i, n, Lost) && AllRelayed(cfg.suite, s2, xs) && FreshKeys(xs)
    ensures i < |s2.sessions| && |Got(cfg, s2, required, xs, i)| <= n
  {
    ReachableInv(cfg, s1);
    LostStaysLost(cfg, s1, es, s2, i, n);
    RunKeepsInv(cfg, s1, es, s2);
    AcceptedIsPrefix(cfg, s2, required, xs, i);
    LeadingSentExactly(s2.sessions[i].fate, LeadingSent(s2.sessions[i].fate));
  }

  lemma {:induction false} SentNoncesIncrease(fate: seq<Fate>)
    ensures var ns := SentNonces(fate);
      && (forall j, k :: 0 <= j < k < |ns| ==> ns[j] < ns[k])
      && (forall m :: m in ns <==> 0 <= m < |fate| && fate[m] == Sent)
  {
    if fate != [] {
      var init := fate[..|fate| - 1];
      SentNoncesIncrease(init);
      var ns' := SentNonces(init);
      forall j | 0 <= j < |ns'|
        ensures ns'[j] < |init|
      {
        assert ns'[j] in ns';
      }
    }
  }

  /** On the wire every sealed payload carries the id and the key of one and the same session, and
      each session's nonces appear in strictly increasing order, whatever re-handshakes happen
      between the snapshot and the write. */
  lemma WireOrder(cfg: Config, s: State, i: nat)
    requires cfg.mutex && Reachable(cfg, s) && i < |s.sessions|
    ensures var ns := NoncesOn(s.wire, i); forall j, k :: 0 <= j < k < |ns| ==> ns[j] < ns[k]
    ensures forall k :: 0 <= k < |s.wire| && s.wire[k].tag.Some? ==>
              var (j, n) := s.wire[k].tag.value;
              j < |s.sessions| && n < |s.sessions[j].log| && Genuine(cfg.suite, s, s.wire[k].payload, j, n)
  {
    ReachableInv(cfg, s);
    SentNoncesIncrease(s.sessions[i].fate);
    forall k | 0 <= k < |s.wire|
      ensures WrittenOk(cfg, s, s.wire[k])
    {
    }
  }

  lemma NonceIsOnWire(wire: seq<Written>, i: nat, n: nat)
    requires n in NoncesOn(wire, i)
    ensures exists k :: 0 <= k < |wire| && wire[k].tag == Some((i, n))
  {
    var w := wire[|wire| - 1];
    if w.tag == Some((i, n)) {
    } else {
      var init := wire[..|wire| - 1];
      NonceIsOnWire(init, i, n);
      var k :| 0 <= k < |init| && init[k].tag == Some((i, n));
      assert wire[k].tag == Some((i, n));
    }
  }

  // Too long to be framed once its sid, tag and MAC are around it, though Encode takes it.
  ghost predicate Oversized(cfg: Config, f: Frame) {
    Encoded(f).Ok? && |Layout(f)| + SID_LEN + TAG_SIZE + cfg.overhead > MAX_PAYLOAD_LEN
  }

  lemma OversizedIsNeverSent(cfg: Config, s: State, i: nat, n: nat)
    requires cfg.mutex && cfg.suite.Expands() && Reachable(cfg, s) && HasTag(s, i, n, Sent)
    ensures !Oversized(cfg, s.sessions[i].log[n])
  {
    ReachableInv(cfg, s);
    SentNoncesIncrease(s.sessions[i].fate);
    NonceIsOnWire(s.wire, i, n);
    var k :| 0 <= k < |s.wire| && s.wire[k].tag == Some((i, n));
    assert WrittenOk(cfg, s, s.wire[k]) && SessionOk(s.sessions[i]);
  }

  /** sendInner encrypts frames that can no longer be framed once sealed. From such a message on nothing
      of the session is ever accepted, through any relay. */
  lemma OversizedStopsSession(cfg: Config, s: State, i: nat, n: nat, required: bool, xs: seq<Inbound>)
    requires cfg.mutex && cfg.suite.IdealAead() && cfg.suite.Expands() && Reachable(cfg, s)
    requires i < |s.sessions| && n < |s.sessions[i].log| && Oversized(cfg, s.sessions[i].log[n])
    requires AllRelayed(cfg.suite, s, xs) && FreshKeys(xs)
    ensures |Got(cfg, s, required, xs, i)| <= n
  {
    ReachableInv(cfg, s);
    var fate := s.sessions[i].fate;
    assert SessionOk(s.sessions[i]);
    if fate[n] == Sent {
      OversizedIsNeverSent(cfg, s, i, n);
    }
    AcceptedIsPrefix(cfg, s, required, xs, i);
    LeadingSentExactly(fate, LeadingSent(fate));
  }

  // One caller, past its snapshot of session a.
  ghost function OneIn(a: Agreed, f: Frame): State {
    State([Sess(a, 0, [], [])], Some(0), a.sid, map[0 := Call(f, Snapped(Some(0), a.sid))], Some(0), [])
  }

  lemma OneGetsIn(cfg: Config, a: Agreed, f: Frame)
    requires |a.sid| == SID_LEN && Encoded(f).Ok?
    ensures Reachable(cfg, OneIn(a, f))
  {
    assert Run(cfg, INITIAL, [], INITIAL);
    var s := INITIAL;
    OneMore(cfg, s, Install(a)); s := Next(cfg, s, Install(a));
    OneMore(cfg, s, Enter(0, f)); s := Next(cfg, s, Enter(0, f));
    OneMore(cfg, s, Acquire(0)); s := Next(cfg, s, Acquire(0));
    OneMore(cfg, s, Snapshot(0)); s := Next(cfg, s, Snapshot(0));
    assert s.calls == OneIn(a, f).calls && s.sessions == OneIn(a, f).sessions;
    assert s == OneIn(a, f);
  }

  /** Such frames get encrypted: any of them, as the first of a session, leads to a state in which its
      nonce is spent and its Send has failed. */
  lemma OversizedIsEncrypted(cfg: Config, a: Agreed, f: Frame) returns (s: State)
    requires |a.sid| == SID_LEN && Oversized(cfg, f)
    ensures Reachable(cfg, s) && s.sessions == [Sess(a, 1, [f], [Lost])] && s.wire == []
  {
    OneGetsIn(cfg, a, f);
    s := OneIn(a, f);
    OneMore(cfg, s, Build(0)); s := Next(cfg, s, Build(0));
    assert s.sessions[0].log == [f] && s.sessions[0].fate == [InFlight];
    OneMore(cfg, s, Write(0, false)); s := Next(cfg, s, Write(0, false));
    assert s.sessions[0].fate == [Lost];
  }

  /** And there are such frames for every overhead: a payload of the greatest length will do. */
  lemma OversizedExists(cfg: Config)
    ensures exists f :: Oversized(cfg, f)
  {
    var f := Frame(0, [], seq(MAX_PAYLOAD_LEN, k => 0));
    assert Encoded(f).Ok? && |Layout(f)| > MAX_PAYLOAD_LEN;
    assert Oversized(cfg, f);
  }

  // ---------- why the lock is there ----------

  lemma {:induction false} RunOneMore(cfg: Config, s1: State, es: seq<Event>, s2: State, e: Event)
    requires Run(cfg, s1, es, s2) && Enabled(cfg, s2, e)
    ensures Run(cfg, s1, es + [e], Next(cfg, s2, e))
    decreases |es|
  {
    if es == [] {
      assert (es + [e])[1..] == [];
    } else {
      RunOneMore(cfg, Next(cfg, s1, es[0]), es[1..], s2, e);
      assert (es + [e])[1..] == es[1..] + [e];
    }
  }

  lemma OneMore(cfg: Config, s: State, e: Event)
    requires Reachable(cfg, s) && Enabled(cfg, s, e)
    ensures Reachable(cfg, Next(cfg, s, e))
  {
    var es :| Run(cfg, INITIAL, es, s);
    RunOneMore(cfg, INITIAL, es, s, e);
  }

  // Two callers, both past their snapshot of session a: sendMu forbids this.
  ghost function BothIn(a: Agreed, f: Frame, g: Frame): State {
    State([Sess(a, 0, [], [])], Some(0), a.sid,
          map[0 := Call(f, Snapped(Some(0), a.sid)), 1 := Call(g, Snapped(Some(0), a.sid))], Some(1), [])
  }

  lemma BothWait(cfg: Config, a: Agreed, f: Frame, g: Frame) returns (s: State)
    requires |a.sid| == SID_LEN && Encoded(f).Ok? && Encoded(g).Ok?
    ensures Reachable(cfg, s)
    ensures s == State([Sess(a, 0, [], [])], Some(0), a.sid, map[0 := Call(f, Waiting), 1 := Call(g, Waiting)], None, [])
  {
    assert Run(cfg, INITIAL, [], INITIAL);
    s := INITIAL;
    OneMore(cfg, s, Install(a)); s := Next(cfg, s, Install(a));
    OneMore(cfg, s, Enter(0, f)); s := Next(cfg, s, Enter(0, f));
    OneMore(cfg, s, Enter(1, g)); s := Next(cfg, s, Enter(1, g));
  }

  lemma BothGetIn(cfg: Config, a: Agreed, f: Frame, g: Frame)
    requires !cfg.mutex && |a.sid| == SID_LEN && Encoded(f).Ok? && Encoded(g).Ok?
    ensures Reachable(cfg, BothIn(a, f, g))
  {
    var s := BothWait(cfg, a, f, g);
    OneMore(cfg, s, Acquire(0)); s := Next(cfg, s, Acquire(0));
    OneMore(cfg, s, Acquire(1)); s := Next(cfg, s, Acquire(1));
    OneMore(cfg, s, Snapshot(0)); s := Next(cfg, s, Snapshot(0));
    OneMore(cfg, s, Snapshot(1)); s := Next(cfg, s, Snapshot(1));
    assert s.calls == BothIn(a, f, g).calls;
  }

  // Both have encrypted.
  ghost function BothBuilt(cfg: Config, a: Agreed, f: Frame, g: Frame): State
    requires Encoded(f).Ok? && Encoded(g).Ok?
  {
    State([Sess(a, 2, [f, g], [InFlight, InFlight])], Some(0), a.sid,
          map[0 := Call(f, Built(RoutePayload(cfg.suite, a, 0, Layout(f)), Some((0, 0)))),
              1 := Call(g, Built(RoutePayload(cfg.suite, a, 1, Layout(g)), Some((0, 1))))], Some(1), [])
  }

  lemma BothBuild(cfg: Config, a: Agreed, f: Frame, g: Frame)
    requires !cfg.mutex && |a.sid| == SID_LEN && Encoded(f).Ok? && Encoded(g).Ok?
    ensures Reachable(cfg, BothBuilt(cfg, a, f, g))
  {
    BothGetIn(cfg, a, f, g);
    var s := BothIn(a, f, g);
    OneMore(cfg, s, Build(0)); s := Next(cfg, s, Build(0));
    assert s.sessions[0].log == [f] && s.sessions[0].fate == [InFlight];
    OneMore(cfg, s, Build(1)); s := Next(cfg, s, Build(1));
    assert s.sessions[0].log == [f, g] && s.sessions[0].fate == [InFlight, InFlight];
    assert s.sessions == BothBuilt(cfg, a, f, g).sessions;
    assert s.calls == BothBuilt(cfg, a, f, g).calls;
  }

  // From there the second message can be written before the first.
  lemma Overtaking(cfg: Config, a: Agreed, f: Frame, g: Frame) returns (s: State)
    requires !cfg.mutex && |a.sid| == SID_LEN && Encoded(f).Ok? && Encoded(g).Ok?
    requires |RoutePayload(cfg.suite, a, 0, Layout(f))| + cfg.overhead <= MAX_PAYLOAD_LEN
    requires |RoutePayload(cfg.suite, a, 1, Layout(g))| + cfg.overhead <= MAX_PAYLOAD_LEN
    ensures Reachable(cfg, s) && s.sessions == [Sess(a, 2, [f, g], [Sent, Sent])]
    ensures s.wire == [Written(RoutePayload(cfg.suite, a, 1, Layout(g)), Some((0, 1))),
                       Written(RoutePayload(cfg.suite, a, 0, Layout(f)), Some((0, 0)))]
  {
    BothBuild(cfg, a, f, g);
    s := BothBuilt(cfg, a, f, g);
    OneMore(cfg, s, Write(1, true)); s := Next(cfg, s, Write(1, true));
    assert s.sessions[0].fate == [InFlight, Sent];
    OneMore(cfg, s, Write(0, true)); s := Next(cfg, s, Write(0, true));
    assert s.sessions[0].fate == [Sent, Sent];
  }

  /** Without sendMu the channel loses messages although every Send succeeds and the relay is
      lossless and keeps the order: whatever two frames are sent, one run ends with both written and
      only the first accepted. */
  lemma LockIsNeeded(cfg: Config, a: Agreed, f: Frame, g: Frame, required: bool)
    requires !cfg.mutex && cfg.suite.IdealAead() && |a.sid| == SID_LEN && Encoded(f).Ok? && Encoded(g).Ok?
    requires |RoutePayload(cfg.suite, a, 0, Layout(f))| + cfg.overhead <= MAX_PAYLOAD_LEN
    requires |RoutePayload(cfg.suite, a, 1, Layout(g))| + cfg.overhead <= MAX_PAYLOAD_LEN
    ensures exists s :: Reachable(cfg, s) && s.sessions == [Sess(a, 2, [f, g], [Sent, Sent])]
              && Got(cfg, s, required, [Handshaken(a)] + Routes(s.wire), 0) == [Layout(f)]
  {
    var s := Overtaking(cfg, a, f, g);
    var c := cfg.suite;
    var p1, p0 := s.wire[0].payload, s.wire[1].payload;
    var r0 := Receive(c, required, FRESH, Handshaken(a));
    assert ReceiveAll(c, required, FRESH, []) == FRESH;
    ReceiveAllAppend(c, required, [], Handshaken(a));
    ReceiveAllAppend(c, required, [Handshaken(a)], Route(p1));
    ReceiveAllAppend(c, required, [Handshaken(a), Route(p1)], Route(p0));
    assert [] + [Handshaken(a)] == [Handshaken(a)];
    assert [Handshaken(a)] + [Route(p1)] == [Handshaken(a), Route(p1)];
    assert [Handshaken(a)] + Routes(s.wire) == [Handshaken(a), Route(p1)] + [Route(p0)];
    UnwrapsExactly(c, required, a, 0, p0, Layout(f));
    UnderAppend([], Accepted(Some(a), Layout(f)), a);
  }
}
