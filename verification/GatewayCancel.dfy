/** What a bridge can still be sent after its deferred cancel: Send looks at the context before it waits
    for the connection's write lock, so a daemon handler may be past the one and not yet at the other. */
module GatewayCancel {
  import opened Wrappers
  import opened Sessions
  import opened Gateway
  import opened GatewayRuns

  // The frame of daemon handler d whose Send to bridge b is past its look at the context, if any.
  ghost function Pending(handlers: map<nat, Handler>, d: nat, b: nat): seq<Frame> {
    if d in handlers && handlers[d].pc == Writing(b) && |handlers[d].fate| < |handlers[d].frames|
    then [handlers[d].frames[|handlers[d].fate|]] else []
  }

  // A bridge's frames grew by at most the frame that was pending, which then is no longer.
  ghost predicate UsesUp(got: seq<Frame>, pending: seq<Frame>, got': seq<Frame>, pending': seq<Frame>) {
    (got' == got && (pending' == pending || pending' == [])) || (got' == got + pending && pending' == [])
  }

  lemma UsesUpTwice(g1: seq<Frame>, p1: seq<Frame>, g2: seq<Frame>, p2: seq<Frame>, g3: seq<Frame>, p3: seq<Frame>)
    requires UsesUp(g1, p1, g2, p2) && UsesUp(g2, p2, g3, p3)
    ensures UsesUp(g1, p1, g3, p3)
  {
    assert g2 + [] == g2;
  }

  lemma GotAfter(s: State, e: Event, b: nat)
    requires Enabled(s, e) && b in s.handlers
    ensures HandlersAfter(s, e)[b].got == s.handlers[b].got
            + if e.WriteOut? && e.ok && s.handlers[e.h].pc.b == b then [s.handlers[e.h].frames[|s.handlers[e.h].fate|]] else []
  {
  }

  lemma PendingNext(s: State, e: Event, b: nat, d: nat)
    requires Enabled(s, e) && b in s.cancelled && d in s.handlers && RecordsOk(s.handlers[d]) && ControlOk(s.handlers[d])
    ensures Pending(HandlersAfter(s, e), d, b) == if e.h == d && e.WriteOut? then [] else Pending(s.handlers, d, b)
  {
  }

  lemma StepAfterCancel(s: State, e: Event, b: nat, d: nat)
    requires ControlsOk(s) && DeliveryOk(s.handlers, s.writers) && Enabled(s, e)
    requires b in s.cancelled && Targets(s.handlers, b, d)
    ensures var h, h' := s.handlers, HandlersAfter(s, e);
      b in h' && UsesUp(h[b].got, Pending(h, d, b), h'[b].got, Pending(h', d, b))
  {
    assert GotOk(s.handlers, b) && RecordsOk(s.handlers[d]) && ControlOk(s.handlers[d]);
    GotAfter(s, e, b);
    PendingNext(s, e, b, d);
    if e.WriteOut? && e.ok && s.handlers[e.h].pc.b == b {
      WritesForTarget(s, e);
    } else {
      assert s.handlers[b].got + [] == s.handlers[b].got;
    }
  }

  lemma WritesForTarget(s: State, e: Event)
    requires DeliveryOk(s.handlers, s.writers) && Enabled(s, e) && e.WriteOut?
    ensures Targets(s.handlers, s.handlers[e.h].pc.b, e.h)
  {
    assert RecordsOk(s.handlers[e.h]) && ReadersOk(s.handlers, e.h);
  }

  lemma StaysTarget(s: State, e: Event, b: nat, d: nat)
    requires ControlsOk(s) && DeliveryOk(s.handlers, s.writers) && Enabled(s, e) && b in s.cancelled && Targets(s.handlers, b, d)
    ensures b in Next(s, e).cancelled && Targets(HandlersAfter(s, e), b, d)
  {
    assert RecordsOk(s.handlers[b]);
  }

  /** After the deferred cancel of a bridge's handler its daemon's frames still reach it only if the
      daemon handler was past its look at the context by then: that one frame, and no other. */
  lemma {:induction false} AfterCancel(s1: State, es: seq<Event>, s2: State, b: nat, d: nat)
    requires Inv(s1) && Run(s1, es, s2) && b in s1.cancelled && Targets(s1.handlers, b, d)
    ensures b in s2.handlers
    ensures UsesUp(s1.handlers[b].got, Pending(s1.handlers, d, b), s2.handlers[b].got, Pending(s2.handlers, d, b))
    decreases |es|
  {
    if es != [] {
      StepAfterCancel(s1, es[0], b, d);
      StaysTarget(s1, es[0], b, d);
      StepKeepsInv(s1, es[0]);
      var s' := Next(s1, es[0]);
      AfterCancel(s', es[1..], s2, b, d);
      UsesUpTwice(s1.handlers[b].got, Pending(s1.handlers, d, b), s'.handlers[b].got, Pending(s'.handlers, d, b),
                  s2.handlers[b].got, Pending(s2.handlers, d, b));
    }
  }

  /** In every reachable state: at most one more frame after the cancel, and it is the one its daemon's
      handler had on the way. */
  lemma AtMostOneAfterCancel(s1: State, es: seq<Event>, s2: State, b: nat)
    requires Reachable(s1) && Run(s1, es, s2) && b in s1.cancelled && b in s1.handlers
    ensures b in s2.handlers
    ensures || s2.handlers[b].got == s1.handlers[b].got
            || exists d :: Targets(s1.handlers, b, d) && Pending(s1.handlers, d, b) != []
                           && s2.handlers[b].got == s1.handlers[b].got + Pending(s1.handlers, d, b)
  {
    ReachableInv(s1);
    var d := s1.handlers[b].proxy.value;
    AfterCancel(s1, es, s2, b, d);
    assert s1.handlers[b].got + [] == s1.handlers[b].got;
  }

  lemma {:induction false} RunOneMore(s1: State, es: seq<Event>, s2: State, e: Event)
    requires Run(s1, es, s2) && Enabled(s2, e)
    ensures Run(s1, es + [e], Next(s2, e))
    decreases |es|
  {
    if es == [] {
      assert (es + [e])[1..] == [];
    } else {
      RunOneMore(Next(s1, es[0]), es[1..], s2, e);
      assert (es + [e])[1..] == es[1..] + [e];
    }
  }

  // A step whose outcome is spelled out.
  lemma Reaches(s: State, e: Event, x: Handler, t: State)
    requires Reachable(s) && Enabled(s, e) && !e.WriteOut? && Actor(s, e) == x
    requires t.handlers == s.handlers[e.h := x] && t.registry == RegistryAfter(s, e) && t.table == TableAfter(s, e)
    requires t.next == (if e.EnterTable? then s.next + 1 else s.next) && t.writers == WritersAfter(s, e)
    requires t.cancelled == (if Popped(s, e) == Some(Cancel) then s.cancelled + {e.h} else s.cancelled)
    requires t.audit == AuditAfter(s, e) && t.relayed == s.relayed && !e.Relay?
    ensures Reachable(t)
  {
    var es :| Run(INITIAL, es, s);
    RunOneMore(INITIAL, es, s, e);
    assert t == Next(s, e);
  }

  ghost function With(s: State, h: nat, x: Handler): State {
    s.(handlers := s.handlers[h := x])
  }

  lemma Receives(s: State, d: nat, f: Frame)
    requires Reachable(s) && d in s.handlers && s.handlers[d].role == Daemon && s.handlers[d].pc == Live
    ensures Reachable(With(s, d, s.handlers[d].(pc := Held(f), frames := s.handlers[d].frames + [f])))
  {
    var x := s.handlers[d];
    assert x.defers + [] == x.defers;
    Reaches(s, Recv(d, f), x.(pc := Held(f), frames := x.frames + [f]), With(s, d, x.(pc := Held(f), frames := x.frames + [f])));
  }

  lemma ReadsWriter(s: State, d: nat)
    requires Reachable(s) && d in s.handlers && s.handlers[d].role == Daemon && s.handlers[d].pc.Held? && d in s.writers
    ensures var x, w := s.handlers[d], Some(s.writers[d]);
      Reachable(With(s, d, x.(pc := Delivering(w), readers := x.readers + [w])))
  {
    var x, w := s.handlers[d], Some(s.writers[d]);
    assert x.defers + [] == x.defers;
    var x' := x.(pc := Delivering(w), readers := x.readers + [w]);
    Reaches(s, ReadWriter(d), x', With(s, d, x'));
  }

  lemma ChecksContext(s: State, d: nat, b: nat)
    requires Reachable(s) && d in s.handlers && s.handlers[d].role == Daemon && s.handlers[d].pc == Delivering(Some(b))
    requires b !in s.cancelled
    ensures Reachable(With(s, d, s.handlers[d].(pc := Writing(b))))
  {
    var x := s.handlers[d];
    assert x.defers + [] == x.defers;
    Reaches(s, CheckContext(d), x.(pc := Writing(b)), With(s, d, x.(pc := Writing(b))));
  }

  // A daemon's frame gets as far as the bridge's Send.
  lemma FrameOnItsWay(s: State, d: nat, f: Frame)
    requires Reachable(s) && d in s.handlers && s.handlers[d].role == Daemon && s.handlers[d].pc == Live
    requires d in s.writers && s.writers[d] !in s.cancelled
    ensures var x, b := s.handlers[d], s.writers[d];
      Reachable(With(s, d, x.(pc := Writing(b), frames := x.frames + [f], readers := x.readers + [Some(b)])))
  {
    var x, b := s.handlers[d], s.writers[d];
    Receives(s, d, f);
    var s1 := With(s, d, x.(pc := Held(f), frames := x.frames + [f]));
    ReadsWriter(s1, d);
    var s2 := With(s1, d, s1.handlers[d].(pc := Delivering(Some(b)), readers := x.readers + [Some(b)]));
    ChecksContext(s2, d, b);
    var s3 := With(s2, d, s2.handlers[d].(pc := Writing(b)));
    assert s3.handlers == s.handlers[d := s3.handlers[d]];
  }

  lemma Fails(s: State, b: nat)
    requires Reachable(s) && b in s.handlers && s.handlers[b].pc == Live
    ensures Reachable(With(s, b, s.handlers[b].(pc := Exiting)))
  {
    var x := s.handlers[b];
    assert x.defers + [] == x.defers;
    Reaches(s, Fail(b), x.(pc := Exiting), With(s, b, x.(pc := Exiting)));
  }

  lemma ClearsWriter(s: State, b: nat)
    requires Reachable(s) && b in s.handlers && s.handlers[b].pc == Exiting && s.handlers[b].defers == AllDefers(Bridge)
    requires s.handlers[b].proxy.Some?
    ensures var x := s.handlers[b];
      Reachable(With(s, b, x.(defers := [Release, LogClose, Cancel])).(writers := s.writers - {x.proxy.value}))
  {
    var x := s.handlers[b];
    var x' := x.(defers := [Release, LogClose, Cancel]);
    assert AllDefers(Bridge)[..3] == [Release, LogClose, Cancel];
    Reaches(s, Unwind(b), x', With(s, b, x').(writers := s.writers - {x.proxy.value}));
  }

  lemma Cancels(s: State, b: nat)
    requires Reachable(s) && b in s.handlers && s.handlers[b].pc == Exiting
    requires s.handlers[b].defers == [Release, LogClose, Cancel]
    ensures Reachable(With(s, b, s.handlers[b].(defers := [Release, LogClose])).(cancelled := s.cancelled + {b}))
  {
    var x' := s.handlers[b].(defers := [Release, LogClose]);
    assert [Release, LogClose, Cancel][..2] == [Release, LogClose];
    Reaches(s, Unwind(b), x', With(s, b, x').(cancelled := s.cancelled + {b}));
  }

  // A bridge's read loop ends, and its deferred actions run up to the cancel.
  lemma Leaves(s: State, b: nat)
    requires Reachable(s) && b in s.handlers && s.handlers[b].pc == Live && s.handlers[b].defers == AllDefers(Bridge)
    requires s.handlers[b].proxy.Some?
    ensures var x := s.handlers[b];
      Reachable(With(s, b, x.(pc := Exiting, defers := [Release, LogClose]))
                  .(writers := s.writers - {x.proxy.value}, cancelled := s.cancelled + {b}))
  {
    var x, d := s.handlers[b], s.handlers[b].proxy.value;
    var x1, x2 := x.(pc := Exiting), x.(pc := Exiting, defers := [Release, LogClose, Cancel]);
    Fails(s, b);
    ClearsWriter(With(s, b, x1), b);
    WithTwice(s, b, x1, x2);
    var s2 := With(s, b, x2).(writers := s.writers - {d});
    Cancels(s2, b);
    WithTwice(s.(writers := s.writers - {d}), b, x2, x2.(defers := [Release, LogClose]));
  }

  lemma WithTwice(s: State, h: nat, x: Handler, y: Handler)
    ensures With(With(s, h, x), h, y) == With(s, h, y)
  {
  }

  // Both are in their read loops, and the daemon's frames go to the bridge.
  ghost predicate Served(s: State, d: nat, b: nat) {
    && d in s.handlers && s.handlers[d].role == Daemon && s.handlers[d].pc == Live
    && d in s.writers && s.writers[d] == b && b in s.handlers && s.handlers[b].pc == Live && b !in s.cancelled
  }

  // The bridge fails while a frame is on its way, and its deferred actions run up to the cancel.
  ghost function CancelledFirst(s: State, d: nat, b: nat, f: Frame): State
    requires Served(s, d, b)
  {
    var x := s.handlers[d];
    State(s.handlers[d := x.(pc := Writing(b), frames := x.frames + [f], readers := x.readers + [Some(b)])]
                    [b := s.handlers[b].(pc := Exiting, defers := [Release, LogClose])],
          s.registry, s.table, s.next, s.writers - {d}, s.cancelled + {b}, s.audit, s.relayed)
  }

  /** The bound is met wherever a bridge is served: from any such state a run leads to one in which the
      bridge's deferred cancel has run, and yet the next step writes a frame to it. */
  lemma OneAfterCancelHappens(s: State, d: nat, b: nat, f: Frame)
    requires Reachable(s) && Served(s, d, b)
    ensures var s1 := CancelledFirst(s, d, b, f);
      && Reachable(s1) && b in s1.cancelled && Enabled(s1, WriteOut(d, true))
      && Next(s1, WriteOut(d, true)).handlers[b].got == s1.handlers[b].got + [f]
  {
    ReachableInv(s);
    assert Targets(s.handlers, b, d) && ControlOk(s.handlers[b]) && RecordsOk(s.handlers[d]);
    FrameOnItsWay(s, d, f);
    var x := s.handlers[d];
    var s1 := With(s, d, x.(pc := Writing(b), frames := x.frames + [f], readers := x.readers + [Some(b)]));
    Leaves(s1, b);
  }

  // ---------- a bridge being served ----------

  ghost function DaemonAt(name: Name, pc: Pc, defers: seq<Deferred>): Handler {
    Handler(Daemon, name, name, pc, defers, 0, None, [], [], [], [])
  }

  ghost function BridgeAt(me: Name, name: Name, pc: Pc, defers: seq<Deferred>, proxy: Option<nat>): Handler {
    Handler(Bridge, me, name, pc, defers, if pc == Authed then 0 else 1, proxy, [], [], [], [])
  }

  lemma DaemonRegistered(name: Name)
    ensures Reachable(State(map[0 := DaemonAt(name, Registered, [Unregister])], map[name := 0], map[], 0, map[], {}, [], []))
  {
    assert Run(INITIAL, [], INITIAL);
    var s1 := INITIAL.(handlers := map[0 := DaemonAt(name, Authed, [])]);
    Reaches(INITIAL, Connect(0, Daemon, name, name), DaemonAt(name, Authed, []), s1);
    assert [] + [Unregister] == [Unregister];
    var s2 := State(map[0 := DaemonAt(name, Registered, [Unregister])], map[name := 0], map[], 0, map[], {}, [], []);
    Reaches(s1, RegisterProxy(0), DaemonAt(name, Registered, [Unregister]), s2);
  }

  ghost function Online(name: Name): State {
    State(map[0 := DaemonAt(name, Live, AllDefers(Daemon))], map[name := 0], map[0 := Session(Daemon, name, 0, 0)], 1,
          map[], {}, [AuthOk(Daemon, name)], [])
  }

  lemma DaemonOnline(name: Name)
    ensures Reachable(Online(name))
  {
    DaemonRegistered(name);
    var s := State(map[0 := DaemonAt(name, Registered, [Unregister])], map[name := 0], map[], 0, map[], {}, [], []);
    assert [Unregister] + [Release] == [Unregister, Release];
    var s1 := s.(handlers := map[0 := DaemonAt(name, Tabled, [Unregister, Release])],
                 table := map[0 := Session(Daemon, name, 0, 0)], next := 1);
    Reaches(s, EnterTable(0, None), DaemonAt(name, Tabled, [Unregister, Release]), s1);
    assert [Unregister, Release] + [LogClose] == AllDefers(Daemon);
    assert [] + [AuthOk(Daemon, name)] == [AuthOk(Daemon, name)];
    Reaches(s1, LogAuth(0), DaemonAt(name, Live, AllDefers(Daemon)), Online(name));
  }

  // The bridge's handler has got this far, and has entered the table if it is past authentication.
  ghost function BridgeJoined(me: Name, name: Name, x: Handler): State {
    Online(name).(handlers := Online(name).handlers[1 := x], next := 2,
                  table := Online(name).table[1 := Session(Bridge, me, 0, 1)])
  }

  lemma BridgeConnected(me: Name, name: Name)
    ensures Reachable(With(Online(name), 1, BridgeAt(me, name, Authed, [], None)))
  {
    DaemonOnline(name);
    var x := BridgeAt(me, name, Authed, [], None);
    Reaches(Online(name), Connect(1, Bridge, me, name), x, With(Online(name), 1, x));
  }

  lemma BridgeTabled(me: Name, name: Name)
    ensures Reachable(BridgeJoined(me, name, BridgeAt(me, name, Tabled, [Release], None)))
  {
    BridgeConnected(me, name);
    var x, y := BridgeAt(me, name, Authed, [], None), BridgeAt(me, name, Tabled, [Release], None);
    var s := With(Online(name), 1, x);
    assert IsVictim(s.table, Own(1, x), None);
    assert [] + [Release] == [Release];
    assert s.handlers[1 := y] == BridgeJoined(me, name, y).handlers;
    Reaches(s, EnterTable(1, None), y, BridgeJoined(me, name, y));
  }

  ghost function BridgeLogged(me: Name, name: Name, x: Handler): State {
    BridgeJoined(me, name, x).(audit := [AuthOk(Daemon, name), AuthOk(Bridge, me)])
  }

  lemma BridgePast(me: Name, name: Name)
    ensures Reachable(BridgeLogged(me, name, BridgeAt(me, name, Past, [Release, LogClose], None)))
  {
    BridgeTabled(me, name);
    var x, y := BridgeAt(me, name, Tabled, [Release], None), BridgeAt(me, name, Past, [Release, LogClose], None);
    var s := BridgeJoined(me, name, x);
    assert [Release] + [LogClose] == [Release, LogClose];
    assert [AuthOk(Daemon, name)] + [AuthOk(Bridge, me)] == BridgeLogged(me, name, y).audit;
    assert s.handlers[1 := y] == BridgeLogged(me, name, y).handlers;
    Reaches(s, LogAuth(1), y, BridgeLogged(me, name, y));
  }

  lemma BridgeFound(me: Name, name: Name)
    ensures Reachable(BridgeLogged(me, name, BridgeAt(me, name, Found, [Release, LogClose], Some(0))))
  {
    BridgePast(me, name);
    var x, y := BridgeAt(me, name, Past, [Release, LogClose], None), BridgeAt(me, name, Found, [Release, LogClose], Some(0));
    var s := BridgeLogged(me, name, x);
    assert x.defers + [] == x.defers;
    assert s.handlers[1 := y] == BridgeLogged(me, name, y).handlers;
    Reaches(s, Lookup(1), y, BridgeLogged(me, name, y));
  }

  /** Such states are reached: a daemon, and a bridge of any name that asks for it, connect one after the
      other. */
  lemma SomeBridgeIsServed(me: Name, name: Name)
    ensures exists s :: Reachable(s) && Served(s, 0, 1) && s.handlers[1].name == me && s.handlers[1].target == name
                        && s.handlers[0].name == name
  {
    BridgeFound(me, name);
    var x, y := BridgeAt(me, name, Found, [Release, LogClose], Some(0)), BridgeAt(me, name, Live, AllDefers(Bridge), Some(0));
    var s := BridgeLogged(me, name, x);
    assert [Release, LogClose] + [Cancel, ClearWriter] == AllDefers(Bridge);
    var t := With(s, 1, y).(writers := map[0 := 1]);
    Reaches(s, Subscribe(1), y, t);
    assert Served(t, 0, 1);
  }
}
