/** What every run of the gateway's handlers keeps: who owns what, the audit ledger, and which bridge
    is sent which daemon frame. */
module GatewayRuns {
  import opened Wrappers
  import opened Sessions
  import opened Gateway

  // ---------- the audit ledger ----------

  ghost function Balance(audit: seq<Record>, role: Role, name: Name): int {
    if audit == [] then 0
    else
      var r := audit[|audit| - 1];
      Balance(audit[..|audit| - 1], role, name)
      + if r == AuthOk(role, name) then 1 else if r == ConnClose(role, name) then -1 else 0
  }

  // The handlers of this role and name that are past authentication and have not closed yet.
  ghost function Connected(handlers: map<nat, Handler>, role: Role, name: Name): set<nat> {
    set h | h in handlers && handlers[h].role == role && handlers[h].name == name && LogClose in handlers[h].defers
  }

  ghost predicate LedgerOk(handlers: map<nat, Handler>, audit: seq<Record>) {
    forall role, name :: Balance(audit, role, name) == |Connected(handlers, role, name)|
  }

  lemma BalanceAppend(audit: seq<Record>, r: Record, role: Role, name: Name)
    ensures Balance(audit + [r], role, name) == Balance(audit, role, name)
            + if r == AuthOk(role, name) then 1 else if r == ConnClose(role, name) then -1 else 0
  {
    assert (audit + [r])[..|audit|] == audit;
  }

  lemma SizeAfter(a: set<nat>, b: set<nat>, x: nat)
    requires forall k :: k != x ==> (k in a <==> k in b)
    ensures |b| == |a| + (if x in b then 1 else 0) - (if x in a then 1 else 0)
  {
    var rest := a - {x};
    assert a == if x in a then rest + {x} else rest;
    assert b == if x in b then rest + {x} else rest;
  }

  lemma ConnectedAfter(h: map<nat, Handler>, h': map<nat, Handler>, actor: nat, before: bool, after: bool,
                       role: Role, name: Name)
    requires Changes(h, h', actor, LogClose, before, after)
    ensures var mine := h'[actor].role == role && h'[actor].name == name;
      |Connected(h', role, name)| == |Connected(h, role, name)|
        + (if mine && after then 1 else 0) - (if mine && before then 1 else 0)
  {
    var was, now := Connected(h, role, name), Connected(h', role, name);
    forall k: nat | k != actor
      ensures k in was <==> k in now
    {
      if k in h {
        assert SameControl(h[k], h'[k]);
      }
    }
    SizeAfter(was, now, actor);
  }

  // The records a step appends match what it does to the pending conn_close.
  lemma BalanceAfter(s: State, e: Event, role: Role, name: Name)
    requires ControlsOk(s) && Enabled(s, e)
    ensures var mine := Actor(s, e).role == role && Actor(s, e).name == name;
      Balance(AuditAfter(s, e), role, name) == Balance(s.audit, role, name)
        + (if mine && LogClose in Actor(s, e).defers then 1 else 0)
        - (if mine && e.h in s.handlers && LogClose in s.handlers[e.h].defers then 1 else 0)
  {
    PendingRecord(s, e);
    if Logged(s, e).Some? {
      BalanceAppend(s.audit, Logged(s, e).value, role, name);
    }
  }

  // Whether a conn_close is pending changes with the records only.
  lemma PendingRecord(s: State, e: Event)
    requires ControlsOk(s) && Enabled(s, e)
    ensures var me := Actor(s, e);
      match Logged(s, e)
      case Some(AuthOk(r, n)) => r == me.role && n == me.name && LogClose in me.defers
                                 && (e.h in s.handlers ==> LogClose !in s.handlers[e.h].defers)
      case Some(ConnClose(r, n)) => r == me.role && n == me.name && LogClose !in me.defers
                                    && e.h in s.handlers && LogClose in s.handlers[e.h].defers
      case _ => LogClose in me.defers <==> e.h in s.handlers && LogClose in s.handlers[e.h].defers
  {
    if !e.Connect? {
      PendingAfter(s, e, LogClose);
      if e.LogAuth? {
        assert ControlOk(s.handlers[e.h]);
        PendingIsCount(s.handlers[e.h]);
      }
    }
  }

  lemma LedgerStep(s: State, e: Event)
    requires ControlsOk(s) && LedgerOk(s.handlers, s.audit) && Enabled(s, e)
    ensures LedgerOk(HandlersAfter(s, e), AuditAfter(s, e))
  {
    ChangesBy(s, e, LogClose);
    OthersKeepControl(s, e);
    forall role, name
      ensures Balance(AuditAfter(s, e), role, name) == |Connected(HandlersAfter(s, e), role, name)|
    {
      BalanceAfter(s, e, role, name);
      ConnectedAfter(s.handlers, HandlersAfter(s, e), e.h, e.h in s.handlers && LogClose in s.handlers[e.h].defers,
                     LogClose in Actor(s, e).defers, role, name);
    }
  }

  // ---------- delivery ----------

  // The frames whose recorded recipient is b, in order.
  ghost function Selected(frames: seq<Frame>, fate: seq<Option<nat>>, b: nat): seq<Frame>
    requires |fate| <= |frames|
  {
    if fate == [] then []
    else
      var k := |fate| - 1;
      Selected(frames, fate[..k], b) + if fate[k] == Some(b) then [frames[k]] else []
  }

  ghost predicate Targets(handlers: map<nat, Handler>, b: nat, d: nat) {
    b in handlers && handlers[b].role == Bridge && handlers[b].proxy == Some(d)
  }

  // How far a handler's three records have got.
  ghost predicate RecordsOk(x: Handler) {
    && (match x.pc
        case Held(_) => |x.readers| == |x.fate| && |x.frames| == |x.fate| + 1
        case Delivering(w) => |x.readers| == |x.frames| == |x.fate| + 1 && x.readers[|x.fate|] == w
        case Writing(b) => |x.readers| == |x.frames| == |x.fate| + 1 && x.readers[|x.fate|] == Some(b)
        case _ => |x.readers| == |x.frames| == |x.fate|)
    && (forall k :: 0 <= k < |x.fate| && x.fate[k].Some? ==> x.fate[k] == x.readers[k])
    && (x.role == Bridge ==> x.frames == [])
    && (x.pc in {Authed, Registered, Tabled, Past} ==> x.proxy == None)
  }

  ghost predicate ReadersOk(handlers: map<nat, Handler>, d: nat)
    requires d in handlers
  {
    forall k :: 0 <= k < |handlers[d].readers| && handlers[d].readers[k].Some? ==>
      Targets(handlers, handlers[d].readers[k].value, d)
  }

  ghost predicate GotOk(handlers: map<nat, Handler>, b: nat)
    requires b in handlers
  {
    match handlers[b].proxy
    case None => handlers[b].got == []
    case Some(d) =>
      && d in handlers && handlers[d].role == Daemon && |handlers[d].fate| <= |handlers[d].frames|
      && handlers[b].got == Selected(handlers[d].frames, handlers[d].fate, b)
  }

  ghost predicate AllRecordsOk(handlers: map<nat, Handler>) {
    forall h :: h in handlers ==> RecordsOk(handlers[h])
  }

  ghost predicate AllReadersOk(handlers: map<nat, Handler>) {
    forall h :: h in handlers ==> ReadersOk(handlers, h)
  }

  ghost predicate AllGotOk(handlers: map<nat, Handler>) {
    forall h :: h in handlers ==> GotOk(handlers, h)
  }

  ghost predicate WritersOk(handlers: map<nat, Handler>, writers: map<nat, nat>) {
    forall d :: d in writers ==> Targets(handlers, writers[d], d)
  }

  ghost predicate DeliveryOk(handlers: map<nat, Handler>, writers: map<nat, nat>) {
    AllRecordsOk(handlers) && AllReadersOk(handlers) && AllGotOk(handlers) && WritersOk(handlers, writers)
  }

  lemma SelectedNone(frames: seq<Frame>, fate: seq<Option<nat>>, b: nat)
    requires |fate| <= |frames| && Some(b) !in fate
    ensures Selected(frames, fate, b) == []
  {
  }

  lemma SelectedMoreFrames(frames: seq<Frame>, f: Frame, fate: seq<Option<nat>>, b: nat)
    requires |fate| <= |frames|
    ensures Selected(frames + [f], fate, b) == Selected(frames, fate, b)
  {
  }

  lemma SelectedAppend(frames: seq<Frame>, fate: seq<Option<nat>>, r: Option<nat>, b: nat)
    requires |fate| < |frames|
    ensures Selected(frames, fate + [r], b) == Selected(frames, fate, b) + if r == Some(b) then [frames[|fate|]] else []
  {
    assert (fate + [r])[..|fate|] == fate;
  }

  // What delivery depends on.
  ghost predicate SameTraffic(x: Handler, y: Handler) {
    && x.role == y.role && x.proxy == y.proxy && x.got == y.got
    && x.frames == y.frames && x.readers == y.readers && x.fate == y.fate
  }

  ghost predicate AllSameTraffic(h: map<nat, Handler>, h': map<nat, Handler>) {
    h.Keys == h'.Keys && forall k :: k in h ==> SameTraffic(h[k], h'[k])
  }

  lemma QuietGot(h: map<nat, Handler>, h': map<nat, Handler>)
    requires AllSameTraffic(h, h') && AllGotOk(h)
    ensures AllGotOk(h')
  {
    forall k | k in h'
      ensures GotOk(h', k)
    {
      assert GotOk(h, k) && SameTraffic(h[k], h'[k]);
    }
  }

  lemma QuietReaders(h: map<nat, Handler>, h': map<nat, Handler>)
    requires AllSameTraffic(h, h') && AllReadersOk(h)
    ensures AllReadersOk(h')
  {
    forall k | k in h'
      ensures ReadersOk(h', k)
    {
      assert ReadersOk(h, k) && SameTraffic(h[k], h'[k]);
    }
  }

  lemma QuietStep(h: map<nat, Handler>, h': map<nat, Handler>, w: map<nat, nat>, w': map<nat, nat>)
    requires DeliveryOk(h, w) && AllSameTraffic(h, h') && AllRecordsOk(h') && WritersOk(h, w')
    ensures DeliveryOk(h', w')
  {
    QuietGot(h, h');
    QuietReaders(h, h');
    forall d | d in w'
      ensures Targets(h', w'[d], d)
    {
      assert Targets(h, w'[d], d);
    }
  }

  lemma ConnectStep(h: map<nat, Handler>, w: map<nat, nat>, n: nat, x: Handler)
    requires DeliveryOk(h, w) && n !in h && RecordsOk(x) && x.proxy == None && x.got == [] && x.readers == []
    ensures DeliveryOk(h[n := x], w)
  {
    var h' := h[n := x];
    forall k | k in h'
      ensures ReadersOk(h', k) && GotOk(h', k)
    {
      assert k in h ==> ReadersOk(h, k) && GotOk(h, k);
    }
  }

  // A bridge that looks up a proxy has not been sent anything yet.
  lemma LookupStep(h: map<nat, Handler>, w: map<nat, nat>, b: nat, x: Handler, d: nat)
    requires DeliveryOk(h, w) && b in h && h[b].role == Bridge && h[b].proxy == None
    requires d in h && h[d].role == Daemon && SameTraffic(x, h[b].(proxy := Some(d))) && RecordsOk(x)
    ensures DeliveryOk(h[b := x], w)
  {
    var h' := h[b := x];
    assert RecordsOk(h[d]) && ReadersOk(h, d) && GotOk(h, b);
    assert Some(b) !in h[d].fate;
    SelectedNone(h[d].frames, h[d].fate, b);
    forall k | k in h'
      ensures ReadersOk(h', k) && GotOk(h', k)
    {
      assert ReadersOk(h, k) && GotOk(h, k);
      assert forall j :: 0 <= j < |h[k].readers| && h[k].readers[j].Some? ==> h[k].readers[j].value != b;
    }
  }

  lemma RecvStep(h: map<nat, Handler>, w: map<nat, nat>, d: nat, x: Handler, f: Frame)
    requires DeliveryOk(h, w) && d in h && RecordsOk(x)
    requires SameTraffic(x, h[d].(frames := h[d].frames + [f]))
    ensures DeliveryOk(h[d := x], w)
  {
    var h' := h[d := x];
    assert RecordsOk(h[d]);
    forall k | k in h'
      ensures ReadersOk(h', k) && GotOk(h', k)
    {
      assert ReadersOk(h, k) && GotOk(h, k);
      if h[k].proxy == Some(d) {
        SelectedMoreFrames(h[d].frames, f, h[d].fate, k);
      }
    }
  }

  lemma ReadStep(h: map<nat, Handler>, w: map<nat, nat>, d: nat, x: Handler, r: Option<nat>)
    requires DeliveryOk(h, w) && d in h && RecordsOk(x) && (r.Some? ==> Targets(h, r.value, d))
    requires SameTraffic(x, h[d].(readers := h[d].readers + [r]))
    ensures DeliveryOk(h[d := x], w)
  {
    var h' := h[d := x];
    forall k | k in h'
      ensures ReadersOk(h', k) && GotOk(h', k)
    {
      ReadReaders(h, d, x, r, k);
      assert GotOk(h, k);
    }
  }

  lemma ReadReaders(h: map<nat, Handler>, d: nat, x: Handler, r: Option<nat>, k: nat)
    requires AllReadersOk(h) && d in h && k in h && (r.Some? ==> Targets(h, r.value, d))
    requires SameTraffic(x, h[d].(readers := h[d].readers + [r]))
    ensures ReadersOk(h[d := x], k)
  {
    assert ReadersOk(h, k);
  }

  // The handlers after d has dealt with its oldest undelivered frame, sending it to r if anyone.
  ghost function Handed(h: map<nat, Handler>, d: nat, x: Handler, r: Option<nat>): map<nat, Handler>
    requires d in h && (r.Some? ==> r.value in h) && |h[d].fate| < |h[d].frames|
  {
    if r.Some? then h[d := x][r.value := h[r.value].(got := h[r.value].got + [h[d].frames[|h[d].fate|]])] else h[d := x]
  }

  lemma HandedTargets(h: map<nat, Handler>, d: nat, x: Handler, r: Option<nat>, b: nat, j: nat)
    requires d in h && (r.Some? ==> r.value in h && r.value != d) && |h[d].fate| < |h[d].frames|
    requires SameTraffic(x, h[d].(fate := h[d].fate + [r]))
    ensures Targets(Handed(h, d, x, r), b, j) <==> Targets(h, b, j)
  {
  }

  lemma HandedGot(h: map<nat, Handler>, d: nat, x: Handler, r: Option<nat>)
    requires AllGotOk(h) && d in h && |h[d].fate| < |h[d].frames|
    requires r.Some? ==> Targets(h, r.value, d) && r.value != d && h[d].role == Daemon
    requires SameTraffic(x, h[d].(fate := h[d].fate + [r]))
    ensures AllGotOk(Handed(h, d, x, r))
  {
    forall k | k in Handed(h, d, x, r)
      ensures GotOk(Handed(h, d, x, r), k)
    {
      HandedOneGot(h, d, x, r, k);
    }
  }

  lemma HandedOneGot(h: map<nat, Handler>, d: nat, x: Handler, r: Option<nat>, k: nat)
    requires AllGotOk(h) && d in h && |h[d].fate| < |h[d].frames|
    requires r.Some? ==> Targets(h, r.value, d) && r.value != d && h[d].role == Daemon
    requires SameTraffic(x, h[d].(fate := h[d].fate + [r])) && k in h
    ensures GotOk(Handed(h, d, x, r), k)
  {
    var h' := Handed(h, d, x, r);
    assert GotOk(h, k);
    if h[k].proxy == Some(d) {
      SelectedAppend(h[d].frames, h[d].fate, r, k);
    } else if h[k].proxy.Some? {
      var j := h[k].proxy.value;
      assert h'[j].frames == h[j].frames && h'[j].fate == h[j].fate;
    }
  }

  lemma HandedReaders(h: map<nat, Handler>, d: nat, x: Handler, r: Option<nat>)
    requires AllReadersOk(h) && d in h && |h[d].fate| < |h[d].frames|
    requires r.Some? ==> r.value in h && r.value != d
    requires SameTraffic(x, h[d].(fate := h[d].fate + [r]))
    ensures AllReadersOk(Handed(h, d, x, r))
  {
    var h' := Handed(h, d, x, r);
    forall k | k in h'
      ensures ReadersOk(h', k)
    {
      assert ReadersOk(h, k);
      forall i | 0 <= i < |h'[k].readers| && h'[k].readers[i].Some?
        ensures Targets(h', h'[k].readers[i].value, k)
      {
        HandedTargets(h, d, x, r, h'[k].readers[i].value, k);
      }
    }
  }

  lemma DeliverStep(h: map<nat, Handler>, w: map<nat, nat>, d: nat, x: Handler, r: Option<nat>)
    requires DeliveryOk(h, w) && d in h && RecordsOk(x) && |h[d].fate| < |h[d].frames|
    requires r.Some? ==> Targets(h, r.value, d) && r.value != d && h[d].role == Daemon
    requires SameTraffic(x, h[d].(fate := h[d].fate + [r]))
    ensures DeliveryOk(Handed(h, d, x, r), w)
  {
    HandedGot(h, d, x, r);
    HandedReaders(h, d, x, r);
    var h' := Handed(h, d, x, r);
    forall k | k in h'
      ensures RecordsOk(h'[k])
    {
      assert RecordsOk(h[k]);
    }
    forall j | j in w
      ensures Targets(h', w[j], j)
    {
      HandedTargets(h, d, x, r, w[j], j);
    }
  }

  lemma ActorKeepsRecords(s: State, e: Event)
    requires ControlsOk(s) && AllRecordsOk(s.handlers) && Enabled(s, e)
    ensures RecordsOk(Actor(s, e))
  {
    if !e.Connect? {
      assert ControlOk(s.handlers[e.h]) && RecordsOk(s.handlers[e.h]);
      if e.CheckContext? || e.WriteOut? {
        FateKeepsRecords(s, e);
      }
    }
  }

  lemma FateKeepsRecords(s: State, e: Event)
    requires Enabled(s, e) && (e.CheckContext? || e.WriteOut?) && RecordsOk(s.handlers[e.h])
    ensures RecordsOk(Actor(s, e))
  {
    var me, x := s.handlers[e.h], Actor(s, e);
    assert x.fate[..|me.fate|] == me.fate;
  }

  // Writers are installed by their own bridge, on the proxy it looked up.
  lemma WritersStep(s: State, e: Event)
    requires ControlsOk(s) && WritersOk(s.handlers, s.writers) && Enabled(s, e)
    ensures WritersOk(s.handlers, WritersAfter(s, e))
  {
  }

  // The steps that move no frame.
  lemma IdleStep(s: State, e: Event)
    requires ControlsOk(s) && DeliveryOk(s.handlers, s.writers) && Enabled(s, e)
    requires e.RegisterProxy? || e.EnterTable? || e.LogAuth? || e.Subscribe? || e.Relay? || e.Fail? || e.Unwind?
    ensures DeliveryOk(HandlersAfter(s, e), WritersAfter(s, e))
  {
    ActorKeepsRecords(s, e);
    WritersStep(s, e);
    IdleTraffic(s, e);
    QuietStep(s.handlers, HandlersAfter(s, e), s.writers, WritersAfter(s, e));
  }

  lemma IdleTraffic(s: State, e: Event)
    requires ControlsOk(s) && AllRecordsOk(s.handlers) && Enabled(s, e) && RecordsOk(Actor(s, e))
    requires e.RegisterProxy? || e.EnterTable? || e.LogAuth? || e.Subscribe? || e.Relay? || e.Fail? || e.Unwind?
    ensures AllSameTraffic(s.handlers, HandlersAfter(s, e)) && AllRecordsOk(HandlersAfter(s, e))
  {
    assert SameTraffic(s.handlers[e.h], Actor(s, e)) by {
      IdleActor(s, e);
    }
    assert HandlersAfter(s, e) == s.handlers[e.h := Actor(s, e)];
  }

  lemma IdleActor(s: State, e: Event)
    requires Enabled(s, e)
    requires e.RegisterProxy? || e.EnterTable? || e.LogAuth? || e.Subscribe? || e.Relay? || e.Fail? || e.Unwind?
    ensures SameTraffic(s.handlers[e.h], Actor(s, e))
  {
  }

  lemma LookupMoves(s: State, e: Event)
    requires ControlsOk(s) && RegistryOk(s.handlers, s.registry) && DeliveryOk(s.handlers, s.writers)
    requires Enabled(s, e) && e.Lookup?
    ensures DeliveryOk(HandlersAfter(s, e), WritersAfter(s, e))
  {
    ActorKeepsRecords(s, e);
    var x := Actor(s, e);
    assert RecordsOk(s.handlers[e.h]);
    if s.handlers[e.h].target in s.registry {
      LookupStep(s.handlers, s.writers, e.h, x, s.registry[s.handlers[e.h].target]);
    } else {
      assert SameTraffic(s.handlers[e.h], x);
      QuietStep(s.handlers, HandlersAfter(s, e), s.writers, s.writers);
    }
  }

  lemma CheckMoves(s: State, e: Event)
    requires ControlsOk(s) && DeliveryOk(s.handlers, s.writers) && Enabled(s, e) && e.CheckContext?
    ensures DeliveryOk(HandlersAfter(s, e), WritersAfter(s, e))
  {
    ActorKeepsRecords(s, e);
    var x := Actor(s, e);
    assert RecordsOk(s.handlers[e.h]);
    assert HandlersAfter(s, e) == s.handlers[e.h := x];
    if x.pc.Writing? {
      PassesCheck(s.handlers, s.writers, e.h, x);
    } else {
      DeliverStep(s.handlers, s.writers, e.h, x, None);
    }
  }

  lemma PassesCheck(h: map<nat, Handler>, w: map<nat, nat>, d: nat, x: Handler)
    requires DeliveryOk(h, w) && d in h && SameTraffic(h[d], x) && RecordsOk(x)
    ensures DeliveryOk(h[d := x], w)
  {
    QuietStep(h, h[d := x], w, w);
  }

  lemma WriteMoves(s: State, e: Event)
    requires ControlsOk(s) && DeliveryOk(s.handlers, s.writers) && Enabled(s, e) && e.WriteOut?
    ensures DeliveryOk(HandlersAfter(s, e), WritersAfter(s, e))
  {
    ActorKeepsRecords(s, e);
    var me, r := s.handlers[e.h], if e.ok then Some(s.handlers[e.h].pc.b) else None;
    assert RecordsOk(me) && ReadersOk(s.handlers, e.h) && me.readers[|me.fate|] == Some(me.pc.b);
    assert HandlersAfter(s, e) == Handed(s.handlers, e.h, Actor(s, e), r);
    DeliverStep(s.handlers, s.writers, e.h, Actor(s, e), r);
  }

  lemma DaemonMoves(s: State, e: Event)
    requires ControlsOk(s) && DeliveryOk(s.handlers, s.writers) && Enabled(s, e)
    requires e.Connect? || e.Recv? || e.ReadWriter?
    ensures DeliveryOk(HandlersAfter(s, e), WritersAfter(s, e))
  {
    ActorKeepsRecords(s, e);
    match e
    case Connect(h, _, _, _) => ConnectStep(s.handlers, s.writers, h, Actor(s, e));
    case Recv(h, f) => RecvStep(s.handlers, s.writers, h, Actor(s, e), f);
    case ReadWriter(h) =>
      ReadStep(s.handlers, s.writers, h, Actor(s, e), if h in s.writers then Some(s.writers[h]) else None);
  }

  lemma DeliveryStep(s: State, e: Event)
    requires ControlsOk(s) && RegistryOk(s.handlers, s.registry) && DeliveryOk(s.handlers, s.writers) && Enabled(s, e)
    ensures DeliveryOk(HandlersAfter(s, e), WritersAfter(s, e))
  {
    if e.Lookup? {
      LookupMoves(s, e);
    } else if e.CheckContext? {
      CheckMoves(s, e);
    } else if e.WriteOut? {
      WriteMoves(s, e);
    } else if e.Connect? || e.Recv? || e.ReadWriter? {
      DaemonMoves(s, e);
    } else {
      IdleStep(s, e);
    }
  }

  // ---------- every run ----------

  // Only bridges that looked up a proxy have a context to cancel.
  ghost predicate CancelledOk(s: State) {
    forall b :: b in s.cancelled ==> b in s.handlers && s.handlers[b].role == Bridge && s.handlers[b].proxy.Some?
  }

  // A bridge is wired to the daemon it asked for.
  ghost predicate Wired(handlers: map<nat, Handler>, b: nat)
    requires b in handlers
  {
    match handlers[b].proxy
    case None => true
    case Some(d) =>
      handlers[b].role == Bridge && d in handlers && handlers[d].role == Daemon && handlers[d].name == handlers[b].target
  }

  ghost predicate AllWired(handlers: map<nat, Handler>) {
    forall b :: b in handlers ==> Wired(handlers, b)
  }

  ghost predicate RelayedOk(handlers: map<nat, Handler>, relayed: seq<Relayed>) {
    forall k :: 0 <= k < |relayed| ==> relayed[k].from in handlers && handlers[relayed[k].from].proxy == Some(relayed[k].to)
  }

  ghost predicate Inv(s: State) {
    && Owns(s) && LedgerOk(s.handlers, s.audit) && DeliveryOk(s.handlers, s.writers) && CancelledOk(s)
    && AllWired(s.handlers) && RelayedOk(s.handlers, s.relayed)
  }

  // Names, roles and targets never change, and a proxy only when it is looked up.
  lemma IdentityKept(s: State, e: Event, k: nat)
    requires Enabled(s, e) && k in s.handlers
    ensures k in HandlersAfter(s, e)
    ensures var x, y := s.handlers[k], HandlersAfter(s, e)[k];
      && x.role == y.role && x.name == y.name && x.target == y.target
      && (!(e.Lookup? && e.h == k) ==> x.proxy == y.proxy)
  {
    if k != e.h {
      OthersKeepControl(s, e);
    }
  }

  lemma WiredStep(s: State, e: Event)
    requires ControlsOk(s) && RegistryOk(s.handlers, s.registry) && AllWired(s.handlers) && Enabled(s, e)
    ensures AllWired(HandlersAfter(s, e))
  {
    var h' := HandlersAfter(s, e);
    OthersKeepControl(s, e);
    forall b | b in h'
      ensures Wired(h', b)
    {
      if b in s.handlers {
        assert Wired(s.handlers, b);
        IdentityKept(s, e, b);
        if h'[b].proxy.Some? && h'[b].proxy.value in s.handlers {
          IdentityKept(s, e, h'[b].proxy.value);
        }
      }
    }
  }

  lemma RelayedStep(s: State, e: Event)
    requires AllRecordsOk(s.handlers) && RelayedOk(s.handlers, s.relayed) && Enabled(s, e)
    ensures RelayedOk(HandlersAfter(s, e), Next(s, e).relayed)
  {
    var t := Next(s, e);
    if e.Lookup? {
      assert RecordsOk(s.handlers[e.h]);
    }
    forall k | 0 <= k < |t.relayed|
      ensures t.relayed[k].from in t.handlers && t.handlers[t.relayed[k].from].proxy == Some(t.relayed[k].to)
    {
      IdentityKept(s, e, t.relayed[k].from);
    }
  }

  lemma CancelledStep(s: State, e: Event)
    requires ControlsOk(s) && CancelledOk(s) && Enabled(s, e)
    ensures CancelledOk(Next(s, e))
  {
    OthersKeepControl(s, e);
    if Popped(s, e) == Some(Cancel) {
      CancelsBridge(s, e);
    }
    forall b | b in s.cancelled
      ensures b in HandlersAfter(s, e) && HandlersAfter(s, e)[b].role == Bridge && HandlersAfter(s, e)[b].proxy.Some?
    {
      if b == e.h {
        assert ControlOk(s.handlers[b]);
      }
    }
  }

  lemma CancelsBridge(s: State, e: Event)
    requires ControlsOk(s) && Enabled(s, e) && Popped(s, e) == Some(Cancel)
    ensures Actor(s, e).role == Bridge && Actor(s, e).proxy.Some?
  {
    assert ControlOk(s.handlers[e.h]);
    PendingIsCount(s.handlers[e.h]);
  }

  lemma StepKeepsInv(s: State, e: Event)
    requires Inv(s) && Enabled(s, e)
    ensures Inv(Next(s, e))
  {
    ControlStep(s, e);
    RegistryStep(s, e);
    TableStep(s, e);
    LedgerStep(s, e);
    DeliveryStep(s, e);
    CancelledStep(s, e);
    WiredStep(s, e);
    RelayedStep(s, e);
  }

  lemma {:induction false} RunKeepsInv(s1: State, es: seq<Event>, s2: State)
    requires Inv(s1) && Run(s1, es, s2)
    ensures Inv(s2)
    decreases |es|
  {
    if es != [] {
      StepKeepsInv(s1, es[0]);
      RunKeepsInv(Next(s1, es[0]), es[1..], s2);
    }
  }

  lemma ReachableInv(s: State)
    requires Reachable(s)
    ensures Inv(s)
  {
    var es :| Run(INITIAL, es, s);
    assert forall role, name :: Connected(map[], role, name) == {};
    RunKeepsInv(INITIAL, es, s);
  }

  // The step a handler can take from where it is.
  ghost function Onward(s: State, h: nat): Event
    requires h in s.handlers
  {
    var me := s.handlers[h];
    match me.pc
    case Authed =>
      if me.role == Daemon then RegisterProxy(h)
      else if exists v :: v in s.table && SameIdentity(s.table[v], Own(h, me)) then
        (var v :| v in s.table && SameIdentity(s.table[v], Own(h, me)); EnterTable(h, Some(v)))
      else EnterTable(h, None)
    case Registered => EnterTable(h, None)
    case Tabled => LogAuth(h)
    case Past => Lookup(h)
    case Found => Subscribe(h)
    case Live => if me.role == Daemon then Recv(h, 0) else Relay(h, 0, true)
    case Held(_) => ReadWriter(h)
    case Delivering(_) => CheckContext(h)
    case _ => Unwind(h)
  }

  /** No handler is ever stuck, even if no connection fails: in its read loop it can take a frame,
      elsewhere it has a next step of its own. */
  lemma NeverStuck(s: State, h: nat) returns (e: Event)
    requires Reachable(s) && h in s.handlers && s.handlers[h].pc != Done
    ensures e.h == h && !e.Fail? && Enabled(s, e)
  {
    ReachableInv(s);
    if s.handlers[h].pc == Exiting {
      var _ := UnwindsOnce(s, h);
      e := Unwind(h);
    } else if s.handlers[h].pc.Writing? {
      WritesOn(s, h);
      e := WriteOut(h, false);
    } else {
      GoesOn(s, h);
      e := Onward(s, h);
    }
  }

  lemma GoesOn(s: State, h: nat)
    requires ControlsOk(s) && h in s.handlers
    requires s.handlers[h].pc != Done && s.handlers[h].pc != Exiting && !s.handlers[h].pc.Writing?
    ensures Onward(s, h).h == h && !Onward(s, h).Fail? && Enabled(s, Onward(s, h))
  {
    assert ControlOk(s.handlers[h]);
  }

  lemma WritesOn(s: State, h: nat)
    requires ControlsOk(s) && DeliveryOk(s.handlers, s.writers) && h in s.handlers && s.handlers[h].pc.Writing?
    ensures Enabled(s, WriteOut(h, false))
  {
    assert ControlOk(s.handlers[h]) && RecordsOk(s.handlers[h]) && ReadersOk(s.handlers, h);
  }

  /** Once its read loop has ended a handler runs all its deferred actions and is done, by steps of its
      own alone and whatever the others are doing. */
  lemma {:induction false} FinishesAlone(s: State, h: nat) returns (es: seq<Event>, t: State)
    requires ControlsOk(s) && h in s.handlers && s.handlers[h].pc == Exiting
    ensures Run(s, es, t) && |es| == |s.handlers[h].defers| + 1 && forall e :: e in es ==> e == Unwind(h)
    ensures h in t.handlers && t.handlers[h].pc == Done && t.handlers[h].defers == []
    decreases |s.handlers[h].defers|
  {
    var s' := UnwindsOnce(s, h);
    ControlStep(s, Unwind(h));
    if s.handlers[h].defers == [] {
      es, t := [Unwind(h)], s';
    } else {
      var rest;
      rest, t := FinishesAlone(s', h);
      es := [Unwind(h)] + rest;
    }
  }

  lemma UnwindsOnce(s: State, h: nat) returns (s': State)
    requires ControlsOk(s) && h in s.handlers && s.handlers[h].pc == Exiting
    ensures Enabled(s, Unwind(h)) && s' == Next(s, Unwind(h)) && h in s'.handlers
    ensures if s.handlers[h].defers == [] then s'.handlers[h] == s.handlers[h].(pc := Done)
            else s'.handlers[h].pc == Exiting && |s'.handlers[h].defers| == |s.handlers[h].defers| - 1
  {
    assert ControlOk(s.handlers[h]);
    PendingIsCount(s.handlers[h]);
    s' := Next(s, Unwind(h));
  }

  /** A registered name belongs to one live daemon handler, the only one with an Unregister pending
      for it; when that runs, it removes the handler's own proxy and nothing else. */
  lemma UnregisterIsOwn(s: State, h: nat)
    requires Reachable(s) && h in s.handlers && Unregister in s.handlers[h].defers
    ensures var n := s.handlers[h].name;
      && n in s.registry && s.registry[n] == h
      && (forall k :: k in s.handlers && k != h && Unregister in s.handlers[k].defers ==> s.handlers[k].name != n)
      && (forall e :: e == Unwind(h) && Enabled(s, e) && Popped(s, e) == Some(Unregister) ==>
            Next(s, e).registry == s.registry - {n})
  {
    ReachableInv(s);
  }

  /** At most one bridge and at most one daemon of a name is in the session table. */
  lemma OneSessionPerName(s: State, i: nat, j: nat)
    requires Reachable(s) && i in s.table && j in s.table
    requires s.table[i].role == s.table[j].role && s.table[i].name == s.table[j].name
    ensures i == j
  {
    ReachableInv(s);
    assert EntryOk(s.handlers, i, s.table[i]) && EntryOk(s.handlers, j, s.table[j]);
    if s.table[i].role == Daemon {
      var h, k := s.table[i].conn, s.table[j].conn;
      assert ControlOk(s.handlers[h]) && ControlOk(s.handlers[k]);
      PendingIsCount(s.handlers[h]);
      PendingIsCount(s.handlers[k]);
      assert s.registry[s.table[i].name] == h && s.registry[s.table[j].name] == k;
    }
  }

  /** A release never removes another handler's session: a displaced bridge's leaves the table, and
      so its successor, as it is. */
  lemma ReleaseIsOwn(s: State, h: nat)
    requires Reachable(s) && Enabled(s, Unwind(h)) && Popped(s, Unwind(h)) == Some(Release)
    ensures var t, t' := s.table, Next(s, Unwind(h)).table;
      && (forall id :: id in t && t[id].conn != h ==> id in t' && t'[id] == t[id])
      && (s.handlers[h].entry !in t ==> t' == t)
      && (forall id :: id in t' ==> t'[id].conn != h)
  {
    ReachableInv(s);
    ReleaseRemovesOwn(s, h);
  }

  lemma ReleaseRemovesOwn(s: State, h: nat)
    requires TableOk(s.handlers, s.table, s.next) && Enabled(s, Unwind(h)) && Popped(s, Unwind(h)) == Some(Release)
    ensures var t, t' := s.table, Next(s, Unwind(h)).table;
      && (forall id :: id in t && t[id].conn != h ==> id in t' && t'[id] == t[id])
      && (s.handlers[h].entry !in t ==> t' == t)
      && (forall id :: id in t' ==> t'[id].conn != h)
  {
    assert TableAfter(s, Unwind(h)) == s.table - {s.handlers[h].entry};
    OwnEntryOnly(s.handlers, s.table, s.next, h);
  }

  lemma OwnEntryOnly(handlers: map<nat, Handler>, table: map<nat, Session>, next: nat, h: nat)
    requires TableOk(handlers, table, next) && h in handlers && HasEntry(handlers[h])
    ensures forall id :: id in table ==> (table[id].conn == h <==> id == handlers[h].entry)
  {
    assert OwnerOk(h, handlers[h], table, next);
    forall id | id in table
      ensures EntryOk(handlers, id, table[id])
    {
    }
  }

  /** For every role and name the log holds as many auth_ok records more than conn_close records as
      there are handlers past authentication that have not closed; none are left over at the end. */
  lemma LedgerBalances(s: State, role: Role, name: Name)
    requires Reachable(s)
    ensures Balance(s.audit, role, name) == |Connected(s.handlers, role, name)|
    ensures (forall h :: h in s.handlers ==> s.handlers[h].pc == Done) ==> Balance(s.audit, role, name) == 0
  {
    ReachableInv(s);
    if forall h :: h in s.handlers ==> s.handlers[h].pc == Done {
      NoneConnected(s, role, name);
    }
  }

  lemma NoneConnected(s: State, role: Role, name: Name)
    requires ControlsOk(s) && forall h :: h in s.handlers ==> s.handlers[h].pc == Done
    ensures Connected(s.handlers, role, name) == {}
  {
    assert forall h :: h in s.handlers ==> ControlOk(s.handlers[h]);
  }

  // The positions at which a recipient appears.
  ghost function Positions(fate: seq<Option<nat>>, b: nat): seq<nat> {
    if fate == [] then []
    else
      var k := |fate| - 1;
      Positions(fate[..k], b) + if fate[k] == Some(b) then [k] else []
  }

  lemma {:induction false} SelectedAt(frames: seq<Frame>, fate: seq<Option<nat>>, b: nat)
    requires |fate| <= |frames|
    ensures var ps, got := Positions(fate, b), Selected(frames, fate, b);
      && |ps| == |got|
      && (forall i, j :: 0 <= i < j < |ps| ==> ps[i] < ps[j])
      && (forall i :: 0 <= i < |ps| ==> ps[i] < |fate| && fate[ps[i]] == Some(b) && got[i] == frames[ps[i]])
  {
    if fate != [] {
      SelectedAt(frames, fate[..|fate| - 1], b);
    }
  }

  /** What a bridge is sent from its target daemon is a subsequence of that daemon's frames, in the
      order the gateway received them; each of them went to the bridge whose writer was installed
      when Deliver read it, and to no other. */
  lemma BridgeGetsSubsequence(s: State, b: nat, d: nat)
    requires Reachable(s) && b in s.handlers && s.handlers[b].role == Bridge && s.handlers[b].proxy == Some(d)
    ensures d in s.handlers && s.handlers[d].role == Daemon && s.handlers[d].name == s.handlers[b].target
    ensures |s.handlers[d].fate| <= |s.handlers[d].readers| <= |s.handlers[d].frames|
    ensures var ps, got, daemon := Positions(s.handlers[d].fate, b), s.handlers[b].got, s.handlers[d];
      && |ps| == |got|
      && (forall i, j :: 0 <= i < j < |ps| ==> ps[i] < ps[j])
      && (forall i :: 0 <= i < |ps| ==> ps[i] < |daemon.fate| && got[i] == daemon.frames[ps[i]]
                                        && daemon.readers[ps[i]] == Some(b))
    ensures forall c, i, j :: c != b && 0 <= i < |Positions(s.handlers[d].fate, b)| && 0 <= j < |Positions(s.handlers[d].fate, c)|
              ==> Positions(s.handlers[d].fate, b)[i] != Positions(s.handlers[d].fate, c)[j]
  {
    ReachableInv(s);
    assert Wired(s.handlers, b) && GotOk(s.handlers, b) && RecordsOk(s.handlers[d]);
    SelectedAt(s.handlers[d].frames, s.handlers[d].fate, b);
    forall c: nat {
      SelectedAt(s.handlers[d].frames, s.handlers[d].fate, c);
    }
  }

  /** A bridge past authentication is wired to a daemon if and only if one of the name it asked for is
      online then: a daemon's handler that is to unregister that name. */
  lemma LookupFindsTarget(s: State, b: nat)
    requires Reachable(s) && Enabled(s, Lookup(b))
    ensures var x := Next(s, Lookup(b)).handlers[b];
      && (x.pc == Found <==> exists d :: d in s.handlers && s.handlers[d].role == Daemon
                                         && s.handlers[d].name == s.handlers[b].target && Unregister in s.handlers[d].defers)
      && (x.pc != Found ==> x.pc == Exiting && x.proxy == None)
      && (x.pc == Found ==> x.proxy.Some? && x.proxy.value in s.handlers && Unregister in s.handlers[x.proxy.value].defers)
  {
    ReachableInv(s);
    assert RecordsOk(s.handlers[b]);
    if s.handlers[b].target in s.registry {
      var d := s.registry[s.handlers[b].target];
      assert d in s.handlers && s.handlers[d].role == Daemon && Unregister in s.handlers[d].defers;
    }
  }

  /** Upwards: whatever the gateway wrote to a daemon came from a bridge that asked for it by name. */
  lemma RelayedToTarget(s: State, k: nat)
    requires Reachable(s) && k < |s.relayed|
    ensures var r := s.relayed[k];
      && r.from in s.handlers && s.handlers[r.from].role == Bridge
      && r.to in s.handlers && s.handlers[r.to].role == Daemon && s.handlers[r.to].name == s.handlers[r.from].target
  {
    ReachableInv(s);
    assert Wired(s.handlers, s.relayed[k].from);
  }

  // The frames relayed for one bridge.
  ghost function RelayedFor(relayed: seq<Relayed>, b: nat): seq<Frame> {
    if relayed == [] then []
    else
      var rest, r := RelayedFor(relayed[..|relayed| - 1], b), relayed[|relayed| - 1];
      if r.from == b then rest + [r.f] else rest
  }

  /** The step itself: a frame that a bridge's handler reads is the next one its daemon is sent for that
      bridge, or the handler's loop ends; for every other bridge nothing changes. */
  lemma RelaysInOrder(s: State, b: nat, f: Frame, ok: bool, c: nat)
    requires Enabled(s, Relay(b, f, ok))
    ensures var t := Next(s, Relay(b, f, ok));
      && RelayedFor(t.relayed, c) == RelayedFor(s.relayed, c) + (if ok && c == b then [f] else [])
      && (t.handlers[b].pc == if ok then Live else Exiting)
  {
    var t := Next(s, Relay(b, f, ok));
    if ok {
      assert t.relayed[..|s.relayed|] == s.relayed;
    }
  }

  /** SetWriter in the order of the source: a subscription makes the bridge's writer the one that Deliver
      reads at its daemon, and the deferred SetWriter(nil) leaves none there, whoever's it was. */
  lemma SubscribeAndClear(s: State, b: nat)
    requires Reachable(s) && b in s.handlers && s.handlers[b].role == Bridge
    ensures Enabled(s, Subscribe(b)) ==>
              var d := s.handlers[b].proxy.value;
              var t := Next(s, Subscribe(b));
              d in t.writers && t.writers[d] == b && t.writers - {d} == s.writers - {d}
    ensures Enabled(s, Unwind(b)) && Popped(s, Unwind(b)) == Some(ClearWriter) ==>
              Next(s, Unwind(b)).writers == s.writers - {s.handlers[b].proxy.value}
  {
  }

  /** Deliver hands a frame on if and only if it read a writer whose bridge is not cancelled when Send looks,
      and the write works; otherwise the frame is dropped and the next one read. */
  lemma DeliverDecides(s: State, d: nat, ok: bool)
    requires Reachable(s) && d in s.handlers
    ensures Enabled(s, CheckContext(d)) ==>
              var w, t := s.handlers[d].pc.w, Next(s, CheckContext(d));
              t.handlers[d].pc == if w.Some? && w.value !in s.cancelled then Writing(w.value) else Live
    ensures Enabled(s, WriteOut(d, ok)) ==>
              var b, t := s.handlers[d].pc.b, Next(s, WriteOut(d, ok));
              && t.handlers[d].pc == Live
              && t.handlers[b].got == s.handlers[b].got + if ok then [s.handlers[d].frames[|s.handlers[d].fate|]] else []
  {
    if Enabled(s, WriteOut(d, ok)) && !ok {
      assert s.handlers[s.handlers[d].pc.b].got + [] == s.handlers[s.handlers[d].pc.b].got;
    }
  }
}
