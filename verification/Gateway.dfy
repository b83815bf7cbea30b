/** The gateway's connection handlers, running concurrently over the shared registry, session table,
    proxy writers and audit log. A handler is a program counter plus the actions it has deferred,
    which run in reverse order when it returns; a run interleaves the handlers' steps freely. */
module Gateway {
  import opened Wrappers
  import opened Sessions

  type Frame = int

  datatype Deferred = Unregister | Release | LogClose | Cancel | ClearWriter

  // Held, Delivering and Writing are a daemon's read loop between Recv and the end of Deliver.
  // Delivering carries the writer that Deliver read; Writing the bridge whose Send is past its look at
  // the context and, before WriteMessage, may wait for the connection's write lock.
  datatype Pc = Authed | Registered | Tabled | Past | Found | Live | Held(f: Frame) | Delivering(w: Option<nat>)
              | Writing(b: nat) | Exiting | Done

  // entry is the id of the handler's session, proxy the daemon handler whose proxy a bridge looked
  // up. got is what a bridge was sent. frames, readers and fate record, for a daemon handler, every
  // frame it received, the writer Deliver read for it, and the bridge that was sent it.
  datatype Handler = Handler(
    role: Role, name: Name, target: Name, pc: Pc, defers: seq<Deferred>,
    entry: nat, proxy: Option<nat>, got: seq<Frame>,
    frames: seq<Frame>, readers: seq<Option<nat>>, fate: seq<Option<nat>>)

  datatype Record = AuthOk(role: Role, name: Name) | ConnClose(role: Role, name: Name) | Other

  datatype State = State(
    handlers: map<nat, Handler>,
    registry: map<Name, nat>,
    table: map<nat, Session>,
    next: nat,
    writers: map<nat, nat>,
    cancelled: set<nat>,
    audit: seq<Record>,
    relayed: seq<Relayed>)

  // A frame of a bridge's handler that was written to the connection of a daemon's handler.
  datatype Relayed = Relayed(from: nat, to: nat, f: Frame)

  const INITIAL := State(map[], map[], map[], 0, map[], {}, [], [])

  datatype Event =
    | Connect(h: nat, role: Role, name: Name, target: Name)
    | RegisterProxy(h: nat)
    | EnterTable(h: nat, victim: Option<nat>)
    | LogAuth(h: nat)
    | Lookup(h: nat)
    | Subscribe(h: nat)
    | Relay(h: nat, f: Frame, ok: bool)
    | Recv(h: nat, f: Frame)
    | ReadWriter(h: nat)
    | CheckContext(h: nat)
    | WriteOut(h: nat, ok: bool)
    | Fail(h: nat)
    | Unwind(h: nat)

  // The session a handler enters into the table.
  function Own(h: nat, me: Handler): Session {
    Session(me.role, me.name, 0, h)
  }

  ghost predicate Enabled(s: State, e: Event) {
    if e.Connect? then e.h !in s.handlers
    else
      e.h in s.handlers
      && var me := s.handlers[e.h];
      match e
      case RegisterProxy(_) => me.role == Daemon && me.pc == Authed
      case EnterTable(_, victim) =>
        || (me.role == Daemon && me.pc == Registered && victim == None)
        || (me.role == Bridge && me.pc == Authed && IsVictim(s.table, Own(e.h, me), victim))
      case LogAuth(_) => me.pc == Tabled
      case Lookup(_) => me.role == Bridge && me.pc == Past
      case Subscribe(_) => me.role == Bridge && me.pc == Found && me.proxy.Some?
      case Relay(_, _, _) => me.role == Bridge && me.pc == Live && me.proxy.Some?
      case Recv(_, _) => me.role == Daemon && me.pc == Live
      case ReadWriter(_) => me.role == Daemon && me.pc.Held?
      case CheckContext(_) => me.role == Daemon && me.pc.Delivering?
      case WriteOut(_, _) =>
        && me.role == Daemon && me.pc.Writing? && |me.fate| < |me.frames|
        && me.pc.b in s.handlers && me.pc.b != e.h
      case Fail(_) => me.pc == Live
      case Unwind(_) => me.pc == Exiting && (me.defers != [] && me.defers[|me.defers| - 1] == ClearWriter ==> me.proxy.Some?)
      case _ => false
  }

  // The deferred action an Unwind runs: the one deferred last.
  ghost function Popped(s: State, e: Event): Option<Deferred>
    requires Enabled(s, e)
  {
    if !e.Unwind? || s.handlers[e.h].defers == [] then None
    else Some(s.handlers[e.h].defers[|s.handlers[e.h].defers| - 1])
  }

  // What a step defers: Unregister behind Register, release behind the session table, the
  // conn_close record behind auth_ok, cancel and SetWriter(nil) behind SetWriter.
  ghost function Pushed(s: State, e: Event): seq<Deferred>
    requires Enabled(s, e)
  {
    match e
    case RegisterProxy(h) => if s.handlers[h].name in s.registry then [] else [Unregister]
    case EnterTable(_, _) => [Release]
    case LogAuth(_) => [LogClose]
    case Subscribe(_) => [Cancel, ClearWriter]
    case _ => []
  }

  ghost function DefersAfter(s: State, e: Event): seq<Deferred>
    requires Enabled(s, e)
  {
    if e.Connect? then []
    else if Popped(s, e).Some? then s.handlers[e.h].defers[..|s.handlers[e.h].defers| - 1]
    else s.handlers[e.h].defers + Pushed(s, e)
  }

  // The handler that takes the step, but for what it has deferred.
  ghost function Acted(s: State, e: Event): Handler
    requires Enabled(s, e)
  {
    match e
    case Connect(_, role, name, target) => Handler(role, name, target, Authed, [], 0, None, [], [], [], [])
    case RegisterProxy(h) =>
      var me := s.handlers[h];
      me.(pc := if me.name in s.registry then Done else Registered)
    case EnterTable(h, _) => s.handlers[h].(pc := Tabled, entry := s.next)
    case LogAuth(h) => s.handlers[h].(pc := if s.handlers[h].role == Daemon then Live else Past)
    case Lookup(h) =>
      var me := s.handlers[h];
      if me.target in s.registry then me.(pc := Found, proxy := Some(s.registry[me.target])) else me.(pc := Exiting)
    case Subscribe(h) => s.handlers[h].(pc := Live)
    case Relay(h, _, ok) => if ok then s.handlers[h] else s.handlers[h].(pc := Exiting)
    case Recv(h, f) => s.handlers[h].(pc := Held(f), frames := s.handlers[h].frames + [f])
    case ReadWriter(h) =>
      var w := if h in s.writers then Some(s.writers[h]) else None;
      s.handlers[h].(pc := Delivering(w), readers := s.handlers[h].readers + [w])
    case CheckContext(h) =>
      var me := s.handlers[h];
      if me.pc.w.Some? && me.pc.w.value !in s.cancelled then me.(pc := Writing(me.pc.w.value))
      else me.(pc := Live, fate := me.fate + [None])
    case WriteOut(h, ok) =>
      var me := s.handlers[h];
      me.(pc := Live, fate := me.fate + [if ok then Some(me.pc.b) else None])
    case Fail(h) => s.handlers[h].(pc := Exiting)
    case Unwind(h) => if s.handlers[h].defers == [] then s.handlers[h].(pc := Done) else s.handlers[h]
  }

  ghost function Actor(s: State, e: Event): Handler
    requires Enabled(s, e)
  {
    Acted(s, e).(defers := DefersAfter(s, e))
  }

  ghost function HandlersAfter(s: State, e: Event): map<nat, Handler>
    requires Enabled(s, e)
  {
    var moved := s.handlers[e.h := Actor(s, e)];
    if e.WriteOut? && e.ok then
      var me := s.handlers[e.h];
      moved[me.pc.b := s.handlers[me.pc.b].(got := s.handlers[me.pc.b].got + [me.frames[|me.fate|]])]
    else moved
  }

  ghost function RegistryAfter(s: State, e: Event): map<Name, nat>
    requires Enabled(s, e)
  {
    if e.RegisterProxy? then Added(s.registry, s.handlers[e.h].name, e.h)
    else if Popped(s, e) == Some(Unregister) then s.registry - {s.handlers[e.h].name}
    else s.registry
  }

  ghost function TableAfter(s: State, e: Event): map<nat, Session>
    requires Enabled(s, e)
  {
    if e.EnterTable? then Entered(s.table, e.victim, s.next, Own(e.h, s.handlers[e.h]))
    else if Popped(s, e) == Some(Release) then s.table - {s.handlers[e.h].entry}
    else s.table
  }

  ghost function WritersAfter(s: State, e: Event): map<nat, nat>
    requires Enabled(s, e)
  {
    if e.Subscribe? then Installed(s.writers, s.handlers[e.h].proxy.value, Some(e.h))
    else if Popped(s, e) == Some(ClearWriter) then Installed(s.writers, s.handlers[e.h].proxy.value, None)
    else s.writers
  }

  // The record a step appends to the audit log, if any.
  ghost function Logged(s: State, e: Event): Option<Record>
    requires Enabled(s, e)
  {
    if e.LogAuth? then Some(AuthOk(s.handlers[e.h].role, s.handlers[e.h].name))
    else if Popped(s, e) == Some(LogClose) then Some(ConnClose(s.handlers[e.h].role, s.handlers[e.h].name))
    else if e.Relay? || (e.Lookup? && s.handlers[e.h].target !in s.registry) then Some(Other)
    else None
  }

  ghost function AuditAfter(s: State, e: Event): seq<Record>
    requires Enabled(s, e)
  {
    match Logged(s, e)
    case None => s.audit
    case Some(r) => s.audit + [r]
  }

  ghost function Next(s: State, e: Event): State
    requires Enabled(s, e)
  {
    State(HandlersAfter(s, e), RegistryAfter(s, e), TableAfter(s, e),
          if e.EnterTable? then s.next + 1 else s.next,
          WritersAfter(s, e),
          if Popped(s, e) == Some(Cancel) then s.cancelled + {e.h} else s.cancelled,
          AuditAfter(s, e),
          if e.Relay? && e.ok then s.relayed + [Relayed(e.h, s.handlers[e.h].proxy.value, e.f)] else s.relayed)
  }

  ghost predicate Run(s1: State, es: seq<Event>, s2: State)
    decreases |es|
  {
    if es == [] then s1 == s2 else Enabled(s1, es[0]) && Run(Next(s1, es[0]), es[1..], s2)
  }

  ghost predicate Reachable(s: State) {
    exists es :: Run(INITIAL, es, s)
  }

  // ---------- control: the deferred actions a handler can have at each point ----------

  ghost function AllDefers(role: Role): seq<Deferred> {
    if role == Daemon then [Unregister, Release, LogClose] else [Release, LogClose, Cancel, ClearWriter]
  }

  ghost predicate ControlOk(x: Handler) {
    && x.defers <= AllDefers(x.role)
    && match x.pc
       case Authed => x.defers == []
       case Registered => x.role == Daemon && |x.defers| == 1
       case Tabled => |x.defers| == if x.role == Daemon then 2 else 1
       case Past => x.role == Bridge && |x.defers| == 2
       case Found => x.role == Bridge && |x.defers| == 2 && x.proxy.Some?
       case Live => x.defers == AllDefers(x.role) && (x.role == Bridge ==> x.proxy.Some?)
       case Held(_) => x.role == Daemon && x.defers == AllDefers(Daemon)
       case Delivering(_) => x.role == Daemon && x.defers == AllDefers(Daemon)
       case Writing(_) => x.role == Daemon && x.defers == AllDefers(Daemon)
       case Exiting => x.role == Bridge && |x.defers| >= 3 ==> x.proxy.Some?
       case Done => x.defers == []
  }

  ghost predicate HasEntry(x: Handler) {
    Release in x.defers
  }

  // ---------- the registry and the session table ----------

  // A name is registered to a handler exactly while that handler has its Unregister pending.
  ghost predicate RegistryOk(handlers: map<nat, Handler>, registry: map<Name, nat>) {
    && (forall n :: n in registry ==>
          var h := registry[n];
          h in handlers && handlers[h].role == Daemon && handlers[h].name == n && Unregister in handlers[h].defers)
    && (forall h :: h in handlers && Unregister in handlers[h].defers ==>
          handlers[h].role == Daemon && handlers[h].name in registry && registry[handlers[h].name] == h)
  }

  // Entries belong to handlers that will release them, ids are never shared, and only a bridge can
  // lose its entry.
  ghost predicate TableOk(handlers: map<nat, Handler>, table: map<nat, Session>, next: nat) {
    EntriesOk(handlers, table, next) && OwnersOk(handlers, table, next) && NoSharedEntry(handlers) && OneBridgePerName(table)
  }

  ghost predicate EntriesOk(handlers: map<nat, Handler>, table: map<nat, Session>, next: nat) {
    forall id :: id in table ==> id < next && EntryOk(handlers, id, table[id])
  }

  ghost predicate OwnersOk(handlers: map<nat, Handler>, table: map<nat, Session>, next: nat) {
    forall h :: h in handlers && HasEntry(handlers[h]) ==> OwnerOk(h, handlers[h], table, next)
  }

  ghost predicate NoSharedEntry(handlers: map<nat, Handler>) {
    forall h, k | h in handlers && k in handlers && HasEntry(handlers[h]) && HasEntry(handlers[k]) ::
      handlers[h].entry == handlers[k].entry ==> h == k
  }

  ghost predicate OneBridgePerName(table: map<nat, Session>) {
    forall i, j | i in table && j in table && table[i].role == Bridge :: SameIdentity(table[i], table[j]) ==> i == j
  }

  ghost predicate EntryOk(handlers: map<nat, Handler>, id: nat, e: Session) {
    && e.conn in handlers && HasEntry(handlers[e.conn]) && handlers[e.conn].entry == id
    && handlers[e.conn].role == e.role && handlers[e.conn].name == e.name
  }

  ghost predicate OwnerOk(h: nat, x: Handler, table: map<nat, Session>, next: nat) {
    && x.entry < next
    && (x.entry in table ==> table[x.entry].conn == h)
    && (x.role == Daemon ==> x.entry in table)
  }

  ghost predicate ControlsOk(s: State) {
    forall h :: h in s.handlers ==> ControlOk(s.handlers[h])
  }

  ghost predicate Owns(s: State) {
    ControlsOk(s) && RegistryOk(s.handlers, s.registry) && TableOk(s.handlers, s.table, s.next)
  }

  // A step changes the control of one handler only; WriteOut may also add to what a bridge got.
  ghost predicate SameControl(x: Handler, y: Handler) {
    && x.role == y.role && x.name == y.name && x.target == y.target && x.pc == y.pc
    && x.defers == y.defers && x.entry == y.entry && x.proxy == y.proxy
  }

  lemma OthersKeepControl(s: State, e: Event)
    requires Enabled(s, e)
    ensures HandlersAfter(s, e).Keys == s.handlers.Keys + {e.h}
    ensures HandlersAfter(s, e)[e.h] == Actor(s, e)
    ensures forall k :: k in s.handlers && k != e.h ==> SameControl(s.handlers[k], HandlersAfter(s, e)[k])
  {
  }

  lemma ActorKeepsControl(s: State, e: Event)
    requires ControlsOk(s) && Enabled(s, e)
    ensures ControlOk(Actor(s, e))
  {
    if !e.Connect? {
      assert ControlOk(s.handlers[e.h]);
      if e.Unwind? {
        UnwindKeepsControl(s, e);
      } else {
        MovingKeepsControl(s, e);
      }
    }
  }

  lemma UnwindKeepsControl(s: State, e: Event)
    requires Enabled(s, e) && e.Unwind? && ControlOk(s.handlers[e.h])
    ensures ControlOk(Actor(s, e))
  {
  }

  lemma MovingKeepsControl(s: State, e: Event)
    requires Enabled(s, e) && !e.Unwind? && !e.Connect? && ControlOk(s.handlers[e.h])
    ensures ControlOk(Actor(s, e))
  {
  }

  lemma ControlStep(s: State, e: Event)
    requires ControlsOk(s) && Enabled(s, e)
    ensures ControlsOk(Next(s, e))
  {
    OthersKeepControl(s, e);
    ActorKeepsControl(s, e);
    forall k | k in HandlersAfter(s, e)
      ensures ControlOk(HandlersAfter(s, e)[k])
    {
      if k != e.h {
        assert ControlOk(s.handlers[k]) && SameControl(s.handlers[k], HandlersAfter(s, e)[k]);
      }
    }
  }

  // Having an action pending is a matter of how many are.
  lemma PendingIsCount(x: Handler)
    requires ControlOk(x)
    ensures Unregister in x.defers <==> x.role == Daemon && |x.defers| >= 1
    ensures Release in x.defers <==> |x.defers| >= if x.role == Daemon then 2 else 1
    ensures LogClose in x.defers <==> |x.defers| >= if x.role == Daemon then 3 else 2
    ensures Cancel in x.defers <==> x.role == Bridge && |x.defers| >= 3
    ensures ClearWriter in x.defers <==> x.role == Bridge && |x.defers| >= 4
  {
    var all := AllDefers(x.role);
    assert forall i :: 0 <= i < |x.defers| ==> x.defers[i] == all[i];
    if |x.defers| >= 1 { assert all[0] in x.defers; }
    if |x.defers| >= 2 { assert all[1] in x.defers; }
    if |x.defers| >= 3 { assert all[2] in x.defers; }
    if |x.defers| >= 4 { assert all[3] in x.defers; }
  }

  // A step changes whether an action is pending only by deferring it or by running it.
  lemma PendingAfter(s: State, e: Event, d: Deferred)
    requires ControlsOk(s) && Enabled(s, e) && !e.Connect?
    ensures Actor(s, e).role == s.handlers[e.h].role && Actor(s, e).name == s.handlers[e.h].name
    ensures Popped(s, e) != Some(d) ==> (d in Actor(s, e).defers <==> d in s.handlers[e.h].defers || d in Pushed(s, e))
    ensures Popped(s, e) == Some(d) ==> d in s.handlers[e.h].defers && d !in Actor(s, e).defers
  {
    if Popped(s, e).Some? {
      PoppedIsGone(s, e, d);
    }
  }

  lemma PoppedIsGone(s: State, e: Event, d: Deferred)
    requires ControlsOk(s) && Enabled(s, e) && Popped(s, e).Some?
    ensures d in Actor(s, e).defers <==> d in s.handlers[e.h].defers && d != Popped(s, e).value
    ensures Popped(s, e).value in s.handlers[e.h].defers
  {
    ActorKeepsControl(s, e);
    var x := s.handlers[e.h];
    assert ControlOk(x);
    PendingIsCount(x);
    PendingIsCount(Actor(s, e));
    assert Popped(s, e).value == AllDefers(x.role)[|x.defers| - 1];
  }

  // h' differs from h at the actor, and there in having d pending.
  ghost predicate Changes(h: map<nat, Handler>, h': map<nat, Handler>, actor: nat, d: Deferred, before: bool, after: bool) {
    && actor in h' && h'.Keys == h.Keys + {actor}
    && (forall k :: k in h && k != actor ==> SameControl(h[k], h'[k]))
    && (actor in h ==> h[actor].role == h'[actor].role && h[actor].name == h'[actor].name)
    && ((actor in h && d in h[actor].defers) <==> before)
    && (d in h'[actor].defers <==> after)
  }

  lemma ChangesBy(s: State, e: Event, d: Deferred)
    requires ControlsOk(s) && Enabled(s, e)
    ensures Changes(s.handlers, HandlersAfter(s, e), e.h, d, e.h in s.handlers && d in s.handlers[e.h].defers,
                    d in Actor(s, e).defers)
  {
    OthersKeepControl(s, e);
    if !e.Connect? {
      PendingAfter(s, e, d);
    }
  }

  lemma RegistryKept(h: map<nat, Handler>, h': map<nat, Handler>, actor: nat, r: map<Name, nat>, b: bool)
    requires Changes(h, h', actor, Unregister, b, b) && RegistryOk(h, r)
    ensures RegistryOk(h', r)
  {
  }

  lemma RegistryGains(h: map<nat, Handler>, h': map<nat, Handler>, actor: nat, r: map<Name, nat>)
    requires Changes(h, h', actor, Unregister, false, true) && RegistryOk(h, r)
    requires actor in h && h[actor].role == Daemon && h[actor].name !in r
    ensures RegistryOk(h', r[h[actor].name := actor])
  {
  }

  lemma RegistryLoses(h: map<nat, Handler>, h': map<nat, Handler>, actor: nat, r: map<Name, nat>)
    requires Changes(h, h', actor, Unregister, true, false) && RegistryOk(h, r)
    ensures RegistryOk(h', r - {h[actor].name})
  {
  }

  lemma RegistryStep(s: State, e: Event)
    requires ControlsOk(s) && RegistryOk(s.handlers, s.registry) && Enabled(s, e)
    ensures RegistryOk(HandlersAfter(s, e), RegistryAfter(s, e))
  {
    var h, h' := s.handlers, HandlersAfter(s, e);
    ChangesBy(s, e, Unregister);
    if !e.Connect? {
      PendingAfter(s, e, Unregister);
    }
    if e.RegisterProxy? && h[e.h].name !in s.registry {
      RegistryGains(h, h', e.h, s.registry);
    } else if Popped(s, e) == Some(Unregister) {
      RegistryLoses(h, h', e.h, s.registry);
    } else {
      RegistryKept(h, h', e.h, s.registry, e.h in h && Unregister in h[e.h].defers);
    }
  }

  lemma TableKept(h: map<nat, Handler>, h': map<nat, Handler>, actor: nat, t: map<nat, Session>, next: nat, b: bool)
    requires Changes(h, h', actor, Release, b, b) && TableOk(h, t, next)
    requires actor in h ==> h[actor].entry == h'[actor].entry
    ensures TableOk(h', t, next)
  {
    assert forall k :: k in h' && HasEntry(h'[k]) ==> k in h && HasEntry(h[k]) && h[k].entry == h'[k].entry && h[k].role == h'[k].role;
    assert forall k :: k in h && HasEntry(h[k]) ==> HasEntry(h'[k]);
    forall id | id in t
      ensures EntryOk(h', id, t[id])
    {
      assert EntryOk(h, id, t[id]);
    }
    forall k | k in h' && HasEntry(h'[k])
      ensures OwnerOk(k, h'[k], t, next)
    {
      assert OwnerOk(k, h[k], t, next);
    }
  }

  lemma TableLoses(h: map<nat, Handler>, h': map<nat, Handler>, actor: nat, t: map<nat, Session>, next: nat)
    requires Changes(h, h', actor, Release, true, false) && TableOk(h, t, next)
    ensures TableOk(h', t - {h[actor].entry}, next)
  {
    var t' := t - {h[actor].entry};
    assert OwnerOk(actor, h[actor], t, next);
    forall id | id in t'
      ensures EntryOk(h', id, t'[id])
    {
      assert EntryOk(h, id, t[id]);
    }
    forall k | k in h' && HasEntry(h'[k])
      ensures OwnerOk(k, h'[k], t', next)
    {
      assert OwnerOk(k, h[k], t, next);
    }
  }

  // A bridge's entry can be taken away while its handler still means to release it.
  lemma TableEvicts(h: map<nat, Handler>, t: map<nat, Session>, next: nat, v: nat)
    requires TableOk(h, t, next) && v in t && t[v].role == Bridge
    ensures TableOk(h, t - {v}, next)
    ensures forall k :: k in t - {v} ==> !SameIdentity(t[k], t[v])
  {
    assert EntryOk(h, v, t[v]);
    forall k | k in h && HasEntry(h[k])
      ensures OwnerOk(k, h[k], t - {v}, next)
    {
      assert OwnerOk(k, h[k], t, next);
    }
    forall id | id in t - {v}
      ensures EntryOk(h, id, t[id])
    {
    }
  }

  lemma TableGains(h: map<nat, Handler>, h': map<nat, Handler>, actor: nat, t: map<nat, Session>, next: nat, me: Session)
    requires Changes(h, h', actor, Release, false, true) && TableOk(h, t, next)
    requires h'[actor].entry == next && me.conn == actor && me.role == h'[actor].role && me.name == h'[actor].name
    requires me.role == Bridge ==> forall k :: k in t ==> !SameIdentity(t[k], me)
    ensures TableOk(h', t[next := me], next + 1)
  {
    var t' := t[next := me];
    EntriesGain(h, h', actor, t, next, me);
    forall k | k in h' && HasEntry(h'[k]) && k != actor
      ensures OwnerOk(k, h'[k], t', next + 1) && h'[k].entry < next
    {
      OtherOwner(h, h', actor, t, next, me, k);
    }
    assert NoSharedEntry(h') by {
      EntriesStayApart(h, h', actor, next);
    }
  }

  lemma EntriesGain(h: map<nat, Handler>, h': map<nat, Handler>, actor: nat, t: map<nat, Session>, next: nat, me: Session)
    requires Changes(h, h', actor, Release, false, true) && EntriesOk(h, t, next)
    requires h'[actor].entry == next && me.conn == actor && me.role == h'[actor].role && me.name == h'[actor].name
    requires me.role == Bridge ==> forall k :: k in t ==> !SameIdentity(t[k], me)
    ensures EntriesOk(h', t[next := me], next + 1)
  {
    var t' := t[next := me];
    forall id | id in t'
      ensures id < next + 1 && EntryOk(h', id, t'[id])
    {
      if id != next {
        assert EntryOk(h, id, t[id]);
      }
    }
  }

  lemma EntriesStayApart(h: map<nat, Handler>, h': map<nat, Handler>, actor: nat, next: nat)
    requires Changes(h, h', actor, Release, false, true) && NoSharedEntry(h) && h'[actor].entry == next
    requires forall k :: k in h' && HasEntry(h'[k]) && k != actor ==> h'[k].entry < next
    ensures NoSharedEntry(h')
  {
    forall i, j | i in h' && j in h' && HasEntry(h'[i]) && HasEntry(h'[j]) && h'[i].entry == h'[j].entry
      ensures i == j
    {
      if i != actor && j != actor {
        assert HasEntry(h[i]) && HasEntry(h[j]);
      }
    }
  }

  lemma OtherOwner(h: map<nat, Handler>, h': map<nat, Handler>, actor: nat, t: map<nat, Session>, next: nat, me: Session, k: nat)
    requires Changes(h, h', actor, Release, false, true) && TableOk(h, t, next)
    requires k in h' && HasEntry(h'[k]) && k != actor
    ensures h'[k].entry < next && OwnerOk(k, h'[k], t[next := me], next + 1)
  {
    assert OwnerOk(k, h[k], t, next);
  }

  lemma TableReplaces(h: map<nat, Handler>, h': map<nat, Handler>, actor: nat, t: map<nat, Session>, next: nat,
                      victim: nat, me: Session)
    requires Changes(h, h', actor, Release, false, true) && TableOk(h, t, next)
    requires h'[actor].entry == next && me.conn == actor && me.role == h'[actor].role && me.name == h'[actor].name
    requires victim in t && SameIdentity(t[victim], me) && me.role == Bridge
    ensures TableOk(h', (t - {victim})[next := me], next + 1)
  {
    TableEvicts(h, t, next, victim);
    TableGains(h, h', actor, t - {victim}, next, me);
  }

  // A handler about to enter the table has no release pending yet.
  lemma EntersOnce(s: State, e: Event)
    requires ControlsOk(s) && Enabled(s, e) && e.EnterTable?
    ensures Changes(s.handlers, HandlersAfter(s, e), e.h, Release, false, true)
    ensures HandlersAfter(s, e)[e.h].entry == s.next
  {
    ChangesBy(s, e, Release);
    PendingAfter(s, e, Release);
    assert ControlOk(s.handlers[e.h]);
    PendingIsCount(s.handlers[e.h]);
  }

  lemma EntersTable(s: State, e: Event)
    requires ControlsOk(s) && TableOk(s.handlers, s.table, s.next) && Enabled(s, e) && e.EnterTable?
    ensures TableOk(HandlersAfter(s, e), TableAfter(s, e), s.next + 1)
  {
    var h, h', x := s.handlers, HandlersAfter(s, e), s.handlers[e.h];
    EntersOnce(s, e);
    var me := Own(e.h, x);
    if e.victim.Some? {
      TableReplaces(h, h', e.h, s.table, s.next, e.victim.value, me);
    } else {
      TableGains(h, h', e.h, s.table, s.next, me);
    }
  }

  lemma TableStep(s: State, e: Event)
    requires ControlsOk(s) && TableOk(s.handlers, s.table, s.next) && Enabled(s, e)
    ensures TableOk(HandlersAfter(s, e), TableAfter(s, e), if e.EnterTable? then s.next + 1 else s.next)
  {
    if e.EnterTable? {
      EntersTable(s, e);
    } else {
      var h, h' := s.handlers, HandlersAfter(s, e);
      ChangesBy(s, e, Release);
      assert h'[e.h] == Actor(s, e);
      if e.Connect? {
        TableKept(h, h', e.h, s.table, s.next, false);
      } else {
        PendingAfter(s, e, Release);
        assert Actor(s, e).entry == h[e.h].entry;
        if Popped(s, e) == Some(Release) {
          TableLoses(h, h', e.h, s.table, s.next);
        } else {
          TableKept(h, h', e.h, s.table, s.next, Release in h[e.h].defers);
        }
      }
    }
  }
}
