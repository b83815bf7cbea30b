/** The gateway's shared tables as objects: internal/gateway/sessions.go and registry.go. */
module Sessions {
  import opened Wrappers

  datatype Role = Bridge | Daemon

  // Names and credential hashes are only ever compared.
  type Name = int
  type Hash = int

  // A registered client; conn names the connection, which belongs to one handler.
  datatype Session = Session(role: Role, name: Name, keyHash: Hash, conn: nat)

  predicate SameIdentity(a: Session, b: Session) {
    a.role == b.role && a.name == b.name
  }

  // The credential a role and name currently has, if any.
  datatype Creds = Creds(agents: map<Name, Hash>, daemons: map<Name, Hash>)

  predicate StillValid(creds: Creds, s: Session) {
    var hashes := if s.role == Bridge then creds.agents else creds.daemons;
    s.name in hashes && hashes[s.name] == s.keyHash
  }

  // No entry of this bridge among the agents, or of this daemon among the daemons, has its hash.
  predicate Gone(creds: Creds, s: Session) {
    match s.role
    case Bridge => !(s.name in creds.agents && creds.agents[s.name] == s.keyHash)
    case Daemon => !(s.name in creds.daemons && creds.daemons[s.name] == s.keyHash)
  }

  // The entry that ReplaceByRoleName finds first, when there is one.
  ghost predicate IsVictim(sessions: map<nat, Session>, s: Session, victim: Option<nat>) {
    match victim
    case None => forall k :: k in sessions ==> !SameIdentity(sessions[k], s)
    case Some(k) => k in sessions && SameIdentity(sessions[k], s)
  }

  function Entered(sessions: map<nat, Session>, victim: Option<nat>, id: nat, s: Session): map<nat, Session> {
    (if victim.Some? then sessions - {victim.value} else sessions)[id := s]
  }

  // A registry after Register: the first to come keeps the name.
  function Added<T>(daemons: map<Name, T>, name: Name, p: T): map<Name, T> {
    if name in daemons then daemons else daemons[name := p]
  }

  class SessionTable {
    var next: nat
    var sessions: map<nat, Session>

    constructor ()
      ensures sessions == map[] && next == 0
    {
      sessions, next := map[], 0;
    }

    // Ids are handed out once: no id at or beyond next is in use.
    ghost predicate Valid()
      reads this
    {
      forall id :: id in sessions ==> id < next
    }

    method Register(s: Session) returns (id: nat)
      requires Valid()
      modifies this
      ensures Valid()
      ensures id == old(next) && id !in old(sessions) && next == id + 1
      ensures sessions == Entered(old(sessions), None, id, s) == old(sessions)[id := s]
    {
      id := next;
      next := next + 1;
      sessions := sessions[id := s];
    }

    // What the function returned by Register and ReplaceByRoleName does.
    method Release(id: nat)
      requires Valid()
      modifies this
      ensures Valid() && next == old(next) && sessions == old(sessions) - {id}
    {
      sessions := sessions - {id};
    }

    /** Drops one session of the same identity, if there is one, and hands back its connection. */
    method ReplaceByRoleName(s: Session) returns (replaced: Option<nat>, id: nat)
      requires Valid()
      modifies this
      ensures Valid()
      ensures id == old(next) && next == id + 1
      ensures exists victim :: IsVictim(old(sessions), s, victim)
                               && replaced == (if victim.Some? then Some(old(sessions)[victim.value].conn) else None)
                               && sessions == Entered(old(sessions), victim, id, s)
      ensures id in sessions && sessions[id] == s
      ensures forall k :: k in old(sessions) && (old(sessions)[k].role != s.role || old(sessions)[k].name != s.name) ==>
                k in sessions && sessions[k] == old(sessions)[k]
      ensures replaced.Some? <==> exists k :: k in old(sessions) && old(sessions)[k].role == s.role && old(sessions)[k].name == s.name
      ensures |old(sessions).Keys - sessions.Keys| <= 1 && forall k :: k in sessions ==> k == id || k in old(sessions)
    {
      replaced := None;
      ghost var before := sessions;
      ghost var victim: Option<nat> := None;
      var rest := sessions.Keys;
      while rest != {}
        invariant Valid() && next == old(next) && rest <= before.Keys && sessions == before && replaced == None && victim == None
        invariant forall k :: k in before && k !in rest ==> !SameIdentity(before[k], s)
        decreases rest
      {
        var k :| k in rest;
        rest := rest - {k};
        if SameIdentity(sessions[k], s) {
          replaced := Some(sessions[k].conn);
          victim := Some(k);
          sessions := sessions - {k};
          break;
        }
      }
      id := next;
      next := next + 1;
      sessions := sessions[id := s];
      assert IsVictim(before, s, victim) && sessions == Entered(before, victim, id, s);
      assert before.Keys - sessions.Keys == if victim.Some? then {victim.value} else {};
    }

    /** Closes exactly the connections whose credential is gone or changed, and removes nothing: the
        handlers do that on their way out. */
    method Revoke(creds: Creds) returns (closed: set<nat>)
      ensures closed == set k | k in sessions && !StillValid(creds, sessions[k]) :: sessions[k].conn
      ensures forall k :: k in sessions && Gone(creds, sessions[k]) ==> sessions[k].conn in closed
      ensures forall c :: c in closed ==> exists k :: k in sessions && sessions[k].conn == c && Gone(creds, sessions[k])
    {
      closed := {};
      var rest := sessions.Keys;
      while rest != {}
        invariant rest <= sessions.Keys
        invariant closed == set k | k in sessions && k !in rest && !StillValid(creds, sessions[k]) :: sessions[k].conn
        decreases rest
      {
        var k :| k in rest;
        ghost var before := rest;
        rest := rest - {k};
        assert forall j :: j in sessions && j !in rest <==> j in sessions && (j !in before || j == k);
        if !StillValid(creds, sessions[k]) {
          closed := closed + {sessions[k].conn};
        }
      }
    }
  }

  // The writers installed in all proxies, by the proxies' connections, after one SetWriter.
  function Installed(writers: map<nat, nat>, conn: nat, w: Option<nat>): map<nat, nat> {
    match w
    case Some(b) => writers[conn := b]
    case None => writers - {conn}
  }

  // The handle of one online daemon; writer names the bridge whose writer is installed.
  class DaemonProxy {
    const conn: nat
    var writer: Option<nat>

    constructor (conn: nat)
      ensures this.conn == conn && writer == None
    {
      this.conn, writer := conn, None;
    }

    // This proxy has the writer that a table of all of them says.
    ghost predicate Reflects(writers: map<nat, nat>)
      reads this
    {
      writer == if conn in writers then Some(writers[conn]) else None
    }

    /** Whatever the other proxies hold, one SetWriter is one change to the table. */
    method SetWriter(w: Option<nat>)
      modifies this
      ensures writer == w
      ensures forall writers :: old(Reflects(writers)) ==> Reflects(Installed(writers, conn, w))
    {
      writer := w;
    }
  }

  class Registry {
    var daemons: map<Name, DaemonProxy>

    constructor ()
      ensures daemons == map[]
    {
      daemons := map[];
    }

    method Register(name: Name, p: DaemonProxy) returns (ok: bool)
      modifies this
      ensures ok <==> name !in old(daemons)
      ensures daemons == Added(old(daemons), name, p)
      ensures daemons == if ok then old(daemons)[name := p] else old(daemons)
    {
      if name in daemons {
        return false;
      }
      daemons := daemons[name := p];
      return true;
    }

    method Unregister(name: Name)
      modifies this
      ensures daemons == old(daemons) - {name}
    {
      daemons := daemons - {name};
    }

    method Lookup(name: Name) returns (p: DaemonProxy?)
      ensures p != null <==> name in daemons
      ensures p != null ==> p == daemons[name]
    {
      p := if name in daemons then daemons[name] else null;
    }
  }
}
