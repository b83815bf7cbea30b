/** Enrolment against the live credential index: the entry lists of the gateway state, the config they
    are merged with at start-up, the hot-swappable CredRegistry, and HandleEnroll between them. */
module Enroll {
  import opened Wrappers

  type Name = nat
  type Hash = nat

  // An entry of a list or map keyed by name.
  datatype Named<V> = Named(name: Name, v: V)

  // noisePub is None while a daemon's key is not known (the empty string of the source).
  datatype AgentInfo = AgentInfo(deviceID: Option<nat>, hash: Hash, allowed: seq<Name>)
  datatype DaemonInfo = DaemonInfo(deviceID: Option<nat>, hash: Hash, noisePub: Option<nat>)

  // What the live index and the config keep of an entry.
  datatype AgentCred = AgentCred(hash: Hash, allowed: seq<Name>)

  function AgentCredOf(a: AgentInfo): AgentCred {
    AgentCred(a.hash, a.allowed)
  }

  function DaemonCredOf(d: DaemonInfo): Hash {
    d.hash
  }

  // ---------- lists of named entries ----------

  ghost predicate Unique<V>(xs: seq<Named<V>>) {
    forall i, j :: 0 <= i < j < |xs| ==> xs[i].name != xs[j].name
  }

  ghost function Names<V>(xs: seq<Named<V>>): set<Name> {
    set x | x in xs :: x.name
  }

  // The first entry of a name, as the loops over the lists find it.
  function Find<V>(xs: seq<Named<V>>, name: Name): Option<V> {
    if xs == [] then None else if xs[0].name == name then Some(xs[0].v) else Find(xs[1..], name)
  }

  // Replaces the first entry of the name, or appends.
  function Upserted<V>(xs: seq<Named<V>>, e: Named<V>): seq<Named<V>> {
    if xs == [] then [e] else if xs[0].name == e.name then [e] + xs[1..] else [xs[0]] + Upserted(xs[1..], e)
  }

  // The entries whose name is not in have.
  function Missing<V>(xs: seq<Named<V>>, have: set<Name>): seq<Named<V>> {
    if xs == [] then []
    else
      var rest := Missing(xs[..|xs| - 1], have);
      if xs[|xs| - 1].name in have then rest else rest + [xs[|xs| - 1]]
  }

  function MapValues<V, W>(f: V -> W, xs: seq<Named<V>>): (ys: seq<Named<W>>)
    ensures |ys| == |xs| && forall i :: 0 <= i < |xs| ==> ys[i] == Named(xs[i].name, f(xs[i].v))
  {
    seq(|xs|, i requires 0 <= i < |xs| => Named(xs[i].name, f(xs[i].v)))
  }

  // The map a loop of assignments builds: of several entries of a name the last one stays.
  function Index<V>(xs: seq<Named<V>>): map<Name, V> {
    if xs == [] then map[] else Index(xs[..|xs| - 1])[xs[|xs| - 1].name := xs[|xs| - 1].v]
  }

  lemma FindIsMember<V>(xs: seq<Named<V>>, name: Name)
    ensures Find(xs, name).Some? <==> name in Names(xs)
    ensures Find(xs, name).Some? ==> Named(name, Find(xs, name).value) in xs
  {
    if xs != [] {
      FindIsMember(xs[1..], name);
      assert xs == [xs[0]] + xs[1..];
    }
  }

  // In a list of unique names, being there and being found are the same.
  lemma FindUnique<V>(xs: seq<Named<V>>, x: Named<V>)
    requires Unique(xs) && x in xs
    ensures Find(xs, x.name) == Some(x.v)
  {
    FindIsMember(xs, x.name);
    var y := Named(x.name, Find(xs, x.name).value);
    var i :| 0 <= i < |xs| && xs[i] == x;
    var j :| 0 <= j < |xs| && xs[j] == y;
  }

  // Entry i is the first of its name.
  ghost predicate FirstAt<V>(xs: seq<Named<V>>, name: Name, i: nat) {
    i < |xs| && xs[i].name == name && forall j :: 0 <= j < i ==> xs[j].name != name
  }

  // A lookup gives the first entry of the name, and nothing if and only if there is none.
  lemma {:induction false} FindsFirst<V>(xs: seq<Named<V>>, name: Name)
    ensures Find(xs, name).None? <==> forall i :: 0 <= i < |xs| ==> xs[i].name != name
    ensures forall i: nat :: FirstAt(xs, name, i) ==> Find(xs, name) == Some(xs[i].v)
    ensures Find(xs, name).Some? ==> exists i: nat :: FirstAt(xs, name, i)
    decreases |xs|
  {
    if xs != [] {
      var rest := xs[1..];
      FindsFirst(rest, name);
      if xs[0].name == name {
        assert FirstAt(xs, name, 0);
      } else {
        forall i: nat | FirstAt(xs, name, i)
          ensures i > 0 && FirstAt(rest, name, i - 1)
        {
        }
        if i: nat :| FirstAt(rest, name, i) {
          assert FirstAt(xs, name, i + 1);
        }
      }
    }
  }

  lemma {:induction false} FindAppended<V>(xs: seq<Named<V>>, ys: seq<Named<V>>, name: Name)
    ensures Find(xs + ys, name) == if Find(xs, name).Some? then Find(xs, name) else Find(ys, name)
    decreases |xs|
  {
    if xs == [] {
      assert xs + ys == ys;
    } else {
      assert (xs + ys)[1..] == xs[1..] + ys;
      FindAppended(xs[1..], ys, name);
    }
  }

  lemma {:induction false} FindMissing<V>(xs: seq<Named<V>>, have: set<Name>, name: Name)
    ensures Find(Missing(xs, have), name) == if name in have then None else Find(xs, name)
    decreases |xs|
  {
    if xs != [] {
      var init, x := xs[..|xs| - 1], xs[|xs| - 1];
      assert xs == init + [x];
      FindMissing(init, have, name);
      FindAppended(init, [x], name);
      FindAppended(Missing(init, have), [x], name);
    }
  }

  lemma {:induction false} UpsertedFinds<V>(xs: seq<Named<V>>, e: Named<V>, name: Name)
    ensures Find(Upserted(xs, e), name) == if name == e.name then Some(e.v) else Find(xs, name)
  {
    if xs != [] && xs[0].name != e.name {
      UpsertedFinds(xs[1..], e, name);
    }
  }

  lemma NamesCons<V>(x: Named<V>, xs: seq<Named<V>>)
    ensures Names([x] + xs) == {x.name} + Names(xs)
  {
    var all := [x] + xs;
    assert x in all;
    forall n | n in Names(xs)
      ensures n in Names(all)
    {
      var y :| y in xs && y.name == n;
      assert y in all;
    }
  }

  lemma {:induction false} UpsertedNames<V>(xs: seq<Named<V>>, e: Named<V>)
    ensures Names(Upserted(xs, e)) == Names(xs) + {e.name}
  {
    if xs == [] {
      NamesCons(e, []);
      assert [e] == [e] + [];
    } else {
      NamesCons(xs[0], xs[1..]);
      assert xs == [xs[0]] + xs[1..];
      if xs[0].name == e.name {
        NamesCons(e, xs[1..]);
      } else {
        UpsertedNames(xs[1..], e);
        NamesCons(xs[0], Upserted(xs[1..], e));
      }
    }
  }

  lemma {:induction false} UpsertedUnique<V>(xs: seq<Named<V>>, e: Named<V>)
    requires Unique(xs)
    ensures Unique(Upserted(xs, e))
  {
    if xs != [] && xs[0].name != e.name {
      UpsertedUnique(xs[1..], e);
      UpsertedNames(xs[1..], e);
      var rest := Upserted(xs[1..], e);
      forall j | 0 <= j < |rest|
        ensures rest[j].name != xs[0].name
      {
        assert rest[j] in rest && rest[j].name in Names(rest);
        if rest[j].name in Names(xs[1..]) {
          var x :| x in xs[1..] && x.name == rest[j].name;
        }
      }
    }
  }

  lemma {:induction false} IndexFinds<V>(xs: seq<Named<V>>, name: Name)
    requires Unique(xs)
    ensures name in Index(xs) <==> Find(xs, name).Some?
    ensures name in Index(xs) ==> Some(Index(xs)[name]) == Find(xs, name)
  {
    if xs != [] {
      var init, x := xs[..|xs| - 1], xs[|xs| - 1];
      IndexFinds(init, name);
      FindIsMember(init, name);
      FindIsMember(xs, name);
      assert xs == init + [x];
      if name == x.name {
        FindUnique(xs, x);
      } else if name in Names(init) {
        FindUnique(xs, Named(name, Find(init, name).value));
      }
    }
  }

  // Of several entries of a name the map has the last one, and no name that the list has not.
  lemma {:induction false} IndexHasLast<V>(xs: seq<Named<V>>, name: Name)
    ensures name in Index(xs) <==> exists i :: 0 <= i < |xs| && xs[i].name == name
    ensures forall i :: 0 <= i < |xs| && xs[i].name == name && (forall j :: i < j < |xs| ==> xs[j].name != name) ==>
              name in Index(xs) && Index(xs)[name] == xs[i].v
    decreases |xs|
  {
    if xs != [] {
      var init := xs[..|xs| - 1];
      IndexHasLast(init, name);
      if i :| 0 <= i < |xs| && xs[i].name == name {
        assert i < |init| ==> init[i].name == name;
      }
      if i :| 0 <= i < |init| && init[i].name == name {
        assert xs[i].name == name;
      }
      forall i | 0 <= i < |xs| && xs[i].name == name && (forall j :: i < j < |xs| ==> xs[j].name != name)
        ensures name in Index(xs) && Index(xs)[name] == xs[i].v
      {
        if i < |init| {
          assert xs[|init|].name != name && init[i].name == name;
          assert forall j :: i < j < |init| ==> init[j].name == xs[j].name;
        }
      }
    }
  }

  lemma {:induction false} MapFinds<V, W>(f: V -> W, xs: seq<Named<V>>, name: Name)
    ensures Find(MapValues(f, xs), name) == match Find(xs, name) case None => None case Some(v) => Some(f(v))
  {
    if xs != [] {
      MapFinds(f, xs[1..], name);
      assert MapValues(f, xs)[1..] == MapValues(f, xs[1..]);
    }
  }

  lemma {:induction false} MissingMembers<V>(xs: seq<Named<V>>, have: set<Name>)
    ensures forall x :: x in Missing(xs, have) ==> x in xs && x.name !in have
    ensures forall x :: x in xs && x.name !in have ==> x in Missing(xs, have)
  {
    if xs != [] {
      MissingMembers(xs[..|xs| - 1], have);
      assert xs == xs[..|xs| - 1] + [xs[|xs| - 1]];
    }
  }

  lemma UniqueSnoc<V>(xs: seq<Named<V>>, x: Named<V>)
    requires Unique(xs)
    ensures Unique(xs + [x]) <==> forall y :: y in xs ==> y.name != x.name
  {
    var all := xs + [x];
    if Unique(all) {
      forall y | y in xs
        ensures y.name != x.name
      {
        var i: nat :| i < |xs| && xs[i] == y;
        assert all[i].name != all[|xs|].name;
      }
    }
    if forall y :: y in xs ==> y.name != x.name {
      forall i, j | 0 <= i < j < |all|
        ensures all[i].name != all[j].name
      {
        assert i < |xs| && all[i] == xs[i] && xs[i] in xs;
      }
    }
  }

  lemma {:induction false} MissingUnique<V>(xs: seq<Named<V>>, have: set<Name>)
    requires Unique(xs)
    ensures Unique(Missing(xs, have))
  {
    if xs != [] {
      var init, x := xs[..|xs| - 1], xs[|xs| - 1];
      MissingUnique(init, have);
      MissingMembers(init, have);
      assert xs == init + [x];
      UniqueSnoc(init, x);
      UniqueSnoc(Missing(init, have), x);
    }
  }

  /** A merge leaves unique names exactly when the list it starts from and the entries it adds each
      have unique names: entries added are not checked against each other. */
  lemma MergedUnique<V>(into: seq<Named<V>>, prior: seq<Named<V>>)
    ensures Unique(into + Missing(prior, Names(into))) <==> Unique(into) && Unique(Missing(prior, Names(into)))
  {
    var added := Missing(prior, Names(into));
    var all := into + added;
    MissingMembers(prior, Names(into));
    if Unique(all) {
      forall i, j | 0 <= i < j < |into|
        ensures into[i].name != into[j].name
      {
        assert all[i].name != all[j].name;
      }
      forall i, j | 0 <= i < j < |added|
        ensures added[i].name != added[j].name
      {
        assert all[|into| + i].name != all[|into| + j].name;
      }
    }
    if Unique(into) && Unique(added) {
      forall i, j | 0 <= i < |into| && 0 <= j < |added|
        ensures into[i].name != added[j].name
      {
        assert into[i] in into && added[j] in added;
      }
    }
  }

  // ---------- start-up ----------

  datatype Config = Config(agents: seq<Named<AgentCred>>, daemons: seq<Named<Hash>>)
  datatype GatewayState = GatewayState(agents: seq<Named<AgentInfo>>, daemons: seq<Named<DaemonInfo>>)

  function FreshAgent(c: AgentCred): AgentInfo {
    AgentInfo(None, c.hash, c.allowed)
  }

  function FreshDaemon(h: Hash): DaemonInfo {
    DaemonInfo(None, h, None)
  }

  function Hydrated(cfg: Config): GatewayState {
    GatewayState(MapValues(FreshAgent, cfg.agents), MapValues(FreshDaemon, cfg.daemons))
  }

  ghost function Merged(into: GatewayState, prior: GatewayState): GatewayState {
    GatewayState(into.agents + Missing(prior.agents, Names(into.agents)),
                 into.daemons + Missing(prior.daemons, Names(into.daemons)))
  }

  /** After a merge every name of either state is found: with the config's entry where it has one, with
      what an earlier run learned of it, as it was, where not. */
  lemma MergedFinds(into: GatewayState, prior: GatewayState, name: Name)
    ensures Find(Merged(into, prior).agents, name)
            == if Find(into.agents, name).Some? then Find(into.agents, name) else Find(prior.agents, name)
    ensures Find(Merged(into, prior).daemons, name)
            == if Find(into.daemons, name).Some? then Find(into.daemons, name) else Find(prior.daemons, name)
  {
    FindIsMember(into.agents, name);
    FindIsMember(into.daemons, name);
    FindMissing(prior.agents, Names(into.agents), name);
    FindMissing(prior.daemons, Names(into.daemons), name);
    FindAppended(into.agents, Missing(prior.agents, Names(into.agents)), name);
    FindAppended(into.daemons, Missing(prior.daemons, Names(into.daemons)), name);
  }

  method HydrateGatewayState(cfg: Config) returns (gs: GatewayState)
    ensures gs == Hydrated(cfg)
  {
    var agents: seq<Named<AgentInfo>> := [];
    for i := 0 to |cfg.agents|
      invariant agents == MapValues(FreshAgent, cfg.agents)[..i]
    {
      var a := cfg.agents[i];
      agents := agents + [Named(a.name, AgentInfo(None, a.v.hash, a.v.allowed))];
    }
    var daemons: seq<Named<DaemonInfo>> := [];
    for i := 0 to |cfg.daemons|
      invariant daemons == MapValues(FreshDaemon, cfg.daemons)[..i]
    {
      var d := cfg.daemons[i];
      daemons := daemons + [Named(d.name, DaemonInfo(None, d.v, None))];
    }
    gs := GatewayState(agents, daemons);
  }

  // One of the two loops: adds to the state and to the config what the state does not have.
  method MergeList<V, W>(into: seq<Named<V>>, prior: seq<Named<V>>, cfg: seq<Named<W>>, f: V -> W)
    returns (into': seq<Named<V>>, cfg': seq<Named<W>>)
    ensures into' == into + Missing(prior, Names(into))
    ensures cfg' == cfg + MapValues(f, Missing(prior, Names(into)))
  {
    var have: set<Name> := {};
    for i := 0 to |into|
      invariant have == Names(into[..i])
    {
      assert into[..i + 1] == into[..i] + [into[i]];
      have := have + {into[i].name};
    }
    assert into[..|into|] == into;
    into', cfg' := into, cfg;
    for i := 0 to |prior|
      invariant into' == into + Missing(prior[..i], have)
      invariant cfg' == cfg + MapValues(f, Missing(prior[..i], have))
    {
      var p := prior[i];
      assert prior[..i + 1][..i] == prior[..i];
      if p.name !in have {
        into' := into' + [p];
        cfg' := cfg' + [Named(p.name, f(p.v))];
      }
    }
    assert prior[..|prior|] == prior;
  }

  method MergeGatewayState(into: GatewayState, prior: GatewayState, cfg: Config) returns (gs: GatewayState, cfg': Config)
    ensures gs == Merged(into, prior)
    ensures cfg'.agents == cfg.agents + MapValues(AgentCredOf, Missing(prior.agents, Names(into.agents)))
    ensures cfg'.daemons == cfg.daemons + MapValues(DaemonCredOf, Missing(prior.daemons, Names(into.daemons)))
  {
    var agents, cfgAgents := MergeList(into.agents, prior.agents, cfg.agents, AgentCredOf);
    var daemons, cfgDaemons := MergeList(into.daemons, prior.daemons, cfg.daemons, DaemonCredOf);
    gs, cfg' := GatewayState(agents, daemons), Config(cfgAgents, cfgDaemons);
  }

  // ---------- the live index ----------

  class CredRegistry {
    var agents: map<Name, AgentCred>
    var daemons: map<Name, Hash>

    constructor (cfg: Config)
      ensures agents == Index(cfg.agents) && daemons == Index(cfg.daemons)
    {
      agents, daemons := map[], map[];
      new;
      Replace(cfg);
    }

    method Replace(cfg: Config)
      modifies this
      ensures agents == Index(cfg.agents) && daemons == Index(cfg.daemons)
    {
      var as_ := IndexOf(cfg.agents);
      var ds := IndexOf(cfg.daemons);
      agents, daemons := as_, ds;
    }

    static method IndexOf<V>(xs: seq<Named<V>>) returns (m: map<Name, V>)
      ensures m == Index(xs)
    {
      m := map[];
      for i := 0 to |xs|
        invariant m == Index(xs[..i])
      {
        assert xs[..i + 1][..i] == xs[..i];
        m := m[xs[i].name := xs[i].v];
      }
      assert xs[..|xs|] == xs;
    }

    method AddAgent(a: Named<AgentCred>)
      modifies this`agents
      ensures agents == old(agents)[a.name := a.v]
    {
      agents := agents[a.name := a.v];
    }

    method AddDaemon(d: Named<Hash>)
      modifies this`daemons
      ensures daemons == old(daemons)[d.name := d.v]
    {
      daemons := daemons[d.name := d.v];
    }

    /** While the index is that of a list of unique names, a lookup gives what the list says. */
    method LookupAgent(name: Name) returns (e: Option<AgentCred>)
      ensures e == LookedUp(agents, name)
      ensures forall xs :: Unique(xs) && agents == Index(xs) ==> e == Find(xs, name)
    {
      e := if name in agents then Some(agents[name]) else None;
      forall xs | Unique(xs) && agents == Index(xs)
        ensures e == Find(xs, name)
      {
        IndexFinds(xs, name);
      }
    }

    method LookupDaemon(name: Name) returns (e: Option<Hash>)
      ensures e == LookedUp(daemons, name)
      ensures forall xs :: Unique(xs) && daemons == Index(xs) ==> e == Find(xs, name)
    {
      e := if name in daemons then Some(daemons[name]) else None;
      forall xs | Unique(xs) && daemons == Index(xs)
        ensures e == Find(xs, name)
      {
        IndexFinds(xs, name);
      }
    }
  }

  function LookedUp<V>(index: map<Name, V>, name: Name): Option<V> {
    if name in index then Some(index[name]) else None
  }

  // ---------- admission ----------

  datatype Admission = Admitted | AuthFailed | DaemonNotAllowed

  lemma IndexHolds<V>(xs: seq<Named<V>>, name: Name, v: V)
    requires Unique(xs)
    ensures LookedUp(Index(xs), name) == Some(v) <==> Named(name, v) in xs
  {
    IndexFinds(xs, name);
    FindIsMember(xs, name);
    if Named(name, v) in xs {
      FindUnique(xs, Named(name, v));
    }
  }

  /** The first lines of handleDaemon, secret being the hash of what the Hello carries: a daemon is let in
      if and only if its name is listed with that hash. */
  method AdmitDaemon(creds: CredRegistry, name: Name, secret: Hash) returns (r: Admission)
    ensures r.Admitted? <==> LookedUp(creds.daemons, name) == Some(secret)
    ensures !r.DaemonNotAllowed?
    ensures forall xs: seq<Named<Hash>> :: Unique(xs) && creds.daemons == Index(xs) ==> (r.Admitted? <==> Named(name, secret) in xs)
  {
    var entry := creds.LookupDaemon(name);
    forall xs: seq<Named<Hash>> | Unique(xs) && creds.daemons == Index(xs)
      ensures LookedUp(creds.daemons, name) == Some(secret) <==> Named(name, secret) in xs
    {
      IndexHolds(xs, name, secret);
    }
    if entry.None? || entry.value != secret {
      return AuthFailed;
    }
    return Admitted;
  }

  // Whether the list has this agent with this hash, and with what targets.
  ghost predicate Listed(xs: seq<Named<AgentCred>>, name: Name, secret: Hash, allowed: seq<Name>) {
    Named(name, AgentCred(secret, allowed)) in xs
  }

  /** And those of handleBridge: a bridge is let in if and only if its name is listed with the hash of its
      secret and its target among the allowed ones, and told about the target only with the right secret. */
  method AdmitBridge(creds: CredRegistry, name: Name, secret: Hash, target: Name) returns (r: Admission)
    ensures forall xs :: Unique(xs) && creds.agents == Index(xs) ==>
              (r.Admitted? <==> exists allowed :: Listed(xs, name, secret, allowed) && target in allowed)
    ensures forall xs :: Unique(xs) && creds.agents == Index(xs) ==>
              (r.DaemonNotAllowed? <==> exists allowed :: Listed(xs, name, secret, allowed) && target !in allowed)
  {
    var entry := creds.LookupAgent(name);
    forall xs, allowed | Unique(xs) && creds.agents == Index(xs)
      ensures LookedUp(creds.agents, name) == Some(AgentCred(secret, allowed)) <==> Listed(xs, name, secret, allowed)
    {
      IndexHolds(xs, name, AgentCred(secret, allowed));
    }
    if entry.None? || entry.value.hash != secret {
      return AuthFailed;
    }
    assert entry == Some(AgentCred(secret, entry.value.allowed));
    if target !in entry.value.allowed {
      return DaemonNotAllowed;
    }
    return Admitted;
  }

  // ---------- enrolment ----------

  // What a consumed token grants, together with what the request and the gateway add to it.
  datatype Grant =
    | Daemon(name: Name, deviceID: nat, hash: Hash, pub: nat)
    | Bridge(name: Name, deviceID: nat, hash: Hash, targets: seq<Name>)
    | OtherRole

  datatype Reply = Granted | TargetNotEnrolled(name: Name) | UnknownRole | SaveFailed

  // The first target whose key is not known.
  function FirstUnknown(daemons: seq<Named<DaemonInfo>>, targets: seq<Name>): Option<Name> {
    if targets == [] then None
    else match Find(daemons, targets[0])
         case None => Some(targets[0])
         case Some(d) => if d.noisePub.None? then Some(targets[0]) else FirstUnknown(daemons, targets[1..])
  }

  // The daemon is enrolled: the first entry of its name has a key.
  ghost predicate Known(daemons: seq<Named<DaemonInfo>>, name: Name) {
    exists i: nat :: FirstAt(daemons, name, i) && daemons[i].v.noisePub.Some?
  }

  lemma KnownIsFound(daemons: seq<Named<DaemonInfo>>, name: Name)
    ensures Known(daemons, name) <==> Find(daemons, name).Some? && Find(daemons, name).value.noisePub.Some?
  {
    FindsFirst(daemons, name);
  }

  lemma {:induction false} FirstUnknownExactly(daemons: seq<Named<DaemonInfo>>, targets: seq<Name>)
    ensures FirstUnknown(daemons, targets).None? <==> forall t :: t in targets ==> Known(daemons, t)
    ensures forall t :: FirstUnknown(daemons, targets) == Some(t) ==>
              exists k :: 0 <= k < |targets| && targets[k] == t && !Known(daemons, t) && forall j :: 0 <= j < k ==> Known(daemons, targets[j])
    decreases |targets|
  {
    if targets != [] {
      var rest := targets[1..];
      KnownIsFound(daemons, targets[0]);
      FirstUnknownExactly(daemons, rest);
      assert targets == [targets[0]] + rest;
      if Known(daemons, targets[0]) && FirstUnknown(daemons, rest).Some? {
        var t := FirstUnknown(daemons, rest).value;
        var k :| 0 <= k < |rest| && rest[k] == t && !Known(daemons, t) && forall j :: 0 <= j < k ==> Known(daemons, rest[j]);
        assert targets[k + 1] == t;
        forall j | 0 <= j < k + 1
          ensures Known(daemons, targets[j])
        {
          if j > 0 {
            assert rest[j - 1] == targets[j];
          }
        }
      }
    }
  }

  // Whether the grant gets as far as changing the state.
  function Refusal(gs: GatewayState, g: Grant): Option<Reply> {
    match g
    case Daemon(_, _, _, _) => None
    case Bridge(_, _, _, targets) =>
      (match FirstUnknown(gs.daemons, targets)
       case None => None
       case Some(t) => Some(TargetNotEnrolled(t)))
    case OtherRole => Some(UnknownRole)
  }

  function StateAfter(gs: GatewayState, g: Grant): GatewayState {
    if Refusal(gs, g).Some? then gs
    else match g
         case Daemon(name, dev, hash, pub) =>
           gs.(daemons := Upserted(gs.daemons, Named(name, DaemonInfo(Some(dev), hash, Some(pub)))))
         case Bridge(name, dev, hash, targets) =>
           gs.(agents := Upserted(gs.agents, Named(name, AgentInfo(Some(dev), hash, targets))))
         case OtherRole => gs
  }

  class EnrollServer {
    var agents: seq<Named<AgentInfo>>
    var daemons: seq<Named<DaemonInfo>>
    // nil until the server is attached to the index of the running gateway
    var live: CredRegistry?

    constructor (gs: GatewayState)
      ensures Entries() == gs && live == null
    {
      agents, daemons, live := gs.agents, gs.daemons, null;
    }

    method Attach(creds: CredRegistry)
      modifies this`live
      ensures live == creds
    {
      live := creds;
    }

    function Entries(): GatewayState
      reads this
    {
      GatewayState(agents, daemons)
    }

    /** A refused request changes nothing; an accepted one upserts its entry, and reaches the live
        index only if there is one by then and the state is saved. */
    method HandleEnroll(g: Grant, saves: bool) returns (r: Reply)
      modifies this`agents, this`daemons, live
      ensures Entries() == StateAfter(old(Entries()), g)
      ensures r.UnknownRole? <==> g.OtherRole?
      ensures r.TargetNotEnrolled? <==> g.Bridge? && exists t :: t in g.targets && !Known(old(daemons), t)
      ensures r.TargetNotEnrolled? ==>
                exists k :: 0 <= k < |g.targets| && g.targets[k] == r.name && !Known(old(daemons), r.name)
                            && forall j :: 0 <= j < k ==> Known(old(daemons), g.targets[j])
      ensures r.SaveFailed? ==> !saves
      ensures r.Granted? ==> saves
      ensures r.Granted? || r.SaveFailed? ==>
                match g
                case Daemon(name, dev, hash, pub) =>
                  && agents == old(agents)
                  && forall n :: Find(daemons, n) == if n == name then Some(DaemonInfo(Some(dev), hash, Some(pub))) else Find(old(daemons), n)
                case Bridge(name, dev, hash, targets) =>
                  && daemons == old(daemons)
                  && forall n :: Find(agents, n) == if n == name then Some(AgentInfo(Some(dev), hash, targets)) else Find(old(agents), n)
                case OtherRole => false
      ensures !(r.Granted? || r.SaveFailed?) ==> Entries() == old(Entries())
      ensures match Refusal(old(Entries()), g)
              case Some(reply) => r == reply
              case None => r == if saves then Granted else SaveFailed
      ensures live != null ==> live.agents == if r == Granted && g.Bridge? then old(live.agents)[g.name := AgentCred(g.hash, g.targets)]
                             else old(live.agents)
      ensures live != null ==> live.daemons == if r == Granted && g.Daemon? then old(live.daemons)[g.name := g.hash]
                              else old(live.daemons)
    {
      match g {
        case Daemon(name, dev, hash, pub) =>
          forall n: Name {
            UpsertedFinds(daemons, Named(name, DaemonInfo(Some(dev), hash, Some(pub))), n);
          }
          daemons := Upsert(daemons, Named(name, DaemonInfo(Some(dev), hash, Some(pub))));
        case Bridge(name, dev, hash, targets) =>
          FirstUnknownExactly(daemons, targets);
          forall n: Name {
            UpsertedFinds(agents, Named(name, AgentInfo(Some(dev), hash, targets)), n);
          }
          var unknown := ResolveTargets(targets);
          if unknown.Some? {
            return TargetNotEnrolled(unknown.value);
          }
          agents := Upsert(agents, Named(name, AgentInfo(Some(dev), hash, targets)));
        case OtherRole =>
          return UnknownRole;
      }
      if !saves {
        return SaveFailed;
      }
      if live != null {
        if g.Daemon? {
          live.AddDaemon(Named(g.name, g.hash));
        } else {
          live.AddAgent(Named(g.name, AgentCred(g.hash, g.targets)));
        }
      }
      return Granted;
    }

    static method Upsert<V>(xs: seq<Named<V>>, e: Named<V>) returns (ys: seq<Named<V>>)
      ensures ys == Upserted(xs, e)
    {
      for i := 0 to |xs|
        invariant Upserted(xs, e) == xs[..i] + Upserted(xs[i..], e)
      {
        if xs[i].name == e.name {
          ys := xs[i := e];
          assert ys == xs[..i] + ([e] + xs[i..][1..]);
          return;
        }
        assert xs[i..][1..] == xs[i + 1..];
        assert xs[..i] + ([xs[i]] + Upserted(xs[i + 1..], e)) == xs[..i + 1] + Upserted(xs[i + 1..], e);
      }
      assert xs[|xs|..] == [] && xs[..|xs|] == xs;
      ys := xs + [e];
    }

    method ResolveTargets(targets: seq<Name>) returns (unknown: Option<Name>)
      ensures unknown == FirstUnknown(daemons, targets)
    {
      for i := 0 to |targets|
        invariant FirstUnknown(daemons, targets) == FirstUnknown(daemons, targets[i..])
      {
        var pub := None;
        var j := 0;
        while j < |daemons|
          invariant 0 <= j <= |daemons| && pub.None?
          invariant Find(daemons, targets[i]) == Find(daemons[j..], targets[i])
        {
          if daemons[j].name == targets[i] {
            pub := daemons[j].v.noisePub;
            break;
          }
          assert daemons[j..][1..] == daemons[j + 1..];
          j := j + 1;
        }
        if pub.None? {
          return Some(targets[i]);
        }
        assert targets[i..][1..] == targets[i + 1..];
      }
      return None;
    }
  }

  // ---------- runs between two reloads ----------

  // The state, the live index and whether the enrolment server is attached to it, the hashes in use so
  // far, and the names whose last accepted enrolment did not reach the index.
  datatype World = World(gs: GatewayState, agents: map<Name, AgentCred>, daemons: map<Name, Hash>, attached: bool,
                         used: set<Hash>, missedAgents: set<Name>, missedDaemons: set<Name>)

  // The endpoint is served before the server is attached.
  datatype Event = Enrol(g: Grant, saves: bool) | Attach

  // Hashes are of fresh random keys.
  ghost predicate Enabled(w: World, e: Event) {
    e.Attach? || e.g.OtherRole? || e.g.hash !in w.used
  }

  ghost function Next(w: World, e: Event): World {
    if e.Attach? then w.(attached := true)
    else if Refusal(w.gs, e.g).Some? then w
    else
      var w1 := w.(gs := StateAfter(w.gs, e.g), used := w.used + {e.g.hash});
      if e.g.Daemon? then
        if e.saves && w.attached
        then w1.(daemons := w.daemons[e.g.name := e.g.hash], missedDaemons := w.missedDaemons - {e.g.name})
        else w1.(missedDaemons := w.missedDaemons + {e.g.name})
      else
        if e.saves && w.attached
        then w1.(agents := w.agents[e.g.name := AgentCred(e.g.hash, e.g.targets)], missedAgents := w.missedAgents - {e.g.name})
        else w1.(missedAgents := w.missedAgents + {e.g.name})
  }

  ghost predicate Run(w1: World, es: seq<Event>, w2: World)
    decreases |es|
  {
    if es == [] then w1 == w2 else Enabled(w1, es[0]) && Run(Next(w1, es[0]), es[1..], w2)
  }

  // A live lookup gives what the state's entry of that name says, or both have nothing.
  ghost predicate Agrees<V, W(!new)>(xs: seq<Named<V>>, f: V -> W, live: map<Name, W>, name: Name) {
    match Find(xs, name)
    case None => LookedUp(live, name) == None
    case Some(v) => LookedUp(live, name) == Some(f(v))
  }

  ghost predicate Inv(w: World) {
    && Unique(w.gs.agents) && Unique(w.gs.daemons)
    && (forall n :: n in w.agents ==> w.agents[n].hash in w.used)
    && (forall n :: n in w.daemons ==> w.daemons[n] in w.used)
    && (forall n :: Find(w.gs.agents, n).Some? ==> Find(w.gs.agents, n).value.hash in w.used)
    && (forall n :: Find(w.gs.daemons, n).Some? ==> Find(w.gs.daemons, n).value.hash in w.used)
    && (forall n :: n !in w.missedAgents <==> Agrees(w.gs.agents, AgentCredOf, w.agents, n))
    && (forall n :: n !in w.missedDaemons <==> Agrees(w.gs.daemons, DaemonCredOf, w.daemons, n))
  }

  lemma StepKeepsInv(w: World, e: Event)
    requires Inv(w) && Enabled(w, e)
    ensures Inv(Next(w, e))
  {
    if e.Enrol? && Refusal(w.gs, e.g).None? {
      if e.g.Daemon? {
        var x := Named(e.g.name, DaemonInfo(Some(e.g.deviceID), e.g.hash, Some(e.g.pub)));
        UpsertedUnique(w.gs.daemons, x);
        forall n: Name {
          UpsertedFinds(w.gs.daemons, x, n);
        }
      } else {
        var x := Named(e.g.name, AgentInfo(Some(e.g.deviceID), e.g.hash, e.g.targets));
        UpsertedUnique(w.gs.agents, x);
        forall n: Name {
          UpsertedFinds(w.gs.agents, x, n);
        }
      }
    }
  }

  lemma {:induction false} RunKeepsInv(w1: World, es: seq<Event>, w2: World)
    requires Inv(w1) && Run(w1, es, w2)
    ensures Inv(w2)
    decreases |es|
  {
    if es != [] {
      StepKeepsInv(w1, es[0]);
      RunKeepsInv(Next(w1, es[0]), es[1..], w2);
    }
  }

  // The world right after start-up: the merged state, and the index built from the merged config.
  ghost function Start(cfg: Config, prior: GatewayState, used: set<Hash>): World {
    var into := Hydrated(cfg);
    World(Merged(into, prior),
          Index(cfg.agents + MapValues(AgentCredOf, Missing(prior.agents, Names(into.agents)))),
          Index(cfg.daemons + MapValues(DaemonCredOf, Missing(prior.daemons, Names(into.daemons)))),
          false, used, {}, {})
  }

  // The config list is the state list seen through f.
  lemma StartAgrees<V(!new), W(!new)>(cfg: seq<Named<W>>, fresh_: W -> V, f: V -> W, prior: seq<Named<V>>)
    requires forall w :: f(fresh_(w)) == w
    requires var into := MapValues(fresh_, cfg); Unique(into) && Unique(Missing(prior, Names(into)))
    ensures var into := MapValues(fresh_, cfg);
      var added := Missing(prior, Names(into));
      && Unique(into + added)
      && forall n :: Agrees(into + added, f, Index(cfg + MapValues(f, added)), n)
  {
    var into := MapValues(fresh_, cfg);
    var added := Missing(prior, Names(into));
    var all, idx := into + added, cfg + MapValues(f, added);
    MergedUnique(into, prior);
    assert idx == MapValues(f, all);
    forall i, j | 0 <= i < j < |idx|
      ensures idx[i].name != idx[j].name
    {
      assert all[i].name != all[j].name;
    }
    forall n: Name
      ensures Agrees(all, f, Index(idx), n)
    {
      IndexFinds(idx, n);
      MapFinds(f, all, n);
    }
  }

  ghost predicate UsedCovers(gs: GatewayState, used: set<Hash>) {
    && (forall x :: x in gs.agents ==> x.v.hash in used)
    && (forall x :: x in gs.daemons ==> x.v.hash in used)
  }

  lemma StartKeepsInv(cfg: Config, prior: GatewayState, used: set<Hash>)
    requires UsedCovers(Merged(Hydrated(cfg), prior), used)
    requires Unique(cfg.agents) && Unique(cfg.daemons) && Unique(prior.agents) && Unique(prior.daemons)
    ensures Inv(Start(cfg, prior, used))
  {
    var into, w := Hydrated(cfg), Start(cfg, prior, used);
    MissingUnique(prior.agents, Names(into.agents));
    MissingUnique(prior.daemons, Names(into.daemons));
    StartAgrees(cfg.agents, FreshAgent, AgentCredOf, prior.agents);
    StartAgrees(cfg.daemons, FreshDaemon, DaemonCredOf, prior.daemons);
    forall n: Name
      ensures Find(w.gs.agents, n).Some? ==> Find(w.gs.agents, n).value.hash in used
      ensures Find(w.gs.daemons, n).Some? ==> Find(w.gs.daemons, n).value.hash in used
      ensures n in w.agents ==> w.agents[n].hash in used
      ensures n in w.daemons ==> w.daemons[n] in used
    {
      FindIsMember(w.gs.agents, n);
      FindIsMember(w.gs.daemons, n);
      assert Agrees(w.gs.agents, AgentCredOf, w.agents, n);
      assert Agrees(w.gs.daemons, DaemonCredOf, w.daemons, n);
    }
  }

  // Every enrolment of the list is made while attached, and saved.
  predicate Reaches(attached: bool, es: seq<Event>)
    decreases |es|
  {
    es == [] || (match es[0]
                 case Attach => Reaches(true, es[1..])
                 case Enrol(_, saves) => attached && saves && Reaches(attached, es[1..]))
  }

  /** From a start-up on name-unique lists and through any run of enrolments, names stay unique in the
      state, and a live lookup gives exactly what the state's entry of that name says if and only if
      the last accepted enrolment of the name was saved and made after the server was attached. */
  lemma LiveMatchesState(cfg: Config, prior: GatewayState, used: set<Hash>, es: seq<Event>, w: World)
    requires UsedCovers(Merged(Hydrated(cfg), prior), used)
    requires Unique(cfg.agents) && Unique(cfg.daemons) && Unique(prior.agents) && Unique(prior.daemons)
    requires Run(Start(cfg, prior, used), es, w)
    ensures Unique(w.gs.agents) && Unique(w.gs.daemons)
    ensures forall n :: n !in w.missedAgents <==>
              match Find(w.gs.agents, n)
              case None => n !in w.agents
              case Some(a) => n in w.agents && w.agents[n].hash == a.hash && w.agents[n].allowed == a.allowed
    ensures forall n :: n !in w.missedDaemons <==>
              match Find(w.gs.daemons, n)
              case None => n !in w.daemons
              case Some(d) => n in w.daemons && w.daemons[n] == d.hash
    ensures Reaches(false, es) ==> w.missedAgents == {} && w.missedDaemons == {}
  {
    StartKeepsInv(cfg, prior, used);
    RunKeepsInv(Start(cfg, prior, used), es, w);
    forall n: Name
      ensures n !in w.missedAgents <==>
                match Find(w.gs.agents, n)
                case None => n !in w.agents
                case Some(a) => n in w.agents && w.agents[n].hash == a.hash && w.agents[n].allowed == a.allowed
      ensures n !in w.missedDaemons <==>
                match Find(w.gs.daemons, n)
                case None => n !in w.daemons
                case Some(d) => n in w.daemons && w.daemons[n] == d.hash
    {
      assert n !in w.missedAgents <==> Agrees(w.gs.agents, AgentCredOf, w.agents, n);
      assert n !in w.missedDaemons <==> Agrees(w.gs.daemons, DaemonCredOf, w.daemons, n);
    }
    if Reaches(false, es) {
      AllReach(Start(cfg, prior, used), es, w);
    }
  }

  lemma {:induction false} AllReach(w1: World, es: seq<Event>, w2: World)
    requires Run(w1, es, w2) && w1.missedAgents == {} && w1.missedDaemons == {} && Reaches(w1.attached, es)
    ensures w2.missedAgents == {} && w2.missedDaemons == {}
    decreases |es|
  {
    if es != [] {
      AllReach(Next(w1, es[0]), es[1..], w2);
    }
  }

  /** The window is real: the endpoint is served before the server is attached, and a daemon enrolled in
      between is granted and saved, but not found by a lookup. */
  lemma EnrolledTooEarly(g: Grant)
    requires g.Daemon?
    ensures var w := Start(Config([], []), GatewayState([], []), {});
      var w' := Next(Next(w, Enrol(g, true)), Attach);
      && Run(w, [Enrol(g, true), Attach], w')
      && Find(w'.gs.daemons, g.name) == Some(DaemonInfo(Some(g.deviceID), g.hash, Some(g.pub)))
      && LookedUp(w'.daemons, g.name) == None
  {
    var w := Start(Config([], []), GatewayState([], []), {});
    var es := [Enrol(g, true), Attach];
    assert es[1..] == [Attach] && es[1..][1..] == [];
    assert Run(Next(w, Enrol(g, true)), es[1..], Next(Next(w, Enrol(g, true)), Attach));
  }
}
