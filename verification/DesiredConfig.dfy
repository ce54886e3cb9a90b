/** Reading the database into the configuration nginx is asked to load: enabled hosts and streams
    whose pools can serve, and the pool blocks they name, one set per nginx context. */
module DesiredConfig {
  import Ordering
  import opened Text
  import opened ProxyConfig
  import opened ProxySafety

  /** One `upstream` block: its method and its enabled servers. */
  datatype Block = Block(balancing: Method, servers: map<Id, Backend>)
  datatype HostSpec = HostSpec(id: Id, upstream: Option<Id>, forwardHost: Option<string>,
                               forwardPort: Option<int>, certificate: Option<Id>, sslForced: bool,
                               locations: seq<Location>)
  datatype StreamSpec = StreamSpec(id: Id, port: int, upstream: Option<Id>, forwardHost: Option<string>,
                                   forwardPort: Option<int>, tcp: bool, udp: bool, certificate: Option<Id>)

  function BlockOf(p: Pool): Block {
    Block(p.balancing, map b | b in p.backends && p.backends[b].enabled :: p.backends[b])
  }

  /** The named pool can serve: it is enabled and has an enabled server. */
  predicate Serves(pools: map<Id, Pool>, upstream: Option<Id>) {
    upstream.Some? ==>
      && upstream.value in pools && pools[upstream.value].enabled
      && BlockOf(pools[upstream.value]).servers != map[]
  }

  predicate Keeps(pools: map<Id, Pool>, l: Location) {
    l.target.ToPool? && l.upstream.Some? ==> Serves(pools, l.upstream)
  }

  /** The locations that can be answered, in order. */
  function Kept(pools: map<Id, Pool>, ls: seq<Location>): (kept: seq<Location>)
    ensures forall l :: l in kept <==> l in ls && Keeps(pools, l)
  {
    if ls == [] then []
    else
      var last := ls[|ls| - 1];
      assert ls == ls[..|ls| - 1] + [last];
      Kept(pools, ls[..|ls| - 1]) + if Keeps(pools, last) then [last] else []
  }

  predicate PathLeq(a: Location, b: Location) { Ordering.TextLeq(a.path, b.path) }

  function ByPath(ls: seq<Location>): seq<Location> { Ordering.Sorted(ls, PathLeq) }

  /** A host's locations are read in the one order their paths allow. */
  lemma ByPathIsTheOrder(ls: seq<Location>)
    requires forall i, j :: 0 <= i < j < |ls| ==> ls[i].path != ls[j].path
    ensures multiset(ByPath(ls)) == multiset(ls)
    ensures forall l :: l in ByPath(ls) <==> l in ls
    ensures Ordering.Ordered(ByPath(ls), PathLeq)
  {
    Ordering.SameMembers(ByPath(ls), ls);
    forall a, b ensures PathLeq(a, b) || PathLeq(b, a) { Ordering.TextTotal(a.path, b.path); }
    forall a, b, c | PathLeq(a, b) && PathLeq(b, c) ensures PathLeq(a, c) {
      Ordering.TextTransitive(a.path, b.path, c.path);
    }
    Ordering.SortedIsOrdered(ls, PathLeq);
  }

  predicate HostRenders(db: Db, id: Id) {
    id in db.hosts && db.hosts[id].enabled && Serves(db.pools, db.hosts[id].upstream)
  }

  function SpecOfHost(db: Db, id: Id): HostSpec
    requires id in db.hosts
  {
    var h := db.hosts[id];
    HostSpec(id, h.upstream, h.forwardHost, h.forwardPort, h.certificate, h.sslForced,
             Kept(db.pools, ByPath(h.locations)))
  }

  /** The rendered hosts with ids below `n`, in id order. */
  function HostSpecs(db: Db, n: Id): (specs: seq<HostSpec>)
    ensures forall s :: s in specs <==> s.id < n && HostRenders(db, s.id) && s == SpecOfHost(db, s.id)
  {
    if n == 0 then []
    else HostSpecs(db, n - 1) + if HostRenders(db, n - 1) then [SpecOfHost(db, n - 1)] else []
  }

  function PoolsNamed(specs: seq<HostSpec>): set<Id> {
    (set h | h in specs && h.upstream.Some? :: h.upstream.value)
    + (set h, l | h in specs && l in h.locations && l.upstream.Some? :: l.upstream.value)
  }

  function Blocks(db: Db, ids: set<Id>): map<Id, Block> {
    map u | u in ids && u in db.pools :: BlockOf(db.pools[u])
  }

  /** The pools read so far. */
  ghost predicate Cached(db: Db, cache: map<Id, Block>) {
    forall u <- cache :: u in db.pools && cache[u] == BlockOf(db.pools[u])
  }

  lemma KeptStep(pools: map<Id, Pool>, ls: seq<Location>, i: nat)
    ensures Kept(pools, ls[..0]) == []
    ensures i < |ls| ==>
              && ls[i] in ls
              && Kept(pools, ls[..i + 1]) == Kept(pools, ls[..i]) + if Keeps(pools, ls[i]) then [ls[i]] else []
  {
    if i < |ls| { assert ls[..i + 1][..i] == ls[..i]; }
  }

  lemma LocationsByPath(ls: seq<Location>)
    ensures forall l :: l in ByPath(ls) <==> l in ls
  {
    Ordering.SameMembers(ByPath(ls), ls);
  }

  /** One host's locations by path: each is kept or dropped, and the pools of the kept ones are
      read. */
  method LoadLocations(db: Db, stored: seq<Location>, before: map<Id, Block>)
    returns (kept: seq<Location>, cache: map<Id, Block>)
    requires Cached(db, before)
    requires forall l <- stored :: LocationShape(l)
    ensures kept == Kept(db.pools, ByPath(stored))
    ensures Cached(db, cache) && before.Keys <= cache.Keys
    ensures forall l <- kept :: Refers(l.upstream, cache.Keys)
  {
    hide BlockOf, Kept, ByPath;
    var ls := ByPath(stored);
    LocationsByPath(stored);
    kept, cache := [], before;
    KeptStep(db.pools, ls, 0);
    var i := 0;
    while i < |ls|
      invariant 0 <= i <= |ls| && kept == Kept(db.pools, ls[..i])
      invariant Cached(db, cache) && before.Keys <= cache.Keys
      invariant forall l <- kept :: Refers(l.upstream, cache.Keys)
    {
      var l := ls[i];
      KeptStep(db.pools, ls, i);
      i := i + 1;
      if l.target.ToPool? && l.upstream.Some? {
        var u := l.upstream.value;
        if u !in db.pools || !db.pools[u].enabled { continue; }
        if u !in cache { cache := cache[u := BlockOf(db.pools[u])]; }
        if cache[u].servers == map[] { continue; }
      }
      kept := kept + [l];
    }
    assert ls[..|ls|] == ls;
  }

  lemma PoolsNamedSnoc(specs: seq<HostSpec>, h: HostSpec, ids: set<Id>)
    requires PoolsNamed(specs) <= ids && Refers(h.upstream, ids) && forall l <- h.locations :: Refers(l.upstream, ids)
    ensures PoolsNamed(specs + [h]) <= ids
  {
  }

  lemma NoPoolsNamed()
    ensures PoolsNamed([]) == {}
  {
  }

  lemma HostSpecsStep(db: Db, n: Id)
    ensures HostSpecs(db, 0) == []
    ensures HostSpecs(db, n + 1) == HostSpecs(db, n) + if HostRenders(db, n) then [SpecOfHost(db, n)] else []
  {
  }

  method LoadHosts(db: Db) returns (specs: seq<HostSpec>, blocks: map<Id, Block>)
    requires Consistent(db)
    ensures specs == HostSpecs(db, db.nextId)
    ensures blocks == Blocks(db, PoolsNamed(specs)) && blocks.Keys == PoolsNamed(specs)
  {
    hide BlockOf, PoolRow, StreamRow, PortsUnique, HostSpecs, PoolsNamed, Kept;
    specs := [];
    HostSpecsStep(db, 0);
    assert PoolsNamed([]) == {} by { NoPoolsNamed(); }
    var cache: map<Id, Block> := map[];
    var id := 0;
    while id < db.nextId
      invariant 0 <= id <= db.nextId && specs == HostSpecs(db, id)
      invariant Cached(db, cache) && PoolsNamed(specs) <= cache.Keys
    {
      var at := id;
      HostSpecsStep(db, id);
      id := id + 1;
      if at !in db.hosts || !db.hosts[at].enabled { continue; }
      var h := db.hosts[at];
      if h.upstream.Some? {
        var u := h.upstream.value;
        if u !in db.pools || !db.pools[u].enabled { continue; }
        if u !in cache { cache := cache[u := BlockOf(db.pools[u])]; }
        if cache[u].servers == map[] { continue; }
      }
      var kept;
      assert HostRow(db.pools.Keys, db.pages, db.certificates.Keys, h);
      kept, cache := LoadLocations(db, h.locations, cache);
      var spec := HostSpec(at, h.upstream, h.forwardHost, h.forwardPort, h.certificate, h.sslForced, kept);
      PoolsNamedSnoc(specs, spec, cache.Keys);
      specs := specs + [spec];
    }
    blocks := map u | u in PoolsNamed(specs) :: cache[u];
  }

  predicate StreamRenders(db: Db, id: Id) {
    id in db.streams && db.streams[id].enabled && Serves(db.pools, db.streams[id].upstream)
  }

  function SpecOfStream(db: Db, id: Id): StreamSpec
    requires id in db.streams
  {
    var s := db.streams[id];
    StreamSpec(id, s.port, s.upstream, s.forwardHost, s.forwardPort, s.tcp, s.udp, s.certificate)
  }

  function StreamSpecs(db: Db, n: Id): (specs: seq<StreamSpec>)
    ensures forall s :: s in specs <==> s.id < n && StreamRenders(db, s.id) && s == SpecOfStream(db, s.id)
    ensures forall i, j :: 0 <= i < j < |specs| ==> specs[i].id < specs[j].id
  {
    if n == 0 then []
    else
      var before := StreamSpecs(db, n - 1);
      assert forall i :: 0 <= i < |before| ==> before[i] in before;
      before + if StreamRenders(db, n - 1) then [SpecOfStream(db, n - 1)] else []
  }

  function StreamPoolsNamed(specs: seq<StreamSpec>): set<Id> {
    set s | s in specs && s.upstream.Some? :: s.upstream.value
  }

  lemma StreamPoolsNamedSnoc(specs: seq<StreamSpec>, s: StreamSpec, ids: set<Id>)
    ensures StreamPoolsNamed([]) == {}
    ensures StreamPoolsNamed(specs) <= ids && Refers(s.upstream, ids) ==> StreamPoolsNamed(specs + [s]) <= ids
  {
  }

  lemma StreamSpecsStep(db: Db, n: Id)
    ensures StreamSpecs(db, 0) == []
    ensures StreamSpecs(db, n + 1) == StreamSpecs(db, n) + if StreamRenders(db, n) then [SpecOfStream(db, n)] else []
  {
  }

  method LoadStreams(db: Db) returns (specs: seq<StreamSpec>, blocks: map<Id, Block>)
    ensures specs == StreamSpecs(db, db.nextId)
    ensures blocks == Blocks(db, StreamPoolsNamed(specs)) && blocks.Keys == StreamPoolsNamed(specs)
  {
    hide BlockOf, StreamSpecs, StreamPoolsNamed;
    specs := [];
    StreamSpecsStep(db, 0);
    StreamPoolsNamedSnoc([], StreamSpec(0, 0, None, None, None, false, false, None), {});
    var cache: map<Id, Block> := map[];
    var id := 0;
    while id < db.nextId
      invariant 0 <= id <= db.nextId && specs == StreamSpecs(db, id)
      invariant Cached(db, cache) && StreamPoolsNamed(specs) <= cache.Keys
    {
      var at := id;
      StreamSpecsStep(db, id);
      id := id + 1;
      if at !in db.streams || !db.streams[at].enabled { continue; }
      var s := db.streams[at];
      if s.upstream.Some? {
        var u := s.upstream.value;
        if u !in db.pools || !db.pools[u].enabled { continue; }
        if u !in cache { cache := cache[u := BlockOf(db.pools[u])]; }
        if cache[u].servers == map[] { continue; }
      }
      var spec := StreamSpec(at, s.port, s.upstream, s.forwardHost, s.forwardPort, s.tcp, s.udp, s.certificate);
      StreamPoolsNamedSnoc(specs, spec, cache.Keys);
      specs := specs + [spec];
    }
    blocks := map u | u in StreamPoolsNamed(specs) :: cache[u];
  }

  // ----- what is read, in terms of the rows -----

  /** The pool is named by a rendered host, by one of its kept locations, or by a rendered stream. */
  ghost predicate HttpServing(db: Db, u: Id) {
    exists h <- db.hosts :: HostRenders(db, h) && NamesPool(db, db.hosts[h], u)
  }

  ghost predicate NamesPool(db: Db, h: Host, u: Id) {
    h.upstream == Some(u) || exists l <- h.locations :: Keeps(db.pools, l) && l.upstream == Some(u)
  }

  ghost predicate StreamServing(db: Db, u: Id) {
    exists s <- db.streams :: StreamRenders(db, s) && db.streams[s].upstream == Some(u)
  }

  lemma HttpNamed(db: Db, u: Id)
    requires Orderly(db)
    ensures u in PoolsNamed(HostSpecs(db, db.nextId)) <==> HttpServing(db, u)
  {
    hide Consistent, HostUsable, Usable, MethodOk, HostSpecs, Serves, ByPath, Kept;
    var specs := HostSpecs(db, db.nextId);
    forall h <- db.hosts ensures forall l :: l in ByPath(db.hosts[h].locations) <==> l in db.hosts[h].locations {
      LocationsByPath(db.hosts[h].locations);
    }
    if HttpServing(db, u) {
      var h :| h in db.hosts && HostRenders(db, h) && NamesPool(db, db.hosts[h], u);
      assert SpecOfHost(db, h) in specs;
      if db.hosts[h].upstream != Some(u) {
        var l :| l in db.hosts[h].locations && Keeps(db.pools, l) && l.upstream == Some(u);
        assert l in SpecOfHost(db, h).locations;
      }
    }
  }

  lemma StreamNamed(db: Db, u: Id)
    requires Orderly(db)
    ensures u in StreamPoolsNamed(StreamSpecs(db, db.nextId)) <==> StreamServing(db, u)
  {
    hide Consistent, HostUsable, Usable, MethodOk, StreamSpecs, Serves;
    if StreamServing(db, u) {
      var s :| s in db.streams && StreamRenders(db, s) && db.streams[s].upstream == Some(u);
      assert SpecOfStream(db, s) in StreamSpecs(db, db.nextId);
    }
  }

  /** Everything but the blocks' own servers is right in every orderly database. */
  lemma HttpShape(db: Db)
    requires Orderly(db)
    ensures var specs := HostSpecs(db, db.nextId);
            && PoolsNamed(specs) <= db.pools.Keys
            && forall h <- specs ::
                 && OneTarget(h.upstream, h.forwardHost, h.forwardPort) && Refers(h.upstream, PoolsNamed(specs))
                 && forall l <- h.locations :: LocationShape(l) && Refers(l.upstream, PoolsNamed(specs))
  {
    hide BlockOf, PoolRow, StreamRow, MethodOk, PortsUnique, Numbered, HostSpecs, Usable, Serves, ByPath, Kept;
    var specs := HostSpecs(db, db.nextId);
    forall h <- specs
      ensures OneTarget(h.upstream, h.forwardHost, h.forwardPort) && Refers(h.upstream, db.pools.Keys)
      ensures forall l <- h.locations :: LocationShape(l) && Refers(l.upstream, db.pools.Keys)
    {
      assert HostRow(db.pools.Keys, db.pages, db.certificates.Keys, db.hosts[h.id]);
      LocationsByPath(db.hosts[h.id].locations);
    }
  }

  lemma StreamShape(db: Db)
    requires Orderly(db)
    ensures var specs := StreamSpecs(db, db.nextId);
            && StreamPoolsNamed(specs) <= db.pools.Keys
            && (forall s <- specs ::
                  && OneTarget(s.upstream, s.forwardHost, s.forwardPort) && (s.tcp || s.udp)
                  && Refers(s.upstream, StreamPoolsNamed(specs)))
            && (forall i, j :: 0 <= i < j < |specs| ==> specs[i].port != specs[j].port)
            && (forall u <- StreamPoolsNamed(specs) :: !db.pools[u].balancing.IpHash?)
  {
    hide BlockOf, PoolRow, HostRow, Numbered, StreamSpecs, HostUsable, Serves, PortOk;
    var specs := StreamSpecs(db, db.nextId);
    forall s <- specs ensures StreamRow(db.pools.Keys, db.certificates.Keys, db.streams[s.id]) {}
    forall u <- StreamPoolsNamed(specs) ensures u in db.pools && !db.pools[u].balancing.IpHash? {
      var s :| s in specs && s.upstream == Some(u);
      assert Usable(db.pools, db.streams[s.id].upstream, Tcp) && MethodOk(db.pools[u]);
    }
    forall i, j | 0 <= i < j < |specs| ensures specs[i].port != specs[j].port {
      assert specs[i] in specs && specs[j] in specs;
    }
  }

  /** Nothing is dropped for another reason: an enabled host is rendered exactly when it forwards
      to a direct target or to a pool that can serve, and a location of it likewise. */
  lemma RenderedIff(db: Db, id: Id)
    requires Orderly(db) && id in db.hosts
    ensures (exists s <- HostSpecs(db, db.nextId) :: s.id == id)
       <==> db.hosts[id].enabled && Serves(db.pools, db.hosts[id].upstream)
    ensures forall s <- HostSpecs(db, db.nextId) | s.id == id :: forall l <- db.hosts[id].locations ::
              l in s.locations <==> (l.target.ToPool? ==> Serves(db.pools, l.upstream))
  {
    hide Serves, Consistent, HostUsable, HostSpecs, Kept, ByPath;
    StoredHostOk(db, id);
    NextIdUnused(db);
    LocationsByPath(db.hosts[id].locations);
    if HostRenders(db, id) { assert SpecOfHost(db, id) in HostSpecs(db, db.nextId); }
  }

  // ----- in plain terms -----

  /** A pool serves when it is enabled and has an enabled server; its block holds exactly those. */
  lemma ServesMeans(pools: map<Id, Pool>, upstream: Option<Id>)
    ensures Serves(pools, upstream)
       <==> match upstream
            case None => true
            case Some(u) =>
              && u in pools && pools[u].enabled
              && exists b <- pools[u].backends :: pools[u].backends[b].enabled
  {
    if upstream.Some? && upstream.value in pools {
      var p := pools[upstream.value];
      if b :| b in p.backends && p.backends[b].enabled { assert b in BlockOf(p).servers; }
      if BlockOf(p).servers != map[] { var b :| b in BlockOf(p).servers; }
    }
  }

  lemma BlockMeans(p: Pool)
    ensures BlockOf(p).balancing == p.balancing
    ensures forall b: Id :: b in BlockOf(p).servers <==> b in p.backends && p.backends[b].enabled
    ensures forall b <- BlockOf(p).servers :: BlockOf(p).servers[b] == p.backends[b]
  {
  }

  /** A rendered host carries its own row; its locations are those of its row that are not for a pool
      or whose pool serves, and no others. */
  lemma HostSpecMeans(db: Db, s: HostSpec)
    requires s in HostSpecs(db, db.nextId)
    ensures s.id in db.hosts
    ensures var h := db.hosts[s.id];
            && s.upstream == h.upstream && s.forwardHost == h.forwardHost && s.forwardPort == h.forwardPort
            && s.certificate == h.certificate && s.sslForced == h.sslForced
            && forall l :: l in s.locations
                 <==> l in h.locations && (l.target == ToPool && l.upstream.Some? ==> Serves(db.pools, l.upstream))
  {
    hide Serves, ByPath, Kept;
    LocationsByPath(db.hosts[s.id].locations);
  }

  /** A stream is rendered, with its own row, exactly when it is enabled and forwards to a direct
      target or to a pool that serves. */
  lemma StreamRenderedIff(db: Db, id: Id)
    requires Orderly(db) && id in db.streams
    ensures var s := db.streams[id];
            && (StreamSpec(id, s.port, s.upstream, s.forwardHost, s.forwardPort, s.tcp, s.udp, s.certificate)
                  in StreamSpecs(db, db.nextId)
                <==> s.enabled && Serves(db.pools, s.upstream))
  {
    hide Serves, Orderly;
    NextIdUnused(db);
  }
}
