/** What the rendered configuration asks of nginx, which of its rules the configuration checks leave
    to chance, and exactly when the rendering keeps them. */
module Rendering {
  import Ordering
  import opened Text
  import opened ProxyConfig
  import opened ProxySafety
  import opened DesiredConfig

  // ----- the servers of a host -----

  const ACME_PATH := "/.well-known/acme-challenge/"

  /** Where the base configuration listens for http, and where the reload agent beside nginx does. */
  const BASE_PORTS: set<int> := {80, 8081}
  const AGENT_PORT := 9099

  /** One `server` block in `http {}`: its port and the paths of its prefix locations. */
  datatype Server = Server(port: int, prefixes: seq<string>)

  function Paths(ls: seq<Location>): (paths: seq<string>)
    ensures |paths| == |ls| && forall i :: 0 <= i < |ls| ==> paths[i] == ls[i].path
  {
    seq(|ls|, i requires 0 <= i < |ls| => ls[i].path)
  }

  /** The root and the host's own locations. */
  function Proxied(h: HostSpec): seq<string> { ["/"] + Paths(h.locations) }

  /** Port 80 answers certificate challenges and, unless it only redirects to TLS, proxies; with a
      certificate there is a second server on port 443. */
  function Servers(h: HostSpec): seq<Server> {
    if h.certificate.None? then [Server(80, [ACME_PATH] + Proxied(h))]
    else [Server(80, [ACME_PATH] + (if h.sslForced then ["/"] else Proxied(h))), Server(443, Proxied(h))]
  }

  /** The TCP ports that are taken before any stream is. `elsewhere` says whether something other
      than a proxy host, a redirection, dead host or default TLS server, listens on 443. */
  function TakenPorts(specs: seq<HostSpec>, elsewhere: bool): set<int> {
    BASE_PORTS + {AGENT_PORT}
    + (set h, v | h in specs && v in Servers(h) :: v.port)
    + (if elsewhere then {443} else {})
  }

  // ----- what nginx accepts -----

  /** A server that is not a backup, every weight at least one, and no backup beside a hashing or
      random method. */
  ghost predicate BlockAccepted(b: Block) {
    && (exists s <- b.servers :: !b.servers[s].backup)
    && (forall s <- b.servers :: b.servers[s].weight >= 1)
    && (NoBackups(b.balancing) ==> forall s <- b.servers :: !b.servers[s].backup)
  }

  ghost predicate Apart(paths: seq<string>) {
    forall i, j :: 0 <= i < j < |paths| ==> paths[i] != paths[j]
  }

  predicate OnDisk(certificate: Option<Id>, certificates: map<Id, bool>) {
    certificate.Some? ==> certificate.value in certificates && certificates[certificate.value]
  }

  /** `return` takes a status of at most three digits. */
  predicate CodeOk(l: Location) { l.errorCode.Some? ==> 0 <= l.errorCode.value <= 999 }

  /** One target, every name defined, no prefix location twice in a server, certificates there. */
  ghost predicate HostAccepted(h: HostSpec, names: set<Id>, certificates: map<Id, bool>) {
    && OneTarget(h.upstream, h.forwardHost, h.forwardPort) && Refers(h.upstream, names)
    && (forall l <- h.locations :: LocationShape(l) && Refers(l.upstream, names) && CodeOk(l))
    && (forall v <- Servers(h) :: Apart(v.prefixes))
    && OnDisk(h.certificate, certificates)
  }

  ghost predicate HttpAccepted(specs: seq<HostSpec>, blocks: map<Id, Block>, certificates: map<Id, bool>) {
    && (forall h <- specs :: HostAccepted(h, blocks.Keys, certificates))
    && (forall u <- blocks :: BlockAccepted(blocks[u]) && u in PoolsNamed(specs))
  }

  ghost predicate StreamAlright(s: StreamSpec, names: set<Id>, certificates: map<Id, bool>, taken: set<int>) {
    && OneTarget(s.upstream, s.forwardHost, s.forwardPort) && Refers(s.upstream, names) && (s.tcp || s.udp)
    && OnDisk(s.certificate, certificates)
    && (s.tcp ==> s.port !in taken)
  }

  /** In `stream {}` there is no `ip_hash`, and each port is listened on once. */
  ghost predicate StreamAccepted(specs: seq<StreamSpec>, blocks: map<Id, Block>, certificates: map<Id, bool>,
                                 taken: set<int>) {
    && (forall s <- specs :: StreamAlright(s, blocks.Keys, certificates, taken))
    && (forall i, j :: 0 <= i < j < |specs| ==> specs[i].port != specs[j].port)
    && (forall u <- blocks :: BlockAccepted(blocks[u]) && !blocks[u].balancing.IpHash? && u in StreamPoolsNamed(specs))
  }

  /** The whole rendering. */
  ghost predicate Accepted(db: Db, elsewhere: bool) {
    var hosts, streams := HostSpecs(db, db.nextId), StreamSpecs(db, db.nextId);
    && HttpAccepted(hosts, Blocks(db, PoolsNamed(hosts)), db.certificates)
    && StreamAccepted(streams, Blocks(db, StreamPoolsNamed(streams)), db.certificates, TakenPorts(hosts, elsewhere))
  }

  // ----- the exact condition, on the rows -----

  /** Among the pool's enabled servers one is not a backup and none has weight zero. Neither the
      services nor the constraints ask for this, or for anything else in this section. */
  predicate Primed(p: Pool) {
    && (exists b <- p.backends :: p.backends[b].enabled && !p.backends[b].backup)
    && (forall b <- p.backends :: p.backends[b].enabled ==> p.backends[b].weight != 0)
  }

  /** A location must not repeat the root, nor the challenge path of a port-80 server that proxies. */
  predicate PathClear(h: Host, l: Location) {
    l.path != "/" && (l.path == ACME_PATH ==> h.certificate.Some? && h.sslForced)
  }

  ghost predicate HostClear(db: Db, id: Id) {
    HostRenders(db, id) ==>
      && OnDisk(db.hosts[id].certificate, db.certificates)
      && forall l <- db.hosts[id].locations :: Keeps(db.pools, l) ==> PathClear(db.hosts[id], l) && CodeOk(l)
  }

  ghost predicate TlsListens(db: Db, elsewhere: bool) {
    elsewhere || exists h <- db.hosts :: HostRenders(db, h) && db.hosts[h].certificate.Some?
  }

  ghost predicate StreamClear(db: Db, elsewhere: bool, id: Id) {
    StreamRenders(db, id) ==>
      && OnDisk(db.streams[id].certificate, db.certificates)
      && (db.streams[id].tcp ==>
            && db.streams[id].port !in BASE_PORTS && db.streams[id].port != AGENT_PORT
            && (db.streams[id].port == 443 ==> !TlsListens(db, elsewhere)))
  }

  ghost predicate PoolClear(db: Db, u: Id) {
    u in db.pools && (HttpServing(db, u) || StreamServing(db, u)) ==> Primed(db.pools[u])
  }

  ghost predicate Clear(db: Db, elsewhere: bool) {
    && (forall u <- db.pools :: PoolClear(db, u))
    && (forall h <- db.hosts :: HostClear(db, h))
    && (forall s <- db.streams :: StreamClear(db, elsewhere, s))
  }

  // ----- blocks -----

  lemma PrimedBlock(p: Pool)
    requires PoolRow(p) && MethodOk(p)
    ensures BlockAccepted(BlockOf(p)) <==> Primed(p)
    ensures BlockOf(p).balancing == p.balancing
  {
    var b := BlockOf(p);
    if Primed(p) {
      var s :| s in p.backends && p.backends[s].enabled && !p.backends[s].backup;
      assert !b.servers[s].backup;
    }
    if BlockAccepted(b) {
      forall s <- p.backends | p.backends[s].enabled ensures p.backends[s].weight != 0 { assert s in b.servers; }
    }
  }

  lemma ServedPool(db: Db, u: Id)
    requires Orderly(db) && u in db.pools
    ensures BlockAccepted(BlockOf(db.pools[u])) <==> Primed(db.pools[u])
    ensures BlockOf(db.pools[u]).balancing == db.pools[u].balancing
  {
    hide PoolRow, MethodOk;
    StoredPoolOk(db, u);
    PrimedBlock(db.pools[u]);
  }

  // ----- locations -----

  lemma {:induction false} InsertApart(l: Location, ls: seq<Location>)
    requires Apart(Paths(ls)) && forall m <- ls :: m.path != l.path
    ensures Apart(Paths(Ordering.Insert(l, ls, PathLeq)))
  {
    var r := Ordering.Insert(l, ls, PathLeq);
    if ls != [] && !PathLeq(l, ls[0]) {
      forall i, j | 0 <= i < j < |ls| - 1 ensures ls[1..][i].path != ls[1..][j].path {
        assert Paths(ls)[i + 1] != Paths(ls)[j + 1];
      }
      InsertApart(l, ls[1..]);
      var rest := Ordering.Insert(l, ls[1..], PathLeq);
      forall j | 0 <= j < |rest| ensures rest[j].path != ls[0].path {
        assert rest[j] in multiset(rest);
        if rest[j] != l {
          assert rest[j] in ls[1..];
          var k :| 0 <= k < |ls| - 1 && ls[1..][k] == rest[j];
          assert Paths(ls)[0] != Paths(ls)[k + 1];
        }
      }
      ConsApart(ls[0], rest);
    } else {
      ConsApart(l, ls);
    }
  }

  lemma ConsApart(l: Location, ls: seq<Location>)
    requires Apart(Paths(ls)) && forall m <- ls :: m.path != l.path
    ensures Apart(Paths([l] + ls))
  {
    var all := [l] + ls;
    forall i, j | 0 <= i < j < |all| ensures all[i].path != all[j].path {
      if i > 0 { assert Paths(ls)[i - 1] != Paths(ls)[j - 1]; } else { assert all[j] in ls; }
    }
  }

  lemma {:induction false} ByPathApart(ls: seq<Location>)
    requires Apart(Paths(ls))
    ensures Apart(Paths(ByPath(ls)))
    decreases |ls|
  {
    if ls != [] {
      var tail := ls[1..];
      forall i, j | 0 <= i < j < |tail| ensures tail[i].path != tail[j].path {
        assert Paths(ls)[i + 1] != Paths(ls)[j + 1];
      }
      ByPathApart(tail);
      LocationsByPath(tail);
      forall m <- ByPath(tail) ensures m.path != ls[0].path {
        var k :| 0 <= k < |tail| && tail[k] == m;
        assert Paths(ls)[0] != Paths(ls)[k + 1];
      }
      InsertApart(ls[0], ByPath(tail));
    }
  }

  lemma {:induction false} KeptApart(pools: map<Id, Pool>, ls: seq<Location>)
    requires Apart(Paths(ls))
    ensures Apart(Paths(Kept(pools, ls)))
  {
    if ls != [] {
      var n := |ls| - 1;
      forall i, j | 0 <= i < j < n ensures ls[..n][i].path != ls[..n][j].path {
        assert Paths(ls)[i] != Paths(ls)[j];
      }
      KeptApart(pools, ls[..n]);
      var before := Kept(pools, ls[..n]);
      forall i | 0 <= i < |before| ensures before[i].path != ls[n].path {
        assert before[i] in ls[..n];
        var k :| 0 <= k < n && ls[k] == before[i];
        assert Paths(ls)[k] != Paths(ls)[n];
      }
      SnocApart(before, ls[n]);
    }
  }

  lemma SnocApart(ls: seq<Location>, l: Location)
    requires Apart(Paths(ls)) && forall i :: 0 <= i < |ls| ==> ls[i].path != l.path
    ensures Apart(Paths(ls + [l]))
  {
    var all := ls + [l];
    forall i, j | 0 <= i < j < |all| ensures all[i].path != all[j].path {
      if j < |ls| { assert Paths(ls)[i] != Paths(ls)[j]; }
    }
  }

  /** In front of paths that differ, a path stands apart exactly when it is none of them. */
  lemma ConsPathApart(p: string, paths: seq<string>)
    ensures Apart([p] + paths) <==> Apart(paths) && p !in paths
  {
    var all := [p] + paths;
    if Apart(all) {
      forall i, j | 0 <= i < j < |paths| ensures paths[i] != paths[j] { assert all[i + 1] != all[j + 1]; }
      forall i | 0 <= i < |paths| ensures paths[i] != p { assert all[0] != all[i + 1]; }
    }
    if Apart(paths) && p !in paths {
      forall i, j | 0 <= i < j < |all| ensures all[i] != all[j] {
        if i > 0 { assert paths[i - 1] != paths[j - 1]; } else { assert all[j] in paths; }
      }
    }
  }

  /** No prefix location is repeated in any of a host's servers if and only if no kept location
      repeats the root, nor the challenge path where port 80 proxies. */
  lemma ServersApart(h: HostSpec)
    requires Apart(Paths(h.locations))
    ensures (forall v <- Servers(h) :: Apart(v.prefixes))
       <==> forall l <- h.locations :: l.path != "/" && (l.path == ACME_PATH ==> h.certificate.Some? && h.sslForced)
  {
    hide Apart;
    var paths := Paths(h.locations);
    ConsPathApart("/", paths);
    ConsPathApart(ACME_PATH, Proxied(h));
    ConsPathApart(ACME_PATH, ["/"]);
    OnePathApart("/");
    assert ACME_PATH[1] == '.' && |"/"| == 1;
    PathsOf("/", h.locations);
    PathsOf(ACME_PATH, h.locations);
    var v := Servers(h);
    assert h.certificate.None? ==> v[0] in v;
    assert h.certificate.Some? ==> v[0] in v && v[1] in v;
  }

  lemma OnePathApart(p: string)
    ensures Apart([p])
  {
  }

  lemma PathsOf(p: string, ls: seq<Location>)
    ensures p in Paths(ls) <==> exists l <- ls :: l.path == p
  {
    if p in Paths(ls) {
      var i :| 0 <= i < |ls| && Paths(ls)[i] == p;
      assert ls[i] in ls;
    }
    if l :| l in ls && l.path == p {
      var i :| 0 <= i < |ls| && ls[i] == l;
      assert Paths(ls)[i] == p;
    }
  }

  // ----- hosts -----

  lemma SpecLocations(db: Db, id: Id)
    requires Orderly(db) && id in db.hosts
    ensures Apart(Paths(SpecOfHost(db, id).locations))
    ensures forall l :: l in SpecOfHost(db, id).locations <==> l in db.hosts[id].locations && Keeps(db.pools, l)
  {
    hide Orderly, Kept, ByPath, Keeps;
    StoredHostOk(db, id);
    var ls := db.hosts[id].locations;
    assert Apart(Paths(ls)) by { StoredApart(db, id); }
    ByPathApart(ls);
    LocationsByPath(ls);
    KeptApart(db.pools, ByPath(ls));
  }

  lemma StoredApart(db: Db, id: Id)
    requires Orderly(db) && id in db.hosts
    ensures Apart(Paths(db.hosts[id].locations))
  {
    hide Orderly, LocationShape, OneTarget, PortOk;
    StoredHostOk(db, id);
  }

  lemma HostAcceptedIff(db: Db, id: Id, names: set<Id>)
    requires Orderly(db) && HostRenders(db, id)
    requires var h := SpecOfHost(db, id);
             && OneTarget(h.upstream, h.forwardHost, h.forwardPort) && Refers(h.upstream, names)
             && forall l <- h.locations :: LocationShape(l) && Refers(l.upstream, names)
    ensures HostAccepted(SpecOfHost(db, id), names, db.certificates) <==> HostClear(db, id)
  {
    hide Orderly, Apart, Servers, Kept, ByPath, Keeps, LocationShape, OneTarget, CodeOk, Serves;
    SpecLocations(db, id);
    ServersApart(SpecOfHost(db, id));
  }

  /** The http rendering of an orderly database is accepted if and only if every pool named by a
      rendered host or location is primed, and every rendered host is clear. */
  lemma HttpAcceptedIff(db: Db)
    requires Orderly(db)
    ensures var specs := HostSpecs(db, db.nextId);
            && (HttpAccepted(specs, Blocks(db, PoolsNamed(specs)), db.certificates)
                <==> (forall u <- db.pools :: HttpServing(db, u) ==> Primed(db.pools[u]))
                     && forall h <- db.hosts :: HostClear(db, h))
  {
    hide Orderly, HttpServing, Primed, BlockAccepted, BlockOf, HostSpecs, PoolsNamed, HostAccepted, HostClear,
         SpecOfHost, HostRenders;
    var specs := HostSpecs(db, db.nextId);
    var named := PoolsNamed(specs);
    HttpShape(db);
    forall u <- db.pools
      ensures u in named <==> HttpServing(db, u)
      ensures BlockAccepted(BlockOf(db.pools[u])) <==> Primed(db.pools[u])
    {
      HttpNamed(db, u);
      ServedPool(db, u);
    }
    assert Blocks(db, named).Keys == named;
    forall h <- db.hosts
      ensures HostRenders(db, h) ==> SpecOfHost(db, h) in specs && SpecOfHost(db, h).id == h
      ensures HostRenders(db, h) ==> (HostAccepted(SpecOfHost(db, h), named, db.certificates) <==> HostClear(db, h))
      ensures !HostRenders(db, h) ==> HostClear(db, h)
    {
      RenderedSpec(db, h);
      UnrenderedClear(db, h);
      if HostRenders(db, h) { HostAcceptedIff(db, h, named); }
    }
    forall x <- specs ensures x.id in db.hosts && HostRenders(db, x.id) && x == SpecOfHost(db, x.id) {
      SpecIsRendered(db, x);
    }
  }

  lemma RenderedSpec(db: Db, h: Id)
    requires Orderly(db) && h in db.hosts
    ensures HostRenders(db, h) ==> SpecOfHost(db, h) in HostSpecs(db, db.nextId) && SpecOfHost(db, h).id == h
  {
    hide Orderly, Serves, Kept, ByPath;
    NextIdUnused(db);
  }

  lemma SpecIsRendered(db: Db, x: HostSpec)
    requires x in HostSpecs(db, db.nextId)
    ensures x.id in db.hosts && HostRenders(db, x.id) && x == SpecOfHost(db, x.id)
  {
    hide Serves, Kept, ByPath;
  }

  lemma UnrenderedClear(db: Db, h: Id)
    ensures !HostRenders(db, h) ==> HostClear(db, h)
  {
  }

  // ----- streams -----

  /** Port 443 is taken exactly when a rendered host has a certificate or something else is there. */
  lemma TakenIff(db: Db, elsewhere: bool, port: int)
    requires Orderly(db)
    ensures port in TakenPorts(HostSpecs(db, db.nextId), elsewhere)
       <==> port in BASE_PORTS || port == AGENT_PORT || (port == 443 && TlsListens(db, elsewhere))
  {
    hide Orderly, Serves, Kept, ByPath, HostSpecs, Proxied;
    var specs := HostSpecs(db, db.nextId);
    forall h <- specs ensures h.id in db.hosts && HostRenders(db, h.id) && h == SpecOfHost(db, h.id) {
      SpecIsRendered(db, h);
    }
    if h :| h in db.hosts && HostRenders(db, h) && db.hosts[h].certificate.Some? {
      RenderedSpec(db, h);
      var v := Servers(SpecOfHost(db, h));
      assert v[1] in v && v[1].port == 443;
    }
  }

  lemma StreamAlrightIff(db: Db, elsewhere: bool, id: Id, names: set<Id>)
    requires Orderly(db) && StreamRenders(db, id)
    requires var s := SpecOfStream(db, id);
             OneTarget(s.upstream, s.forwardHost, s.forwardPort) && Refers(s.upstream, names) && (s.tcp || s.udp)
    ensures StreamAlright(SpecOfStream(db, id), names, db.certificates, TakenPorts(HostSpecs(db, db.nextId), elsewhere))
       <==> StreamClear(db, elsewhere, id)
  {
    hide Orderly, TakenPorts, TlsListens, Serves, HostSpecs, OneTarget;
    TakenIff(db, elsewhere, db.streams[id].port);
  }

  /** The stream rendering of an orderly database is accepted if and only if every pool named by a
      rendered stream is primed, and every rendered stream is clear. */
  lemma StreamAcceptedIff(db: Db, elsewhere: bool)
    requires Orderly(db)
    ensures var specs, taken := StreamSpecs(db, db.nextId), TakenPorts(HostSpecs(db, db.nextId), elsewhere);
            && (StreamAccepted(specs, Blocks(db, StreamPoolsNamed(specs)), db.certificates, taken)
                <==> (forall u <- db.pools :: StreamServing(db, u) ==> Primed(db.pools[u]))
                     && forall s <- db.streams :: StreamClear(db, elsewhere, s))
  {
    hide Orderly, StreamServing, Primed, BlockAccepted, BlockOf, StreamSpecs, StreamPoolsNamed, TakenPorts, HostSpecs,
         StreamAlright, StreamClear, SpecOfStream, StreamRenders;
    var specs, taken := StreamSpecs(db, db.nextId), TakenPorts(HostSpecs(db, db.nextId), elsewhere);
    var named := StreamPoolsNamed(specs);
    StreamShape(db);
    forall u <- db.pools
      ensures u in named <==> StreamServing(db, u)
      ensures BlockAccepted(BlockOf(db.pools[u])) <==> Primed(db.pools[u])
      ensures BlockOf(db.pools[u]).balancing == db.pools[u].balancing
    {
      StreamNamed(db, u);
      ServedPool(db, u);
    }
    assert Blocks(db, named).Keys == named;
    forall s <- db.streams
      ensures StreamRenders(db, s) ==> SpecOfStream(db, s) in specs && SpecOfStream(db, s).id == s
      ensures StreamRenders(db, s) ==>
                (StreamAlright(SpecOfStream(db, s), named, db.certificates, taken) <==> StreamClear(db, elsewhere, s))
      ensures !StreamRenders(db, s) ==> StreamClear(db, elsewhere, s)
    {
      RenderedStream(db, s);
      UnrenderedStreamClear(db, elsewhere, s);
      if StreamRenders(db, s) { StreamAlrightIff(db, elsewhere, s, named); }
    }
    forall x <- specs ensures x.id in db.streams && StreamRenders(db, x.id) && x == SpecOfStream(db, x.id) {
      StreamSpecIsRendered(db, x);
    }
  }

  lemma RenderedStream(db: Db, s: Id)
    requires Orderly(db) && s in db.streams
    ensures StreamRenders(db, s) ==> SpecOfStream(db, s) in StreamSpecs(db, db.nextId) && SpecOfStream(db, s).id == s
  {
    hide Orderly, Serves;
    NextIdUnused(db);
  }

  lemma StreamSpecIsRendered(db: Db, x: StreamSpec)
    requires x in StreamSpecs(db, db.nextId)
    ensures x.id in db.streams && StreamRenders(db, x.id) && x == SpecOfStream(db, x.id)
  {
    hide Serves;
  }

  lemma UnrenderedStreamClear(db: Db, elsewhere: bool, s: Id)
    ensures !StreamRenders(db, s) ==> StreamClear(db, elsewhere, s)
  {
  }

  // ----- the exact theorem -----

  lemma AcceptedIff(db: Db, elsewhere: bool)
    requires Orderly(db)
    ensures Accepted(db, elsewhere) <==> Clear(db, elsewhere)
  {
    hide Orderly, HttpAccepted, StreamAccepted, HttpServing, StreamServing, Primed, HostClear, StreamClear;
    HttpAcceptedIff(db);
    StreamAcceptedIff(db, elsewhere);
  }

  /** Whatever was written, in whatever order, the rendering is accepted in both contexts if and
      only if every pool in service is primed and every rendered host and stream is clear. */
  lemma EveryRunAcceptedIff(requests: seq<Request>, elsewhere: bool)
    ensures Accepted(Run(Empty, requests), elsewhere) <==> Clear(Run(Empty, requests), elsewhere)
  {
    hide Run, Orderly, Accepted, Clear;
    RunIsOrderly(requests);
    AcceptedIff(Run(Empty, requests), elsewhere);
  }
}
