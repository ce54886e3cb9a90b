/** Which configuration writes can turn a rendering nginx accepts into one it refuses, and inputs on
    which every check passes and nginx still refuses. */
module BreakingWrites {
  import opened Text
  import opened ProxyConfig
  import opened ProxySafety
  import opened DesiredConfig
  import opened Rendering

  // ----- what a write touches -----

  /** A write to the servers, the method or the switch of pool `u`. */
  predicate PoolWritten(q: Request, u: Id) {
    match q
    case UpdatePool(p, _) => p == u
    case AddBackend(p, _) => p == u
    case UpdateBackend(p, _, _) => p == u
    case RemoveBackend(p, _) => p == u
    case _ => false
  }

  predicate BackendWrite(q: Request, u: Id) { PoolWritten(q, u) && !q.UpdatePool? }

  /** The host's own row, its certificate, or a pool that it or one of its locations names. */
  ghost predicate TouchesHost(db: Db, q: Request, h: Id) {
    || (q.CreateHost? && h == db.nextId)
    || (q.UpdateHost? && h == q.host)
    || (h in db.hosts && q.DeleteCertificate? && db.hosts[h].certificate == Some(q.certificate))
    || (h in db.hosts && exists u: Id :: PoolWritten(q, u) && NamedBy(db.hosts[h], u))
  }

  ghost predicate NamedBy(h: Host, u: Id) {
    h.upstream == Some(u) || exists l <- h.locations :: l.upstream == Some(u)
  }

  /** The stream's own row or pool; on port 443, also any host. */
  ghost predicate TouchesStream(db: Db, q: Request, s: Id) {
    || (q.CreateStream? && s == db.nextId)
    || (q.UpdateStream? && s == q.stream)
    || (s in db.streams && exists u: Id :: PoolWritten(q, u) && db.streams[s].upstream == Some(u))
    || (s in db.streams && db.streams[s].port == 443 && exists h: Id :: TouchesHost(db, q, h))
  }

  // ----- what a write leaves -----

  // Apart from what it touches, a write leaves every row as it was or takes it away, and takes no
  // certificate's files away from those that keep it.

  lemma UntouchedPool(db: Db, q: Request, u: Id)
    requires Asked(db, q).Some? && u in db.pools && u in Asked(db, q).value.pools && !PoolWritten(q, u)
    requires u < db.nextId
    ensures Asked(db, q).value.pools[u] == db.pools[u]
  {
    hide MergedPool, MergedBackend, MergedHost, MergedStream, Seeded, Unlinked, UnlinkedStream;
  }

  lemma UntouchedHostRow(db: Db, q: Request, h: Id)
    requires Asked(db, q).Some? && h in Asked(db, q).value.hosts && !TouchesHost(db, q, h)
    ensures h in db.hosts && Asked(db, q).value.hosts[h] == db.hosts[h]
  {
    hide MergedPool, MergedBackend, MergedHost, MergedStream, Seeded, UnlinkedStream, NamedBy, PoolWritten;
  }

  lemma UntouchedStreamRow(db: Db, q: Request, s: Id)
    requires Asked(db, q).Some? && s in Asked(db, q).value.streams && !TouchesStream(db, q, s)
    ensures s in db.streams
    ensures var before, after := db.streams[s], Asked(db, q).value.streams[s];
            after == before || after == before.(certificate := None)
  {
    hide MergedPool, MergedBackend, MergedHost, MergedStream, Seeded, Unlinked, TouchesHost, PoolWritten;
  }

  lemma FilesStay(db: Db, q: Request, c: Id)
    requires Asked(db, q).Some? && c in Asked(db, q).value.certificates && c in db.certificates && c < db.nextId
    ensures db.certificates[c] ==> Asked(db, q).value.certificates[c]
  {
    hide MergedPool, MergedBackend, MergedHost, MergedStream, Seeded, Unlinked, UnlinkedStream;
  }

  lemma ServesAlike(a: map<Id, Pool>, b: map<Id, Pool>, upstream: Option<Id>)
    requires upstream.Some? ==> upstream.value in a && upstream.value in b && a[upstream.value] == b[upstream.value]
    ensures Serves(a, upstream) <==> Serves(b, upstream)
  {
  }

  lemma References(db: Db)
    requires Orderly(db)
    ensures forall h <- db.hosts :: Refers(db.hosts[h].upstream, db.pools.Keys)
    ensures forall h <- db.hosts :: forall l <- db.hosts[h].locations :: Refers(l.upstream, db.pools.Keys)
    ensures forall h <- db.hosts :: Refers(db.hosts[h].certificate, db.certificates.Keys)
    ensures forall s <- db.streams :: Refers(db.streams[s].upstream, db.pools.Keys)
    ensures forall s <- db.streams :: Refers(db.streams[s].certificate, db.certificates.Keys)
  {
    hide Consistent, MethodOk, HostUsable, Usable;
    ConsistentRefers(db);
    CertificatesReferred(db);
  }

  lemma CertificatesReferred(db: Db)
    requires Consistent(db)
    ensures forall h <- db.hosts :: Refers(db.hosts[h].certificate, db.certificates.Keys)
    ensures forall s <- db.streams :: Refers(db.streams[s].certificate, db.certificates.Keys)
  {
    hide PoolRow, LocationShape, OneTarget, PortOk;
    forall h <- db.hosts ensures Refers(db.hosts[h].certificate, db.certificates.Keys) {
      assert HostRow(db.pools.Keys, db.pages, db.certificates.Keys, db.hosts[h]);
    }
    forall s <- db.streams ensures Refers(db.streams[s].certificate, db.certificates.Keys) {
      assert StreamRow(db.pools.Keys, db.certificates.Keys, db.streams[s]);
    }
  }

  /** An untouched host that is still there renders as before, and its locations are kept as before. */
  lemma UntouchedHost(db: Db, q: Request, h: Id)
    requires Orderly(db) && Asked(db, q).Some? && Orderly(Asked(db, q).value)
    requires h in Asked(db, q).value.hosts && !TouchesHost(db, q, h)
    ensures var after := Asked(db, q).value;
            && h in db.hosts && after.hosts[h] == db.hosts[h]
            && (HostRenders(after, h) <==> HostRenders(db, h))
            && (forall l <- db.hosts[h].locations :: Keeps(after.pools, l) <==> Keeps(db.pools, l))
  {
    hide Orderly, Asked, Serves, PoolWritten;
    var after := Asked(db, q).value;
    UntouchedHostRow(db, q, h);
    References(db);
    References(after);
    NextIdUnused(db);
    forall u: Id | NamedBy(db.hosts[h], u) && u in db.pools && u in after.pools
      ensures after.pools[u] == db.pools[u]
    {
      UntouchedPool(db, q, u);
    }
    ServesAlike(after.pools, db.pools, db.hosts[h].upstream);
    forall l <- db.hosts[h].locations ensures Keeps(after.pools, l) <==> Keeps(db.pools, l) {
      assert l.upstream.Some? ==> NamedBy(db.hosts[h], l.upstream.value);
      ServesAlike(after.pools, db.pools, l.upstream);
    }
  }

  lemma HostStaysClear(db: Db, q: Request, h: Id)
    requires Orderly(db) && Asked(db, q).Some? && Orderly(Asked(db, q).value)
    requires h in Asked(db, q).value.hosts && !TouchesHost(db, q, h) && HostClear(db, h)
    ensures HostClear(Asked(db, q).value, h)
  {
    hide Orderly, Asked, HostRenders, Keeps, TouchesHost, PathClear, CodeOk;
    UntouchedHost(db, q, h);
    References(db);
    References(Asked(db, q).value);
    NextIdUnused(db);
    var c := db.hosts[h].certificate;
    if c.Some? { FilesStay(db, q, c.value); }
  }

  lemma UntouchedStream(db: Db, q: Request, s: Id)
    requires Orderly(db) && Asked(db, q).Some? && Orderly(Asked(db, q).value)
    requires s in Asked(db, q).value.streams && !TouchesStream(db, q, s)
    ensures var after := Asked(db, q).value;
            && s in db.streams && after.streams[s].port == db.streams[s].port
            && after.streams[s].tcp == db.streams[s].tcp && after.streams[s].upstream == db.streams[s].upstream
            && (after.streams[s].certificate.None? || after.streams[s].certificate == db.streams[s].certificate)
            && (StreamRenders(after, s) <==> StreamRenders(db, s))
  {
    hide Orderly, Asked, Serves, TouchesHost, PoolWritten;
    var after := Asked(db, q).value;
    UntouchedStreamRow(db, q, s);
    References(db);
    References(after);
    NextIdUnused(db);
    var u := db.streams[s].upstream;
    if u.Some? && u.value in after.pools { UntouchedPool(db, q, u.value); }
    ServesAlike(after.pools, db.pools, u);
  }

  lemma StreamStaysClear(db: Db, q: Request, s: Id, elsewhere: bool)
    requires Orderly(db) && Asked(db, q).Some? && Orderly(Asked(db, q).value)
    requires s in Asked(db, q).value.streams && !TouchesStream(db, q, s) && StreamClear(db, elsewhere, s)
    ensures StreamClear(Asked(db, q).value, elsewhere, s)
  {
    hide Orderly, Asked, StreamRenders, HostRenders, TouchesHost;
    var after := Asked(db, q).value;
    UntouchedStream(db, q, s);
    References(db);
    References(after);
    NextIdUnused(db);
    var c := after.streams[s].certificate;
    if c.Some? { FilesStay(db, q, c.value); }
    if db.streams[s].port == 443 && TlsListens(after, elsewhere) && !elsewhere {
      var h :| h in after.hosts && HostRenders(after, h) && after.hosts[h].certificate.Some?;
      UntouchedHost(db, q, h);
    }
  }

  // ----- the writes that break it -----

  ghost predicate InService(db: Db, u: Id) { u in db.pools && (HttpServing(db, u) || StreamServing(db, u)) }

  lemma SamePrimed(p: Pool, r: Pool)
    requires p.backends == r.backends
    ensures Primed(p) <==> Primed(r)
  {
  }

  lemma SameServers(db: Db, q: Request, u: Id)
    requires u in db.pools && u < db.nextId && !BackendWrite(q, u)
    requires Asked(db, q).Some? && u in Asked(db, q).value.pools
    ensures Asked(db, q).value.pools[u].backends == db.pools[u].backends
  {
    hide MergedBackend, MergedHost, MergedStream, Seeded, Unlinked, UnlinkedStream;
  }

  /** A write that turns an accepted rendering into a refused one does one of three things: it leaves
      a pool in service unprimed, having changed that pool's servers or brought it into service; it
      touches a host that is then not clear; or it touches a stream that is then not clear. */
  lemma BreakingWrite(db: Db, q: Request, elsewhere: bool)
    requires Orderly(db) && Accepted(db, elsewhere)
    requires Execute(db, q).Done? && !Accepted(Execute(db, q).db, elsewhere)
    ensures var after := Execute(db, q).db;
            || (exists u <- after.pools ::
                  InService(after, u) && !Primed(after.pools[u]) && (BackendWrite(q, u) || !InService(db, u)))
            || (exists h <- after.hosts :: !HostClear(after, h) && TouchesHost(db, q, h))
            || (exists s <- after.streams :: !StreamClear(after, elsewhere, s) && TouchesStream(db, q, s))
  {
    hide Orderly, Execute, Accepted, Asked, Primed, HttpServing, StreamServing, HostClear, StreamClear, TouchesHost,
         TouchesStream, BackendWrite;
    var after := Execute(db, q).db;
    ChecksAreExact(db, q);
    AcceptedIff(db, elsewhere);
    AcceptedIff(after, elsewhere);
    forall h <- after.hosts | !TouchesHost(db, q, h) ensures HostClear(after, h) {
      UntouchedHost(db, q, h);
      HostStaysClear(db, q, h);
    }
    forall s <- after.streams | !TouchesStream(db, q, s) ensures StreamClear(after, elsewhere, s) {
      UntouchedStream(db, q, s);
      StreamStaysClear(db, q, s, elsewhere);
    }
    forall u <- after.pools | InService(db, u) && !BackendWrite(q, u) ensures Primed(after.pools[u]) {
      assert PoolClear(db, u);
      NextIdUnused(db);
      SameServers(db, q, u);
      SamePrimed(db.pools[u], after.pools[u]);
    }
    if u :| u in after.pools && !PoolClear(after, u) {
      assert InService(after, u) && !Primed(after.pools[u]);
    }
  }

  /** Creating a pool, deleting anything but a certificate, binding pages and obtaining certificates
      never break it. */
  predicate Harmless(q: Request) {
    || q.CreatePool? || q.DeletePool? || q.DeleteHost? || q.DeleteStream?
    || q.CreatePage? || q.DeletePage? || q.SetSlot? || q.ReplaceErrorPages?
    || q.CreateCertificate? || q.IssueCertificate?
  }

  lemma HarmlessTouchesNothing(db: Db, q: Request)
    requires Harmless(q)
    ensures forall h: Id :: !TouchesHost(db, q, h)
    ensures forall s: Id :: !TouchesStream(db, q, s)
    ensures forall u: Id :: !PoolWritten(q, u)
  {
  }

  lemma HarmlessWrite(db: Db, q: Request, elsewhere: bool)
    requires Orderly(db) && Accepted(db, elsewhere) && Harmless(q) && Execute(db, q).Done?
    ensures Accepted(Execute(db, q).db, elsewhere)
  {
    hide Orderly, Execute, Accepted, Primed, TouchesHost, TouchesStream, Asked, InService, HostClear, StreamClear,
         Harmless;
    var after := Execute(db, q).db;
    ChecksAreExact(db, q);
    HarmlessTouchesNothing(db, q);
    forall u <- after.pools | InService(after, u) ensures InService(db, u) { NothingEntersService(db, q, u); }
    if !Accepted(after, elsewhere) {
      BreakingWrite(db, q, elsewhere);
      assert false;
    }
  }

  lemma NothingEntersService(db: Db, q: Request, u: Id)
    requires Orderly(db) && Harmless(q) && Asked(db, q).Some? && Orderly(Asked(db, q).value)
    requires InService(Asked(db, q).value, u)
    ensures InService(db, u)
  {
    hide Orderly, Asked, HostRenders, StreamRenders, Keeps, TouchesHost, TouchesStream, Harmless;
    var after := Asked(db, q).value;
    HarmlessTouchesNothing(db, q);
    References(db);
    if HttpServing(after, u) {
      var h :| h in after.hosts && HostRenders(after, h) && NamesPool(after, after.hosts[h], u);
      UntouchedHost(db, q, h);
      assert HostRenders(db, h) && NamesPool(db, db.hosts[h], u);
    } else {
      var s :| s in after.streams && StreamRenders(after, s) && after.streams[s].upstream == Some(u);
      UntouchedStream(db, q, s);
      RenderedStreamRow(db, s);
    }
  }

  lemma RenderedStreamRow(db: Db, s: Id)
    ensures StreamRenders(db, s) ==> s in db.streams
  {
  }

  // ----- inputs on which the promise fails -----

  /** One row each: nothing here names anything that is not made. */
  function PlainHost(name: string, port: int, certificate: Option<Id>, ls: seq<Location>): Host {
    Host(None, Some(name), Some(port), true, certificate, false, ls)
  }

  function SiteAt(path: string): Location { Location(path, DefaultSite, None, None, None, None, None) }

  /** A pool whose only server has weight zero or is a backup, put into service. */
  function Unprimed(b: Backend): seq<Request> {
    [CreatePool(RoundRobin, Both, true, [b]), CreateHost(Host(Some(0), None, None, true, None, false, []))]
  }

  /** Every check passes and both writes commit, yet nginx refuses what is rendered. */
  lemma UnprimedPoolIsRendered(b: Backend, elsewhere: bool)
    requires b.enabled && PortOk(b.port) && b.weight >= 0 && (b.weight == 0 || b.backup)
    ensures var db := Run(Empty, Unprimed(b));
            && Orderly(db) && db.pools.Keys == {0} && db.hosts.Keys == {1}
            && 0 in PoolsNamed(HostSpecs(db, db.nextId)) && !Accepted(db, elsewhere)
  {
    hide Orderly, Execute, Accepted, HostRenders, NamesPool, HostClear, StreamClear;
    var requests := Unprimed(b);
    var p := Seeded(RoundRobin, Both, true, [b]);
    var h := Host(Some(0), None, None, true, None, false, []);
    var one := WithPool(Empty, 0, p).(nextId := 1);
    var two := one.(hosts := map[1 := h], nextId := 2);
    OnePool(b);
    OneHost(b, one, h);
    TwoSteps(requests[0], requests[1], one, two);
    RunIsOrderly(requests);
    hide Run;
    RendersUnprimed(b, p, h, two);
    HttpNamed(two, 0);
    AcceptedIff(two, elsewhere);
  }

  lemma OneStep(q: Request, db: Db)
    requires Execute(Empty, q) == Done(db)
    ensures Run(Empty, [q]) == db
  {
    hide Execute;
    assert [q][..0] == [];
  }

  lemma TwoSteps(q: Request, r: Request, one: Db, two: Db)
    requires Execute(Empty, q) == Done(one) && Execute(one, r) == Done(two)
    ensures Run(Empty, [q, r]) == two
  {
    hide Execute;
    OneStep(q, one);
    assert [q, r][..1] == [q];
  }

  lemma OnePool(b: Backend)
    requires PortOk(b.port) && b.weight >= 0
    ensures Execute(Empty, CreatePool(RoundRobin, Both, true, [b]))
         == Done(WithPool(Empty, 0, Seeded(RoundRobin, Both, true, [b])).(nextId := 1))
  {
  }

  lemma OneHost(b: Backend, one: Db, h: Host)
    requires PortOk(b.port) && b.weight >= 0
    requires one == WithPool(Empty, 0, Seeded(RoundRobin, Both, true, [b])).(nextId := 1)
    requires h == Host(Some(0), None, None, true, None, false, [])
    ensures Execute(one, CreateHost(h)) == Done(one.(hosts := map[1 := h], nextId := 2))
  {
  }

  lemma RendersUnprimed(b: Backend, p: Pool, h: Host, db: Db)
    requires b.enabled && (b.weight == 0 || b.backup) && p == Seeded(RoundRobin, Both, true, [b])
    requires h == Host(Some(0), None, None, true, None, false, []) && db.pools == map[0 := p] && db.hosts == map[1 := h]
    ensures HttpServing(db, 0) && !PoolClear(db, 0)
  {
    assert p.backends[0] == b && p.backends.Keys == {0};
    assert 0 in p.backends && p.backends[0].enabled;
    assert BlockOf(p).servers[0] == b;
    assert BlockOf(p).servers != map[];
    assert db.pools[0] == p && db.hosts[1] == h && Serves(db.pools, h.upstream);
    assert HostRenders(db, 1) && NamesPool(db, h, 0);
    assert 0 in db.pools && !Primed(db.pools[0]);
  }

  /** A location at the challenge path, or at the root, of a host without a certificate. */
  lemma RepeatedLocationIsRendered(path: string, name: string, port: int, elsewhere: bool)
    requires PortOk(port) && (path == ACME_PATH || path == "/")
    ensures var db := Run(Empty, [CreateHost(PlainHost(name, port, None, [SiteAt(path)]))]);
            Orderly(db) && db.hosts.Keys == {0} && !Accepted(db, elsewhere)
  {
    hide Orderly, Execute, Accepted, StreamClear;
    var h := PlainHost(name, port, None, [SiteAt(path)]);
    var db := Empty.(hosts := map[0 := h], nextId := 1);
    FirstHost(h);
    OneStep(CreateHost(h), db);
    RunIsOrderly([CreateHost(h)]);
    hide Run;
    assert h.locations[0] in db.hosts[0].locations && HostRenders(db, 0);
    assert Keeps(db.pools, h.locations[0]) && !PathClear(h, h.locations[0]);
    assert !HostClear(db, 0) && 0 in db.hosts;
    AcceptedIff(db, elsewhere);
  }

  lemma FirstHost(h: Host)
    requires HostRow({}, {}, {}, h)
    ensures Execute(Empty, CreateHost(h)) == Done(Empty.(hosts := map[0 := h], nextId := 1))
  {
    hide HostRow, LocationsValid, PoolsUsable;
    NoReferences(h);
    assert Empty.pools.Keys == {} && Empty.certificates.Keys == {} && Empty.hosts[0 := h] == map[0 := h];
    assert Consistent(Empty.(hosts := map[0 := h], nextId := 1));
  }

  lemma NoReferences(h: Host)
    requires HostRow({}, {}, {}, h)
    ensures h.upstream.None? && LocationsValid(Empty, h.locations)
  {
    hide LocationShape, OneTarget, PortOk;
    assert PoolsOf(h.locations) == {} && PagesOf(h.locations) == {};
  }

  /** A TCP stream on a port the base configuration or the reload agent listens on, or on the TLS
      port when that is in use. */
  lemma TakenPortIsRendered(port: int, name: string, to: int, udp: bool, elsewhere: bool)
    requires port in BASE_PORTS || port == AGENT_PORT || (port == 443 && elsewhere)
    requires PortOk(to)
    ensures var db := Run(Empty, [CreateStream(Stream(port, None, Some(name), Some(to), true, udp, None, true))]);
            Orderly(db) && db.streams.Keys == {0} && !Accepted(db, elsewhere)
  {
    hide Orderly, Execute, Accepted, HostClear;
    var s := Stream(port, None, Some(name), Some(to), true, udp, None, true);
    var db := Empty.(streams := map[0 := s], nextId := 1);
    FirstStream(s);
    OneStep(CreateStream(s), db);
    RunIsOrderly([CreateStream(s)]);
    hide Run;
    assert db.streams[0] == s && StreamRenders(db, 0);
    assert !StreamClear(db, elsewhere, 0) && 0 in db.streams;
    AcceptedIff(db, elsewhere);
  }

  lemma FirstStream(s: Stream)
    requires StreamRow({}, {}, s) && s.upstream.None?
    ensures Execute(Empty, CreateStream(s)) == Done(Empty.(streams := map[0 := s], nextId := 1))
  {
    hide PoolsUsable, OneTarget, PortOk;
  }

  /** A host given a certificate whose files are still to come. */
  lemma PendingCertificateIsRendered(name: string, port: int, elsewhere: bool)
    requires PortOk(port)
    ensures var db := Run(Empty, [CreateCertificate(false), CreateHost(PlainHost(name, port, Some(0), []))]);
            Orderly(db) && db.hosts.Keys == {1} && !Accepted(db, elsewhere)
  {
    hide Orderly, Execute, Accepted, StreamClear;
    var h := PlainHost(name, port, Some(0), []);
    var one := Empty.(certificates := map[0 := false], nextId := 1);
    var two := one.(hosts := map[1 := h], nextId := 2);
    PendingCertificate(one, h);
    TwoSteps(CreateCertificate(false), CreateHost(h), one, two);
    RunIsOrderly([CreateCertificate(false), CreateHost(h)]);
    hide Run;
    assert two.hosts[1] == h && HostRenders(two, 1);
    assert !HostClear(two, 1) && 1 in two.hosts;
    AcceptedIff(two, elsewhere);
  }

  lemma PendingCertificate(one: Db, h: Host)
    requires one == Empty.(certificates := map[0 := false], nextId := 1)
    requires h.upstream.None? && h.locations == [] && HostRow({}, {}, {0}, h)
    ensures Execute(Empty, CreateCertificate(false)) == Done(one)
    ensures Execute(one, CreateHost(h)) == Done(one.(hosts := map[1 := h], nextId := 2))
  {
    hide OneTarget, PortOk;
    assert PoolsOf([]) == {} && PagesOf([]) == {};
    assert one.certificates.Keys == {0};
  }
}
