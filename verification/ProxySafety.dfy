/** Every run of configuration writes keeps the promises of the configuration services, and their
    incremental checks refuse exactly the writes that would break one. */
module ProxySafety {
  import opened Text
  import opened ProxyConfig

  // ----- one changed row -----

  /** A pool changes under its references only if each of them still may use it. */
  ghost predicate ContextFits(db: Db, id: Id, c: Context) {
    && (forall h <- db.hosts ::
          && (db.hosts[h].upstream == Some(id) ==> UsableIn(c, Http))
          && forall l <- db.hosts[h].locations :: l.upstream == Some(id) ==> UsableIn(c, Http))
    && (forall s <- db.streams :: db.streams[s].upstream == Some(id) ==> UsableIn(c, Tcp))
  }

  lemma HostRowGrows(pools: set<Id>, more: set<Id>, pages: set<Id>, certs: set<Id>, h: Host)
    requires HostRow(pools, pages, certs, h) && pools <= more
    ensures HostRow(more, pages, certs, h)
  {
  }

  lemma PoolWriteConsistent(db: Db, id: Id, p: Pool, next: Id)
    requires Consistent(db)
    ensures Consistent(WithPool(db, id, p).(nextId := next)) <==> PoolRow(p)
  {
    hide PoolRow, HostRow, OneTarget, PortOk;
    var after := WithPool(db, id, p).(nextId := next);
    assert after.pools[id] == p && db.pools.Keys <= after.pools.Keys;
    forall h <- db.hosts ensures HostRow(after.pools.Keys, after.pages, after.certificates.Keys, db.hosts[h]) {
      HostRowGrows(db.pools.Keys, after.pools.Keys, db.pages, db.certificates.Keys, db.hosts[h]);
    }
  }

  lemma PoolWrite(db: Db, id: Id, p: Pool, next: Id)
    requires Orderly(db) && id < next && db.nextId <= next
    requires forall b <- p.backends :: b < p.nextBackend
    ensures var after := WithPool(db, id, p).(nextId := next);
            && (Consistent(after) <==> PoolRow(p))
            && (Orderly(after) <==> PoolRow(p) && MethodOk(p) && ContextFits(db, id, p.context))
  {
    hide PoolRow, MethodOk, UsableIn, Consistent;
    var after := WithPool(db, id, p).(nextId := next);
    PoolWriteConsistent(db, id, p, next);
    if Consistent(db) { ConsistentRefers(db); }
    assert after.pools[id] == p;
    forall h <- db.hosts
      ensures HostUsable(after.pools, db.hosts[h])
         <==> (db.hosts[h].upstream == Some(id) ==> UsableIn(p.context, Http))
              && forall l <- db.hosts[h].locations :: l.upstream == Some(id) ==> UsableIn(p.context, Http)
    {
      assert HostUsable(db.pools, db.hosts[h]);
    }
  }

  lemma ConsistentRefers(db: Db)
    requires Consistent(db)
    ensures forall h <- db.hosts :: Refers(db.hosts[h].upstream, db.pools.Keys)
    ensures forall h <- db.hosts :: forall l <- db.hosts[h].locations :: Refers(l.upstream, db.pools.Keys)
    ensures forall s <- db.streams :: Refers(db.streams[s].upstream, db.pools.Keys)
  {
    hide PoolRow, OneTarget, LocationShape, PortOk, Refers;
    forall h <- db.hosts
      ensures Refers(db.hosts[h].upstream, db.pools.Keys)
      ensures forall l <- db.hosts[h].locations :: Refers(l.upstream, db.pools.Keys)
    {
      assert HostRow(db.pools.Keys, db.pages, db.certificates.Keys, db.hosts[h]);
    }
  }

  lemma HostWrite(db: Db, id: Id, h: Host, next: Id)
    requires Orderly(db) && id < next && db.nextId <= next
    ensures var after := db.(hosts := db.hosts[id := h], nextId := next);
            && (Consistent(after) <==> HostRow(db.pools.Keys, db.pages, db.certificates.Keys, h))
            && (Orderly(after)
                <==> HostRow(db.pools.Keys, db.pages, db.certificates.Keys, h) && HostUsable(db.pools, h))
  {
    hide PoolRow, HostRow, StreamRow, MethodOk, HostUsable, Usable, PortsUnique;
    var after := db.(hosts := db.hosts[id := h], nextId := next);
    assert after.hosts[id] == h;
  }

  ghost predicate PortFree(db: Db, id: Id, port: int) {
    forall s <- db.streams :: db.streams[s].port == port ==> s == id
  }

  lemma StreamWrite(db: Db, id: Id, s: Stream, next: Id)
    requires Orderly(db) && id < next && db.nextId <= next
    ensures var after := db.(streams := db.streams[id := s], nextId := next);
            && (Consistent(after) <==> StreamRow(db.pools.Keys, db.certificates.Keys, s) && PortFree(db, id, s.port))
            && (Orderly(after)
                <==> StreamRow(db.pools.Keys, db.certificates.Keys, s) && PortFree(db, id, s.port)
                     && Usable(db.pools, s.upstream, Tcp))
  {
    hide PoolRow, HostRow, StreamRow, MethodOk, HostUsable, Usable;
    var after := db.(streams := db.streams[id := s], nextId := next);
    assert after.streams[id] == s;
    if PortsUnique(after.streams) {
      forall t <- db.streams | db.streams[t].port == s.port ensures t == id {
        assert after.streams[t].port == s.port;
      }
    }
  }

  // ----- the checks against the whole-database condition -----

  /** On an orderly database a write commits exactly when what it asks for exists and is orderly,
      and then leaves exactly that. */
  ghost predicate Exact(db: Db, q: Request) {
    && (Execute(db, q).Done? <==> Asked(db, q).Some? && Orderly(Asked(db, q).value))
    && (Execute(db, q).Done? ==> Execute(db, q).db == Asked(db, q).value)
  }

  lemma PoolFits(db: Db, id: Id)
    requires Orderly(db)
    ensures id in db.pools ==> ContextFits(db, id, db.pools[id].context)
    ensures id !in db.pools ==> forall c :: ContextFits(db, id, c)
  {
    hide PoolRow, MethodOk, UsableIn, Consistent, Numbered;
    ConsistentRefers(db);
    if id in db.pools {
      forall h <- db.hosts
        ensures db.hosts[h].upstream == Some(id) ==> UsableIn(db.pools[id].context, Http)
        ensures forall l <- db.hosts[h].locations :: l.upstream == Some(id) ==> UsableIn(db.pools[id].context, Http)
      {
        assert HostUsable(db.pools, db.hosts[h]);
      }
    }
  }

  /** Counting the references decides whether any is left behind. */
  lemma CountsDecide(db: Db, id: Id, c: Context)
    ensures ContextFits(db, id, c) <==> ContextChangeAllowed(db, id, Some(c))
  {
    var hosts, locations, streams := HostsNaming(db, id), LocationsNaming(db, id), StreamsNaming(db, id);
    if ContextFits(db, id, c) {
      if c.Http? { assert streams == {}; }
      if c.Tcp? {
        assert hosts == {};
        forall h, i: nat | h in db.hosts && i < |db.hosts[h].locations|
          ensures db.hosts[h].locations[i].upstream != Some(id)
        {
          assert db.hosts[h].locations[i] in db.hosts[h].locations;
        }
        assert locations == {};
      }
    } else {
      if h :| h in db.hosts && db.hosts[h].upstream == Some(id) && !UsableIn(c, Http) { assert h in hosts; }
      if h, i: nat :| h in db.hosts && i < |db.hosts[h].locations|
                      && db.hosts[h].locations[i].upstream == Some(id) && !UsableIn(c, Http) {
        assert (h, i) in locations;
      }
      if s :| s in db.streams && db.streams[s].upstream == Some(id) && !UsableIn(c, Tcp) { assert s in streams; }
    }
  }

  lemma CreatePoolExact(db: Db, q: Request)
    requires Orderly(db) && q.CreatePool?
    ensures Exact(db, q)
  {
    hide Orderly, Consistent, PoolRow, HasBackup, ContextFits;
    var p := Seeded(q.balancing, q.context, q.enabled, q.seeds);
    NextIdUnused(db);
    PoolWrite(db, db.nextId, p, db.nextId + 1);
    PoolFits(db, db.nextId);
    SeedsBackup(q);
  }

  lemma SeedsBackup(q: Request)
    requires q.CreatePool?
    ensures (exists b <- q.seeds :: b.backup) <==> HasBackup(Seeded(q.balancing, q.context, q.enabled, q.seeds))
  {
    var p := Seeded(q.balancing, q.context, q.enabled, q.seeds);
    if b :| b in q.seeds && b.backup {
      var i: Id :| i < |q.seeds| && q.seeds[i] == b;
      assert p.backends[i].backup;
    }
  }

  lemma NextIdUnused(db: Db)
    requires Orderly(db)
    ensures db.nextId !in db.pools && db.nextId !in db.hosts && db.nextId !in db.streams
    ensures forall p <- db.pools :: p < db.nextId && forall b <- db.pools[p].backends :: b < db.pools[p].nextBackend
    ensures forall h <- db.hosts :: h < db.nextId
    ensures forall s <- db.streams :: s < db.nextId
    ensures forall c <- db.certificates :: c < db.nextId
    ensures Consistent(db)
  {
  }

  lemma UpdatePoolExact(db: Db, q: Request)
    requires Orderly(db) && q.UpdatePool?
    ensures Exact(db, q)
  {
    hide Orderly, Consistent, PoolRow, ContextFits, ContextChangeAllowed;
    if q.pool in db.pools {
      var p := db.pools[q.pool];
      var m := MergedPool(p, q.poolChanges);
      if m.Some? {
        NextIdUnused(db);
        PoolWrite(db, q.pool, m.value, db.nextId);
        PoolFits(db, q.pool);
        CountsDecide(db, q.pool, m.value.context);
        StoredPoolOk(db, q.pool);
        assert WithPool(db, q.pool, m.value).(nextId := db.nextId) == WithPool(db, q.pool, m.value);
        SameRows(p, m.value);
      }
    }
  }

  lemma SameRows(p: Pool, r: Pool)
    requires r.backends == p.backends
    ensures PoolRow(r) <==> PoolRow(p)
    ensures HasBackup(r) <==> HasBackup(p)
  {
  }

  lemma StoredPoolOk(db: Db, id: Id)
    requires Orderly(db) && id in db.pools
    ensures PoolRow(db.pools[id]) && MethodOk(db.pools[id])
  {
  }

  lemma DeletePoolExact(db: Db, q: Request)
    requires Orderly(db) && q.DeletePool?
    ensures Exact(db, q)
  {
    hide PoolRow, StreamRow, MethodOk, PortsUnique, LocationShape, OneTarget, PortOk, UsableIn;
    if q.pool in db.pools {
      var after := db.(pools := db.pools - {q.pool});
      if Consistent(after) {
        forall h <- db.hosts ensures HostUsable(after.pools, db.hosts[h]) {
          assert HostUsable(db.pools, db.hosts[h]);
        }
      }
    }
  }

  lemma AddBackendExact(db: Db, q: Request)
    requires Orderly(db) && q.AddBackend?
    ensures Exact(db, q)
  {
    hide Orderly, Consistent, PoolRow, ContextFits;
    if q.pool in db.pools {
      var p := db.pools[q.pool];
      var r := p.(backends := p.backends[p.nextBackend := q.added], nextBackend := p.nextBackend + 1);
      NextIdUnused(db);
      PoolWrite(db, q.pool, r, db.nextId);
      PoolFits(db, q.pool);
      StoredPoolOk(db, q.pool);
      assert WithPool(db, q.pool, r).(nextId := db.nextId) == WithPool(db, q.pool, r);
      BackupAdded(p, p.nextBackend, q.added);
    }
  }

  lemma BackupAdded(p: Pool, b: Id, added: Backend)
    ensures HasBackup(p.(backends := p.backends[b := added]))
       <==> added.backup || HasBackup(p.(backends := p.backends - {b}))
    ensures b !in p.backends ==> (HasBackup(p.(backends := p.backends - {b})) <==> HasBackup(p))
    ensures b in p.backends ==> (HasBackup(p) <==> p.backends[b].backup || HasBackup(p.(backends := p.backends - {b})))
  {
    var r := p.(backends := p.backends[b := added]);
    var rest := p.(backends := p.backends - {b});
    if HasBackup(rest) {
      var c :| c in rest.backends && rest.backends[c].backup;
      assert r.backends[c].backup && p.backends[c].backup;
    }
    if added.backup { assert r.backends[b].backup; }
    if HasBackup(r) && !added.backup {
      var c :| c in r.backends && r.backends[c].backup;
      assert rest.backends[c].backup;
    }
    if HasBackup(p) {
      var c :| c in p.backends && p.backends[c].backup;
      assert c == b || rest.backends[c].backup;
    }
  }

  lemma UpdateBackendExact(db: Db, q: Request)
    requires Orderly(db) && q.UpdateBackend?
    ensures Exact(db, q)
  {
    hide Orderly, Consistent, PoolRow, ContextFits, HasBackup;
    if q.pool in db.pools && q.backend in db.pools[q.pool].backends {
      var p := db.pools[q.pool];
      var m := MergedBackend(p.backends[q.backend], q.backendChanges);
      if m.Some? {
        var r := p.(backends := p.backends[q.backend := m.value]);
        NextIdUnused(db);
        PoolWrite(db, q.pool, r, db.nextId);
        PoolFits(db, q.pool);
        StoredPoolOk(db, q.pool);
        assert WithPool(db, q.pool, r).(nextId := db.nextId) == WithPool(db, q.pool, r);
        BackupAdded(p, q.backend, m.value);
      }
    }
  }

  lemma RemoveBackendExact(db: Db, q: Request)
    requires Orderly(db) && q.RemoveBackend?
    ensures Exact(db, q)
    ensures Execute(db, q).Done? <==> q.pool in db.pools && q.backend in db.pools[q.pool].backends
  {
    hide Orderly, Consistent, ContextFits, HasBackup;
    if q.pool in db.pools && q.backend in db.pools[q.pool].backends {
      var p := db.pools[q.pool];
      var r := p.(backends := p.backends - {q.backend});
      NextIdUnused(db);
      PoolWrite(db, q.pool, r, db.nextId);
      PoolFits(db, q.pool);
      StoredPoolOk(db, q.pool);
      assert WithPool(db, q.pool, r).(nextId := db.nextId) == WithPool(db, q.pool, r);
      BackupAdded(p, q.backend, p.backends[q.backend]);
    }
  }

  // ----- hosts -----

  /** The reference checks of a host say what its row's foreign keys and contexts say. */
  lemma LocationChecks(db: Db, ls: seq<Location>)
    ensures LocationsValid(db, ls)
       <==> forall l <- ls ::
              Refers(l.upstream, db.pools.Keys) && Refers(l.page, db.pages) && Usable(db.pools, l.upstream, Http)
  {
    hide UsableIn;
    if LocationsValid(db, ls) {
      forall l <- ls
        ensures Refers(l.upstream, db.pools.Keys) && Refers(l.page, db.pages) && Usable(db.pools, l.upstream, Http)
      {
        assert l.upstream.Some? ==> l.upstream.value in PoolsOf(ls);
        assert l.page.Some? ==> l.page.value in PagesOf(ls);
      }
    }
  }

  lemma UpstreamCheck(db: Db, upstream: Option<Id>, where_: Context)
    ensures (upstream.Some? ==> PoolsUsable(db, {upstream.value}, where_))
       <==> Refers(upstream, db.pools.Keys) && Usable(db.pools, upstream, where_)
  {
    hide UsableIn;
    if upstream.Some? && PoolsUsable(db, {upstream.value}, where_) { assert upstream.value in {upstream.value}; }
  }

  lemma HostRowReferences(pools: set<Id>, pages: set<Id>, certs: set<Id>, h: Host)
    requires HostRow(pools, pages, certs, h)
    ensures Refers(h.upstream, pools)
    ensures forall l <- h.locations :: Refers(l.upstream, pools) && Refers(l.page, pages)
  {
  }

  lemma CreateHostExact(db: Db, q: Request)
    requires Orderly(db) && q.CreateHost?
    ensures Exact(db, q)
  {
    hide Orderly, Consistent, HostRow, Refers, Usable, LocationsValid, PoolsUsable;
    var h := q.newHost;
    HostWrite(db, db.nextId, h, db.nextId + 1);
    UpstreamCheck(db, h.upstream, Http);
    LocationChecks(db, h.locations);
    if HostRow(db.pools.Keys, db.pages, db.certificates.Keys, h) {
      HostRowReferences(db.pools.Keys, db.pages, db.certificates.Keys, h);
    }
  }

  lemma UpdateHostExact(db: Db, q: Request)
    requires Orderly(db) && q.UpdateHost?
    ensures Exact(db, q)
  {
    hide Orderly, Consistent, HostRow, Refers, Usable, LocationsValid, PoolsUsable;
    if q.host in db.hosts {
      var c := q.hostChanges;
      var m := MergedHost(db.hosts[q.host], c);
      if m.Some? {
        var h := m.value;
        NextIdUnused(db);
        HostWrite(db, q.host, h, db.nextId);
        assert db.(hosts := db.hosts[q.host := h], nextId := db.nextId) == db.(hosts := db.hosts[q.host := h]);
        UpstreamCheck(db, h.upstream, Http);
        LocationChecks(db, h.locations);
        StoredHostOk(db, q.host);
        if HostRow(db.pools.Keys, db.pages, db.certificates.Keys, h) {
          HostRowReferences(db.pools.Keys, db.pages, db.certificates.Keys, h);
        }
        if c.locations.Some? {
          var cleared := h.(locations := []);
          HostWrite(db, q.host, cleared, db.nextId);
          assert db.(hosts := db.hosts[q.host := cleared], nextId := db.nextId)
              == db.(hosts := db.hosts[q.host := cleared]);
          assert MergedHost(db.hosts[q.host], c.(locations := Some([]))) == Some(cleared);
          RowWithoutLocations(db, h);
        }
      }
    }
  }

  lemma RowWithoutLocations(db: Db, h: Host)
    ensures HostRow(db.pools.Keys, db.pages, db.certificates.Keys, h) ==>
              HostRow(db.pools.Keys, db.pages, db.certificates.Keys, h.(locations := []))
  {
  }

  lemma StoredHostOk(db: Db, id: Id)
    requires Orderly(db) && id in db.hosts
    ensures HostRow(db.pools.Keys, db.pages, db.certificates.Keys, db.hosts[id]) && HostUsable(db.pools, db.hosts[id])
  {
  }

  lemma DeleteHostExact(db: Db, q: Request)
    requires Orderly(db) && q.DeleteHost?
    ensures Exact(db, q)
    ensures Execute(db, q).Done? <==> q.host in db.hosts
  {
    hide Orderly, Consistent;
    FewerRows(db, db.hosts - {q.host}, db.streams);
    ConsistentWhenOrderly(db.(hosts := db.hosts - {q.host}));
  }

  /** Hosts and streams can always go. */
  lemma FewerRows(db: Db, hosts: map<Id, Host>, streams: map<Id, Stream>)
    requires Orderly(db)
    requires forall h <- hosts :: h in db.hosts && hosts[h] == db.hosts[h]
    requires forall s <- streams :: s in db.streams && streams[s] == db.streams[s]
    ensures Orderly(db.(hosts := hosts, streams := streams))
  {
    hide PoolRow, HostRow, StreamRow, MethodOk, HostUsable, Usable;
  }

  // ----- streams and pages -----

  lemma CreateStreamExact(db: Db, q: Request)
    requires Orderly(db) && q.CreateStream?
    ensures Exact(db, q)
  {
    hide Orderly, Consistent, Usable, PoolsUsable, OneTarget, PortOk;
    var s := q.newStream;
    NextIdUnused(db);
    StreamWrite(db, db.nextId, s, db.nextId + 1);
    UpstreamCheck(db, s.upstream, Tcp);
  }

  lemma UpdateStreamExact(db: Db, q: Request)
    requires Orderly(db) && q.UpdateStream?
    ensures Exact(db, q)
  {
    hide Orderly, Consistent, Usable, PoolsUsable, OneTarget, PortOk;
    if q.stream in db.streams {
      var m := MergedStream(db.streams[q.stream], q.streamChanges);
      if m.Some? {
        var s := m.value;
        NextIdUnused(db);
        StreamWrite(db, q.stream, s, db.nextId);
        assert db.(streams := db.streams[q.stream := s], nextId := db.nextId)
            == db.(streams := db.streams[q.stream := s]);
        UpstreamCheck(db, s.upstream, Tcp);
        StoredStreamOk(db, q.stream);
      }
    }
  }

  lemma StoredStreamOk(db: Db, id: Id)
    requires Orderly(db) && id in db.streams
    ensures StreamRow(db.pools.Keys, db.certificates.Keys, db.streams[id])
    ensures Usable(db.pools, db.streams[id].upstream, Tcp)
    ensures PortFree(db, id, db.streams[id].port)
  {
  }

  lemma DeleteStreamExact(db: Db, q: Request)
    requires Orderly(db) && q.DeleteStream?
    ensures Exact(db, q)
    ensures Execute(db, q).Done? <==> q.stream in db.streams
  {
    hide Orderly, Consistent;
    FewerRows(db, db.hosts, db.streams - {q.stream});
    ConsistentWhenOrderly(db.(streams := db.streams - {q.stream}));
  }

  lemma CreatePageExact(db: Db, q: Request)
    requires Orderly(db) && q.CreatePage?
    ensures Exact(db, q) && Execute(db, q).Done?
  {
    hide Orderly, Consistent;
    OnePageMore(db);
    ConsistentWhenOrderly(Asked(db, q).value);
  }

  lemma ConsistentWhenOrderly(db: Db)
    ensures Orderly(db) ==> Consistent(db)
  {
  }

  lemma OnePageMore(db: Db)
    requires Orderly(db)
    ensures Orderly(db.(pages := db.pages + {db.nextId}, nextId := db.nextId + 1))
  {
    hide PoolRow, HostRow, StreamRow, MethodOk, HostUsable, Usable, PortsUnique;
    forall h <- db.hosts
      ensures HostRow(db.pools.Keys, db.pages + {db.nextId}, db.certificates.Keys, db.hosts[h])
    {
      MorePages(db.pools.Keys, db.pages, db.pages + {db.nextId}, db.certificates.Keys, db.hosts[h]);
    }
  }

  lemma MorePages(pools: set<Id>, pages: set<Id>, more: set<Id>, certs: set<Id>, h: Host)
    requires HostRow(pools, pages, certs, h) && pages <= more
    ensures HostRow(pools, more, certs, h)
  {
  }

  /** A location, an instance setting or an error code serves the page. */
  ghost predicate Served(db: Db, page: Id) {
    || (exists h <- db.hosts :: exists l <- db.hosts[h].locations :: l.page == Some(page))
    || (exists x <- db.slots :: db.slots[x] == page)
    || (exists c <- db.errorPages :: db.errorPages[c] == page)
  }

  lemma DeletePageExact(db: Db, q: Request)
    requires Orderly(db) && q.DeletePage?
    ensures Exact(db, q)
    ensures Execute(db, q).Done? <==> q.page in db.pages && !Served(db, q.page)
    ensures q.page in db.pages && Served(db, q.page) ==> Execute(db, q) == Refused(IntegrityError)
  {
    hide Orderly, Consistent, Served;
    PageGone(db, q.page);
  }

  lemma PageGone(db: Db, page: Id)
    requires Orderly(db)
    ensures var after := db.(pages := db.pages - {page});
            && (Consistent(after) <==> !Served(db, page))
            && (Orderly(after) <==> !Served(db, page))
  {
    hide PoolRow, HostRow, StreamRow, MethodOk, HostUsable, Usable, PortsUnique, Numbered;
    forall h <- db.hosts
      ensures HostRow(db.pools.Keys, db.pages - {page}, db.certificates.Keys, db.hosts[h])
         <==> forall l <- db.hosts[h].locations :: l.page != Some(page)
    {
      HostRowWithout(db, db.hosts[h], page);
    }
    assert Numbered(db.(pages := db.pages - {page})) by { NumberedKept(db, page); }
  }

  lemma NumberedKept(db: Db, page: Id)
    requires Numbered(db)
    ensures Numbered(db.(pages := db.pages - {page}))
  {
  }

  lemma HostRowWithout(db: Db, h: Host, page: Id)
    requires HostRow(db.pools.Keys, db.pages, db.certificates.Keys, h)
    ensures HostRow(db.pools.Keys, db.pages - {page}, db.certificates.Keys, h)
       <==> forall l <- h.locations :: l.page != Some(page)
  {
    hide LocationShape, OneTarget, PortOk;
  }

  /** Binding a setting to a page commits exactly when that page exists, and, for the default site,
      one is named. */
  lemma SetSlotExact(db: Db, q: Request)
    requires Orderly(db) && q.SetSlot?
    ensures Exact(db, q)
    ensures Execute(db, q).Done?
       <==> (q.custom ==> if q.slotPage.Some? then q.slotPage.value in db.pages else !q.slot.SiteSlot?)
  {
    hide Orderly, Consistent, PagesExist;
    PagesStored(db);
    SlotPages(db, q.slot, if q.slotPage.Some? then q.slotPage.value else 0);
    if Asked(db, q).Some? { BindingsConsistent(db, Asked(db, q).value); }
  }

  lemma SlotPages(db: Db, slot: Slot, page: Id)
    requires PagesExist(db)
    ensures PagesExist(db.(slots := db.slots[slot := page])) <==> page in db.pages
    ensures PagesExist(db.(slots := db.slots - {slot}))
  {
    assert db.slots[slot := page][slot] == page;
  }

  /** Replacing the error pages commits exactly when every code's page is named and exists. */
  lemma ReplaceErrorPagesExact(db: Db, q: Request)
    requires Orderly(db) && q.ReplaceErrorPages?
    ensures Exact(db, q)
    ensures Execute(db, q).Done?
       <==> forall c <- q.bindings :: q.bindings[c].Some? && q.bindings[c].value in db.pages
  {
    hide Orderly, Consistent;
    PagesStored(db);
    if Asked(db, q).Some? {
      var after := Asked(db, q).value;
      BindingsConsistent(db, after);
      if PagesExist(after) {
        forall c <- q.bindings ensures q.bindings[c].value in db.pages { assert c in after.errorPages; }
      }
    }
  }

  lemma PagesStored(db: Db)
    requires Orderly(db)
    ensures PagesExist(db)
  {
  }

  lemma BindingsConsistent(db: Db, after: Db)
    requires Orderly(db) && after == db.(slots := after.slots, errorPages := after.errorPages)
    ensures Consistent(after) <==> PagesExist(after)
    ensures Orderly(after) <==> PagesExist(after)
  {
    hide PoolRow, HostRow, StreamRow, MethodOk, HostUsable, Usable, PortsUnique;
  }

  lemma MoreCertificatesExact(db: Db, q: Request)
    requires Orderly(db) && (q.CreateCertificate? || q.IssueCertificate?)
    ensures Exact(db, q)
    ensures Execute(db, q).Done? <==> q.IssueCertificate? ==> q.certificate in db.certificates
  {
    hide Orderly, Consistent;
    if Asked(db, q).Some? {
      NextIdUnused(db);
      CertificatesGrow(db, Asked(db, q).value);
      ConsistentWhenOrderly(Asked(db, q).value);
    }
  }

  lemma CertificatesGrow(db: Db, after: Db)
    requires Orderly(db) && after == db.(certificates := after.certificates, nextId := after.nextId)
    requires db.certificates.Keys <= after.certificates.Keys && db.nextId <= after.nextId
    requires forall c <- after.certificates :: c < after.nextId
    ensures Orderly(after)
  {
    hide PoolRow, HostRow, StreamRow, MethodOk, HostUsable, Usable, PortsUnique;
    forall h <- db.hosts ensures HostRow(db.pools.Keys, db.pages, after.certificates.Keys, db.hosts[h]) {
      CertificatesOnly(db.pools.Keys, db.pages, db.certificates.Keys, after.certificates.Keys, db.hosts[h]);
    }
    forall s <- db.streams ensures StreamRow(db.pools.Keys, after.certificates.Keys, db.streams[s]) {
      StreamCertificatesOnly(db.pools.Keys, db.certificates.Keys, after.certificates.Keys, db.streams[s]);
    }
  }

  lemma CertificatesOnly(pools: set<Id>, pages: set<Id>, certs: set<Id>, others: set<Id>, h: Host)
    requires HostRow(pools, pages, certs, h) && (Refers(h.certificate, others) || certs <= others)
    ensures HostRow(pools, pages, others, h)
  {
    hide LocationShape, OneTarget, PortOk;
  }

  lemma StreamCertificatesOnly(pools: set<Id>, certs: set<Id>, others: set<Id>, s: Stream)
    requires StreamRow(pools, certs, s) && (Refers(s.certificate, others) || certs <= others)
    ensures StreamRow(pools, others, s)
  {
  }

  /** Deleting a certificate always commits: its hosts and streams fall back to plain ones. */
  lemma DeleteCertificateExact(db: Db, q: Request)
    requires Orderly(db) && q.DeleteCertificate?
    ensures Exact(db, q)
    ensures Execute(db, q).Done? <==> q.certificate in db.certificates
  {
    hide Orderly, Consistent, WithoutCertificate;
    UnlinkedIsOrderly(db, q.certificate);
    ConsistentWhenOrderly(WithoutCertificate(db, q.certificate));
  }

  lemma UnlinkedIsOrderly(db: Db, id: Id)
    requires Orderly(db)
    ensures Orderly(WithoutCertificate(db, id))
  {
    hide PoolRow, HostRow, StreamRow, MethodOk, HostUsable, Usable;
    var after := WithoutCertificate(db, id);
    forall h <- db.hosts
      ensures HostRow(db.pools.Keys, db.pages, after.certificates.Keys, after.hosts[h])
      ensures HostUsable(db.pools, after.hosts[h])
    {
      UnlinkedRow(db, db.hosts[h], id);
    }
    forall s <- db.streams
      ensures StreamRow(db.pools.Keys, after.certificates.Keys, after.streams[s])
      ensures after.streams[s].port == db.streams[s].port && after.streams[s].upstream == db.streams[s].upstream
    {
      UnlinkedStreamRow(db, db.streams[s], id);
    }
  }

  lemma UnlinkedRow(db: Db, h: Host, id: Id)
    requires HostRow(db.pools.Keys, db.pages, db.certificates.Keys, h) && HostUsable(db.pools, h)
    ensures HostRow(db.pools.Keys, db.pages, (db.certificates - {id}).Keys, Unlinked(h, id))
    ensures HostUsable(db.pools, Unlinked(h, id))
  {
    hide LocationShape, OneTarget, PortOk, Usable;
  }

  lemma UnlinkedStreamRow(db: Db, s: Stream, id: Id)
    requires StreamRow(db.pools.Keys, db.certificates.Keys, s)
    ensures StreamRow(db.pools.Keys, (db.certificates - {id}).Keys, UnlinkedStream(s, id))
  {
  }

  /** The service's incremental checks together with the commit guard accept exactly the writes
      whose result, judged as a whole, still keeps every promise. */
  lemma ChecksAreExact(db: Db, q: Request)
    requires Orderly(db)
    ensures Execute(db, q).Done? <==> Asked(db, q).Some? && Orderly(Asked(db, q).value)
    ensures Execute(db, q).Done? ==> Execute(db, q).db == Asked(db, q).value
  {
    hide Orderly, Execute, Asked;
    assert Exact(db, q) by {
      match q
      case CreatePool(_, _, _, _) => CreatePoolExact(db, q);
      case UpdatePool(_, _) => UpdatePoolExact(db, q);
      case DeletePool(_) => DeletePoolExact(db, q);
      case AddBackend(_, _) => AddBackendExact(db, q);
      case UpdateBackend(_, _, _) => UpdateBackendExact(db, q);
      case RemoveBackend(_, _) => RemoveBackendExact(db, q);
      case CreateHost(_) => CreateHostExact(db, q);
      case UpdateHost(_, _) => UpdateHostExact(db, q);
      case DeleteHost(_) => DeleteHostExact(db, q);
      case CreateStream(_) => CreateStreamExact(db, q);
      case UpdateStream(_, _) => UpdateStreamExact(db, q);
      case DeleteStream(_) => DeleteStreamExact(db, q);
      case CreatePage => CreatePageExact(db, q);
      case DeletePage(_) => DeletePageExact(db, q);
      case SetSlot(_, _, _) => SetSlotExact(db, q);
      case ReplaceErrorPages(_) => ReplaceErrorPagesExact(db, q);
      case CreateCertificate(_) => MoreCertificatesExact(db, q);
      case IssueCertificate(_) => MoreCertificatesExact(db, q);
      case DeleteCertificate(_) => DeleteCertificateExact(db, q);
    }
  }

  // ----- whole runs -----

  function Next(db: Db, q: Request): Db {
    match Execute(db, q)
    case Done(after) => after
    case Refused(_) => db
  }

  function Run(db: Db, requests: seq<Request>): Db {
    if requests == [] then db else Next(Run(db, requests[..|requests| - 1]), requests[|requests| - 1])
  }

  lemma {:induction false} RunIsOrderly(requests: seq<Request>)
    ensures Orderly(Run(Empty, requests))
  {
    hide Orderly, Execute;
    if requests == [] {
      EmptyIsOrderly();
    } else {
      var before, q := requests[..|requests| - 1], requests[|requests| - 1];
      RunIsOrderly(before);
      ChecksAreExact(Run(Empty, before), q);
    }
  }

  lemma EmptyIsOrderly()
    ensures Orderly(Empty)
  {
  }

  /** The promises of the configuration services, over every run: the hashing pools, the
      references and their contexts, the single targets and the ports. */
  lemma RunKeepsPromises(requests: seq<Request>)
    ensures var db := Run(Empty, requests);
            && (forall p <- db.pools :: db.pools[p].balancing.IpHash? ==> db.pools[p].context.Http?)
            && (forall p <- db.pools :: NoBackups(db.pools[p].balancing) ==>
                  forall b <- db.pools[p].backends :: !db.pools[p].backends[b].backup)
            && (forall h <- db.hosts :: db.hosts[h].upstream.Some? ==>
                  db.hosts[h].upstream.value in db.pools && db.pools[db.hosts[h].upstream.value].context != Tcp)
            && (forall h <- db.hosts :: forall l <- db.hosts[h].locations :: l.upstream.Some? ==>
                  l.upstream.value in db.pools && db.pools[l.upstream.value].context != Tcp)
            && (forall s <- db.streams :: db.streams[s].upstream.Some? ==>
                  db.streams[s].upstream.value in db.pools && db.pools[db.streams[s].upstream.value].context != Http)
            && (forall h <- db.hosts :: db.hosts[h].upstream.Some? != db.hosts[h].forwardHost.Some?)
            && (forall s <- db.streams :: db.streams[s].upstream.Some? != db.streams[s].forwardHost.Some?)
            && (forall s <- db.streams, t <- db.streams :: db.streams[s].port == db.streams[t].port ==> s == t)
  {
    hide Run;
    RunIsOrderly(requests);
    var db := Run(Empty, requests);
    forall h <- db.hosts
      ensures HostRow(db.pools.Keys, db.pages, db.certificates.Keys, db.hosts[h]) && HostUsable(db.pools, db.hosts[h])
    {}
  }

  // ----- exact refusals -----

  ghost predicate Named(db: Db, id: Id) {
    || (exists h <- db.hosts :: db.hosts[h].upstream == Some(id))
    || (exists h <- db.hosts :: exists l <- db.hosts[h].locations :: l.upstream == Some(id))
    || (exists s <- db.streams :: db.streams[s].upstream == Some(id))
  }

  /** A pool is deleted exactly when nothing names it. */
  lemma DeletedIffUnnamed(db: Db, id: Id)
    requires Orderly(db) && id in db.pools
    ensures Execute(db, DeletePool(id)).Done? <==> !Named(db, id)
    ensures Named(db, id) ==> Execute(db, DeletePool(id)) == Refused(InUse)
  {
    hide PoolRow, MethodOk, HostUsable, Usable, PortsUnique, LocationShape, OneTarget, PortOk;
    var after := db.(pools := db.pools - {id});
    if !Named(db, id) {
      forall h <- db.hosts ensures HostRow(after.pools.Keys, after.pages, after.certificates.Keys, db.hosts[h]) {
        assert HostRow(db.pools.Keys, db.pages, db.certificates.Keys, db.hosts[h]);
      }
    } else if Consistent(after) {
      ConsistentRefers(after);
      assert false;
    }
  }

  /** Changing a pool's context alone is refused exactly when the new context rules out its
      balancing method or drops the context some reference needs. */
  lemma ContextChangeIff(db: Db, id: Id, c: Context)
    requires Orderly(db) && id in db.pools
    ensures Execute(db, UpdatePool(id, PoolChanges(Keep, Set(Some(c)), Keep))).Done?
       <==> (db.pools[id].balancing.IpHash? ==> c.Http?)
            && (c.Http? ==> forall s <- db.streams :: db.streams[s].upstream != Some(id))
            && (c.Tcp? ==> forall h <- db.hosts ::
                  db.hosts[h].upstream != Some(id) && forall l <- db.hosts[h].locations :: l.upstream != Some(id))
  {
    hide Orderly, Consistent, PoolRow, HasBackup;
    var p := db.pools[id];
    var q := UpdatePool(id, PoolChanges(Keep, Set(Some(c)), Keep));
    NextIdUnused(db);
    PoolWrite(db, id, p.(context := c), db.nextId);
    assert WithPool(db, id, p.(context := c)).(nextId := db.nextId) == WithPool(db, id, p.(context := c));
    StoredPoolOk(db, id);
    SameRows(p, p.(context := c));
    UpdatePoolExact(db, q);
    assert MergedPool(p, q.poolChanges) == Some(p.(context := c));
  }

  /** A host given both a pool and half of a direct target passes the service's checks; only the
      commit guard refuses it. */
  lemma HalfTargetIsCaughtByTheCommit(db: Db, id: Id, name: string)
    requires Orderly(db) && id in db.pools && UsableIn(db.pools[id].context, Http)
    ensures var h := Host(Some(id), Some(name), None, true, None, false, []);
            && PoolsUsable(db, {id}, Http) && LocationsValid(db, [])
            && Execute(db, CreateHost(h)) == Refused(InvalidReference)
  {
    hide Orderly, Consistent;
    HostWrite(db, db.nextId, Host(Some(id), Some(name), None, true, None, false, []), db.nextId + 1);
    assert PoolsOf([]) == {} && PagesOf([]) == {};
  }
}
