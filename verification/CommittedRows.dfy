/** What a committed write leaves in the rows, what a refusal means, and what the promises are, each in
    terms of the rows alone. */
module CommittedRows {
  import opened Text
  import opened ProxyConfig
  import opened ProxySafety

  // ----- frames -----

  /** Nothing but pools changed. */
  ghost predicate OnlyPools(db: Db, after: Db) {
    after.hosts == db.hosts && after.streams == db.streams && SameRest(db, after)
  }

  /** Pages, what they are bound to, and certificates are the same. */
  ghost predicate SameRest(db: Db, after: Db) {
    && after.pages == db.pages && after.slots == db.slots && after.errorPages == db.errorPages
    && after.certificates == db.certificates
  }

  ghost predicate SamePools(db: Db, after: Db) { after.pools == db.pools && after.nextId == db.nextId }

  ghost predicate OnlyHosts(db: Db, after: Db) {
    after.pools == db.pools && after.streams == db.streams && SameRest(db, after)
  }

  ghost predicate OnlyStreams(db: Db, after: Db) {
    after.pools == db.pools && after.hosts == db.hosts && SameRest(db, after)
  }

  /** Of the pools only `id` changed, and of it neither method nor context nor switch. */
  ghost predicate OnlyServersOf(db: Db, after: Db, id: Id) {
    && OnlyPools(db, after) && after.nextId == db.nextId && after.pools.Keys == db.pools.Keys && id in db.pools
    && (forall p <- db.pools :: p != id ==> after.pools[p] == db.pools[p])
    && after.pools[id].balancing == db.pools[id].balancing && after.pools[id].context == db.pools[id].context
    && after.pools[id].enabled == db.pools[id].enabled
  }

  /** The row at `id` is `row`, new under an id never used, and every other row is as it was. */
  ghost predicate Inserted<T>(before: map<Id, T>, after: map<Id, T>, id: Id, row: T) {
    && id !in before && after.Keys == before.Keys + {id} && after[id] == row
    && forall x <- before :: after[x] == before[x]
  }

  ghost predicate Deleted<T>(before: map<Id, T>, after: map<Id, T>, id: Id) {
    && id in before && after.Keys == before.Keys - {id}
    && forall x <- after :: after[x] == before[x]
  }

  // ----- pools -----

  /** A new pool has the given attributes and exactly the given servers, numbered in order. */
  lemma PoolCreated(db: Db, balancing: Method, context: Context, enabled: bool, seeds: seq<Backend>)
    requires Orderly(db) && Execute(db, CreatePool(balancing, context, enabled, seeds)).Done?
    ensures var after := Execute(db, CreatePool(balancing, context, enabled, seeds)).db;
            && OnlyPools(db, after) && after.nextId == db.nextId + 1
            && (db.nextId in after.pools && Inserted(db.pools, after.pools, db.nextId, after.pools[db.nextId]))
            && (var p := after.pools[db.nextId];
                && p.balancing == balancing && p.context == context && p.enabled == enabled
                && (forall i: Id :: i in p.backends <==> i < |seeds|)
                && (forall i: Id :: i < |seeds| ==> p.backends[i] == seeds[i])
                && forall i: Id :: i in p.backends ==> i < p.nextBackend)
  {
    hide Orderly, Consistent;
    NextIdUnused(db);
  }

  /** An updated pool keeps its servers and takes the named attributes; no other pool moves. */
  lemma PoolUpdated(db: Db, id: Id, c: PoolChanges)
    requires Orderly(db) && Execute(db, UpdatePool(id, c)).Done?
    ensures var after := Execute(db, UpdatePool(id, c)).db;
            && OnlyPools(db, after) && after.nextId == db.nextId && after.pools.Keys == db.pools.Keys && id in db.pools
            && (forall p <- db.pools :: p != id ==> after.pools[p] == db.pools[p])
            && after.pools[id].backends == db.pools[id].backends
            && (if c.balancing.Keep? then after.pools[id].balancing == db.pools[id].balancing
                else c.balancing.value == Some(after.pools[id].balancing))
            && (if c.context.Keep? then after.pools[id].context == db.pools[id].context
                else c.context.value == Some(after.pools[id].context))
            && (if c.enabled.Keep? then after.pools[id].enabled == db.pools[id].enabled
                else c.enabled.value == Some(after.pools[id].enabled))
  {
    hide Orderly, Consistent, ContextChangeAllowed, ValidPoolConfig;
  }

  /** Deleting takes one pool, with its servers, and nothing else. */
  lemma PoolDeleted(db: Db, id: Id)
    requires Orderly(db) && Execute(db, DeletePool(id)).Done?
    ensures var after := Execute(db, DeletePool(id)).db;
            OnlyPools(db, after) && after.nextId == db.nextId && Deleted(db.pools, after.pools, id)
  {
    hide Orderly, Consistent;
  }

  /** An added server stands under a number the pool never used, beside all the others. */
  lemma BackendAdded(db: Db, id: Id, b: Backend) returns (number: Id)
    requires Orderly(db) && Execute(db, AddBackend(id, b)).Done?
    ensures var after := Execute(db, AddBackend(id, b)).db;
            && OnlyServersOf(db, after, id)
            && Inserted(db.pools[id].backends, after.pools[id].backends, number, b)
            && number < after.pools[id].nextBackend && db.pools[id].nextBackend <= number
  {
    hide Orderly, Consistent, ValidPoolConfig;
    NextIdUnused(db);
    number := db.pools[id].nextBackend;
  }

  /** An updated server takes the named fields; every other server of the pool stays. */
  lemma BackendUpdated(db: Db, id: Id, b: Id, c: BackendChanges)
    requires Orderly(db) && Execute(db, UpdateBackend(id, b, c)).Done?
    ensures var after := Execute(db, UpdateBackend(id, b, c)).db;
            && OnlyServersOf(db, after, id) && b in db.pools[id].backends
            && after.pools[id].backends.Keys == db.pools[id].backends.Keys
            && (forall x <- db.pools[id].backends :: x != b ==> after.pools[id].backends[x] == db.pools[id].backends[x])
            && Some(after.pools[id].backends[b]) == MergedBackend(db.pools[id].backends[b], c)
  {
    hide Orderly, Consistent, ValidPoolConfig, MergedBackend;
  }

  /** After removing a server the pool has exactly the others, each as it was. */
  lemma BackendRemoved(db: Db, id: Id, b: Id)
    requires Orderly(db) && Execute(db, RemoveBackend(id, b)).Done?
    ensures var after := Execute(db, RemoveBackend(id, b)).db;
            OnlyServersOf(db, after, id) && Deleted(db.pools[id].backends, after.pools[id].backends, b)
  {
    hide Orderly, Consistent;
  }

  // ----- hosts and streams -----

  lemma HostCreated(db: Db, h: Host)
    requires Orderly(db) && Execute(db, CreateHost(h)).Done?
    ensures var after := Execute(db, CreateHost(h)).db;
            OnlyHosts(db, after) && after.nextId == db.nextId + 1 && Inserted(db.hosts, after.hosts, db.nextId, h)
  {
    hide Orderly, Consistent, LocationsValid, PoolsUsable;
    NextIdUnused(db);
  }

  lemma HostUpdated(db: Db, id: Id, c: HostChanges)
    requires Orderly(db) && Execute(db, UpdateHost(id, c)).Done?
    ensures var after := Execute(db, UpdateHost(id, c)).db;
            && OnlyHosts(db, after) && after.nextId == db.nextId && after.hosts.Keys == db.hosts.Keys && id in db.hosts
            && (forall h <- db.hosts :: h != id ==> after.hosts[h] == db.hosts[h])
            && Some(after.hosts[id]) == MergedHost(db.hosts[id], c)
  {
    hide Orderly, Consistent, LocationsValid, PoolsUsable, MergedHost;
  }

  lemma HostDeleted(db: Db, id: Id)
    requires Orderly(db) && Execute(db, DeleteHost(id)).Done?
    ensures var after := Execute(db, DeleteHost(id)).db;
            OnlyHosts(db, after) && after.nextId == db.nextId && Deleted(db.hosts, after.hosts, id)
  {
    hide Orderly, Consistent;
  }

  lemma StreamCreated(db: Db, s: Stream)
    requires Orderly(db) && Execute(db, CreateStream(s)).Done?
    ensures var after := Execute(db, CreateStream(s)).db;
            OnlyStreams(db, after) && after.nextId == db.nextId + 1 && Inserted(db.streams, after.streams, db.nextId, s)
  {
    hide Orderly, Consistent, PoolsUsable, PortTaken;
    NextIdUnused(db);
  }

  lemma StreamUpdated(db: Db, id: Id, c: StreamChanges)
    requires Orderly(db) && Execute(db, UpdateStream(id, c)).Done?
    ensures var after := Execute(db, UpdateStream(id, c)).db;
            && OnlyStreams(db, after) && after.nextId == db.nextId
            && after.streams.Keys == db.streams.Keys && id in db.streams
            && (forall s <- db.streams :: s != id ==> after.streams[s] == db.streams[s])
            && Some(after.streams[id]) == MergedStream(db.streams[id], c)
  {
    hide Orderly, Consistent, PoolsUsable, PortTakenByOther, MergedStream;
  }

  lemma StreamDeleted(db: Db, id: Id)
    requires Orderly(db) && Execute(db, DeleteStream(id)).Done?
    ensures var after := Execute(db, DeleteStream(id)).db;
            OnlyStreams(db, after) && after.nextId == db.nextId && Deleted(db.streams, after.streams, id)
  {
    hide Orderly, Consistent;
  }

  // ----- pages and certificates -----

  ghost predicate SameRows(db: Db, after: Db) {
    after.pools == db.pools && after.hosts == db.hosts && after.streams == db.streams
  }

  lemma PageCreated(db: Db)
    requires Orderly(db)
    ensures Execute(db, CreatePage).Done?
    ensures var after := Execute(db, CreatePage).db;
            && SameRows(db, after) && after.slots == db.slots && after.errorPages == db.errorPages
            && after.certificates == db.certificates && after.nextId == db.nextId + 1
            && after.pages == db.pages + {db.nextId}
  {
    hide Orderly, Consistent;
    CreatePageExact(db, CreatePage);
  }

  lemma PageDeleted(db: Db, id: Id)
    requires Orderly(db) && Execute(db, DeletePage(id)).Done?
    ensures var after := Execute(db, DeletePage(id)).db;
            && SameRows(db, after) && after.slots == db.slots && after.errorPages == db.errorPages
            && after.certificates == db.certificates && after.nextId == db.nextId
            && after.pages == db.pages - {id} && id in db.pages
  {
    hide Orderly, Consistent;
  }

  /** A setting is bound to the page when it is to show one and one is named, and unbound otherwise;
      the other settings stay. */
  lemma SlotSet(db: Db, slot: Slot, custom: bool, page: Option<Id>)
    requires Orderly(db) && Execute(db, SetSlot(slot, custom, page)).Done?
    ensures var after := Execute(db, SetSlot(slot, custom, page)).db;
            && SameRows(db, after) && after.pages == db.pages && after.errorPages == db.errorPages
            && after.certificates == db.certificates && after.nextId == db.nextId
            && (slot in after.slots <==> custom && page.Some?)
            && (custom && page.Some? ==> after.slots[slot] == page.value)
            && (forall x | x != slot :: x in after.slots <==> x in db.slots)
            && forall x <- db.slots :: x != slot ==> after.slots[x] == db.slots[x]
  {
    hide Orderly, Consistent;
  }

  /** The error codes are bound to exactly the given pages. */
  lemma ErrorPagesReplaced(db: Db, bindings: map<int, Option<Id>>)
    requires Orderly(db) && Execute(db, ReplaceErrorPages(bindings)).Done?
    ensures var after := Execute(db, ReplaceErrorPages(bindings)).db;
            && SameRows(db, after) && after.pages == db.pages && after.slots == db.slots
            && after.certificates == db.certificates && after.nextId == db.nextId
            && after.errorPages.Keys == bindings.Keys
            && forall code <- bindings :: bindings[code] == Some(after.errorPages[code])
  {
    hide Orderly, Consistent;
    ReplaceErrorPagesExact(db, ReplaceErrorPages(bindings));
    var after := Execute(db, ReplaceErrorPages(bindings)).db;
    assert forall c :: c in after.errorPages <==> c in bindings;
  }

  lemma CertificateCreated(db: Db, onDisk: bool)
    requires Orderly(db)
    ensures Execute(db, CreateCertificate(onDisk)).Done?
    ensures var after := Execute(db, CreateCertificate(onDisk)).db;
            && SameRows(db, after) && after.pages == db.pages && after.slots == db.slots
            && after.errorPages == db.errorPages && after.nextId == db.nextId + 1
            && Inserted(db.certificates, after.certificates, db.nextId, onDisk)
  {
    hide Orderly, Consistent;
    MoreCertificatesExact(db, CreateCertificate(onDisk));
    NextIdUnused(db);
  }

  lemma CertificateIssued(db: Db, id: Id)
    requires Orderly(db) && id in db.certificates
    ensures Execute(db, IssueCertificate(id)).Done?
    ensures var after := Execute(db, IssueCertificate(id)).db;
            && SameRows(db, after) && after.pages == db.pages && after.slots == db.slots
            && after.errorPages == db.errorPages && after.nextId == db.nextId
            && after.certificates.Keys == db.certificates.Keys && after.certificates[id]
            && forall c <- db.certificates :: c != id ==> after.certificates[c] == db.certificates[c]
  {
    hide Orderly, Consistent;
    MoreCertificatesExact(db, IssueCertificate(id));
  }

  /** Deleting a certificate leaves every host and stream, with that certificate alone taken off. */
  lemma CertificateDeleted(db: Db, id: Id)
    requires Orderly(db) && id in db.certificates
    ensures Execute(db, DeleteCertificate(id)).Done?
    ensures var after := Execute(db, DeleteCertificate(id)).db;
            && after.pools == db.pools && after.pages == db.pages && after.slots == db.slots
            && after.errorPages == db.errorPages && after.nextId == db.nextId
            && Deleted(db.certificates, after.certificates, id)
            && after.hosts.Keys == db.hosts.Keys && after.streams.Keys == db.streams.Keys
            && (forall h <- db.hosts :: after.hosts[h]
                  == db.hosts[h].(certificate := if db.hosts[h].certificate == Some(id) then None
                                                 else db.hosts[h].certificate))
            && (forall s <- db.streams :: after.streams[s]
                  == db.streams[s].(certificate := if db.streams[s].certificate == Some(id) then None
                                                   else db.streams[s].certificate))
  {
    hide Orderly, Consistent;
    DeleteCertificateExact(db, DeleteCertificate(id));
  }

  // ----- the promises, spelled out -----

  ghost predicate PlainPool(p: Pool) {
    && (forall b <- p.backends :: 1 <= p.backends[b].port <= 65535 && p.backends[b].weight >= 0)
    && (forall b <- p.backends, c <- p.backends ::
          b != c ==> p.backends[b].host != p.backends[c].host || p.backends[b].port != p.backends[c].port)
    && (p.balancing == IpHash ==> p.context == Http)
    && (p.balancing in {IpHash, Hash, Random} ==> forall b <- p.backends :: !p.backends[b].backup)
  }

  lemma PlainPoolIff(p: Pool)
    ensures PoolRow(p) && MethodOk(p) <==> PlainPool(p)
  {
    if PoolRow(p) && MethodOk(p) {
      forall b <- p.backends | p.balancing in {IpHash, Hash, Random} ensures !p.backends[b].backup {
        assert !HasBackup(p);
      }
    }
  }

  /** Either a pool that may be used here, or a host and a port. */
  ghost predicate PlainTarget(db: Db, upstream: Option<Id>, host: Option<string>, port: Option<int>,
                              elsewhere: Context)
  {
    match upstream
    case Some(u) => host.None? && port.None? && u in db.pools && db.pools[u].context != elsewhere
    case None => host.Some? && port.Some? && 1 <= port.value <= 65535
  }

  ghost predicate PlainLocation(db: Db, l: Location) {
    && (if l.target == ToPool then l.upstream.Some? && l.upstream.value in db.pools
                                   && db.pools[l.upstream.value].context != Tcp
        else l.upstream.None?)
    && (if l.target == ToHost then l.forwardHost.Some? && l.forwardPort.Some? && 1 <= l.forwardPort.value <= 65535
        else l.forwardHost.None? && l.forwardPort.None?)
    && (if l.target == CustomPage then l.page.Some? && l.page.value in db.pages else l.page.None?)
    && (if l.target == ErrorPage then l.errorCode.Some? else l.errorCode.None?)
  }

  ghost predicate PlainHost(db: Db, h: Host) {
    && PlainTarget(db, h.upstream, h.forwardHost, h.forwardPort, Tcp)
    && (h.certificate.Some? ==> h.certificate.value in db.certificates)
    && (forall l <- h.locations :: PlainLocation(db, l))
    && (forall i, j :: 0 <= i < j < |h.locations| ==> h.locations[i].path != h.locations[j].path)
  }

  ghost predicate PlainStream(db: Db, s: Stream) {
    && 1 <= s.port <= 65535 && (s.tcp || s.udp)
    && PlainTarget(db, s.upstream, s.forwardHost, s.forwardPort, Http)
    && (s.certificate.Some? ==> s.certificate.value in db.certificates)
  }

  lemma PlainHostIff(db: Db, h: Host)
    ensures HostRow(db.pools.Keys, db.pages, db.certificates.Keys, h) && HostUsable(db.pools, h) <==> PlainHost(db, h)
  {
    forall l <- h.locations
      ensures LocationShape(l) && Refers(l.upstream, db.pools.Keys) && Refers(l.page, db.pages)
              && Usable(db.pools, l.upstream, Http)
         <==> PlainLocation(db, l)
    {}
  }

  lemma PlainStreamIff(db: Db, s: Stream)
    ensures StreamRow(db.pools.Keys, db.certificates.Keys, s) && Usable(db.pools, s.upstream, Tcp)
       <==> PlainStream(db, s)
  {
  }

  /** What an orderly database is, on its rows: every pool, host and stream is, no two streams listen
      on one port, every bound page exists, and every id is below the next one to be given out. */
  lemma OrderlyMeans(db: Db)
    ensures Orderly(db)
       <==> && (forall p <- db.pools :: PlainPool(db.pools[p]))
            && (forall h <- db.hosts :: PlainHost(db, db.hosts[h]))
            && (forall s <- db.streams :: PlainStream(db, db.streams[s]))
            && (forall s <- db.streams, t <- db.streams :: s != t ==> db.streams[s].port != db.streams[t].port)
            && (forall x <- db.slots :: db.slots[x] in db.pages)
            && (forall c <- db.errorPages :: db.errorPages[c] in db.pages)
            && Numbered(db)
  {
    hide PoolRow, MethodOk, HostRow, HostUsable, StreamRow, Usable, PlainPool, PlainHost, PlainStream, Numbered;
    forall p <- db.pools ensures PoolRow(db.pools[p]) && MethodOk(db.pools[p]) <==> PlainPool(db.pools[p]) {
      PlainPoolIff(db.pools[p]);
    }
    forall h <- db.hosts
      ensures HostRow(db.pools.Keys, db.pages, db.certificates.Keys, db.hosts[h]) && HostUsable(db.pools, db.hosts[h])
         <==> PlainHost(db, db.hosts[h])
    {
      PlainHostIff(db, db.hosts[h]);
    }
    forall s <- db.streams
      ensures StreamRow(db.pools.Keys, db.certificates.Keys, db.streams[s])
              && Usable(db.pools, db.streams[s].upstream, Tcp)
         <==> PlainStream(db, db.streams[s])
    {
      PlainStreamIff(db, db.streams[s]);
    }
  }

  // ----- refusals -----

  /** The row a request names is missing. */
  ghost predicate Missing(db: Db, q: Request) {
    match q
    case UpdatePool(p, _) => p !in db.pools
    case DeletePool(p) => p !in db.pools
    case AddBackend(p, _) => p !in db.pools
    case UpdateBackend(p, b, _) => p !in db.pools || b !in db.pools[p].backends
    case RemoveBackend(p, b) => p !in db.pools || b !in db.pools[p].backends
    case UpdateHost(h, _) => h !in db.hosts
    case DeleteHost(h) => h !in db.hosts
    case UpdateStream(s, _) => s !in db.streams
    case DeleteStream(s) => s !in db.streams
    case DeletePage(p) => p !in db.pages
    case IssueCertificate(c) => c !in db.certificates
    case DeleteCertificate(c) => c !in db.certificates
    case _ => false
  }

  /** A write is told that its row is missing exactly when it is; a stream that its port is taken
      exactly when another stream has it. */
  lemma RefusalsMean(db: Db, q: Request)
    requires Orderly(db)
    ensures Execute(db, q) == Refused(NotFound) <==> Missing(db, q)
    ensures Execute(db, q) == Refused(PortConflict)
       <==> || (q.CreateStream? && exists s <- db.streams :: db.streams[s].port == q.newStream.port)
            || (q.UpdateStream? && q.stream in db.streams && q.streamChanges.port.Set?
                && exists s <- db.streams :: s != q.stream && Some(db.streams[s].port) == q.streamChanges.port.value)
    ensures Execute(db, q) == Refused(InUse) ==> q.DeletePool?
    ensures Execute(db, q) == Refused(UnknownPage) ==> q.SetSlot? || q.ReplaceErrorPages?
    ensures Execute(db, q) == Refused(DuplicateBackend) ==> q.CreatePool? || q.AddBackend? || q.UpdateBackend?
  {
    hide Orderly, Consistent, Asked, ValidPoolConfig, ContextChangeAllowed, LocationsValid, PoolsUsable, HasBackup;
    if q.UpdateStream? && q.stream in db.streams { StoredStreamOk(db, q.stream); }
  }

  /** A pool write is told that its configuration is invalid exactly when the pool it would leave has
      ip_hash outside http, or a backup beside a hashing or random method, or a context that strands
      a reference. */
  lemma InvalidPoolMeans(db: Db, q: Request)
    requires Orderly(db) && !Missing(db, q)
    ensures q.CreatePool? ==>
              (Execute(db, q) == Refused(InvalidPoolConfig)
               <==> (q.balancing == IpHash && q.context != Http)
                    || (q.balancing in {IpHash, Hash, Random} && exists b <- q.seeds :: b.backup))
    ensures q.AddBackend? ==>
              (Execute(db, q) == Refused(InvalidPoolConfig)
               <==> db.pools[q.pool].balancing in {IpHash, Hash, Random} && q.added.backup)
    ensures q.UpdateBackend? ==>
              (Execute(db, q) == Refused(InvalidPoolConfig)
               <==> db.pools[q.pool].balancing in {IpHash, Hash, Random} && q.backendChanges.backup == Set(Some(true)))
  {
    hide Orderly, Consistent, Asked;
    if q.AddBackend? || q.UpdateBackend? {
      StoredPoolOk(db, q.pool);
    }
  }

  /** Changing a pool is told so exactly when the merged method and context do not go together, a
      backup stands beside a hashing or random method, or the new context drops one in which a host,
      a location or a stream uses the pool. */
  lemma InvalidPoolUpdateMeans(db: Db, id: Id, c: PoolChanges)
    requires Orderly(db) && id in db.pools
    ensures var p := db.pools[id];
            var balancing := if c.balancing.Keep? then Some(p.balancing) else c.balancing.value;
            var context := if c.context.Keep? then Some(p.context) else c.context.value;
            && (Execute(db, UpdatePool(id, c)) == Refused(InvalidPoolConfig)
                <==> || (balancing == Some(IpHash) && context != Some(Http))
                     || (balancing in {Some(IpHash), Some(Hash), Some(Random)}
                         && exists b <- p.backends :: p.backends[b].backup)
                     || (context != Some(p.context)
                         && ((context == Some(Http) && exists s <- db.streams :: db.streams[s].upstream == Some(id))
                             || (context == Some(Tcp) && exists h <- db.hosts ::
                                   db.hosts[h].upstream == Some(id)
                                   || exists l <- db.hosts[h].locations :: l.upstream == Some(id)))))
  {
    hide Orderly, Consistent, Asked, ContextChangeAllowed;
    var context := if c.context.Keep? then Some(db.pools[id].context) else c.context.value;
    if context.Some? { CountsDecide(db, id, context.value); }
    NullNeverNarrows(db, id);
  }

  lemma NullNeverNarrows(db: Db, id: Id)
    ensures ContextChangeAllowed(db, id, None)
  {
    hide HostsNaming, LocationsNaming, StreamsNaming;
  }

  /** Which error each kind of write reports when it is neither told that its row is missing nor that
      its pool is invalid or its port taken. */
  lemma RefusedWith(db: Db, q: Request)
    requires Orderly(db) && Execute(db, q).Refused?
    requires Execute(db, q).error !in {NotFound, InvalidPoolConfig, PortConflict}
    ensures match q
            case CreatePool(_, _, _, _) => Execute(db, q).error == DuplicateBackend
            case AddBackend(_, _) => Execute(db, q).error == DuplicateBackend
            case UpdateBackend(_, _, _) => Execute(db, q).error == DuplicateBackend
            case DeletePool(_) => Execute(db, q).error == InUse
            case CreateHost(_) => Execute(db, q).error == InvalidReference
            case UpdateHost(_, c) =>
              || Execute(db, q).error == InvalidReference
              || (Execute(db, q).error == IntegrityError && c.locations.Some?)
            case CreateStream(_) => Execute(db, q).error == InvalidReference
            case UpdateStream(_, _) => Execute(db, q).error == InvalidReference
            case SetSlot(_, _, _) => Execute(db, q).error == UnknownPage
            case ReplaceErrorPages(_) => Execute(db, q).error in {UnknownPage, IntegrityError}
            case _ => Execute(db, q).error == IntegrityError
  {
    hide Orderly, Consistent, Asked, ValidPoolConfig, ContextChangeAllowed, LocationsValid, PoolsUsable, HasBackup;
  }

  /** Replacing a host's locations surfaces the raw integrity error exactly when the references are
      good but the host without locations would be refused. */
  lemma FlushRefusal(db: Db, id: Id, c: HostChanges)
    requires Orderly(db) && id in db.hosts && c.locations.Some?
    ensures Execute(db, UpdateHost(id, c)) == Refused(IntegrityError)
       <==> && (c.upstream.Set? && c.upstream.value.Some? ==>
                  c.upstream.value.value in db.pools && db.pools[c.upstream.value.value].context != Tcp)
            && (forall l <- c.locations.value ::
                  && (l.upstream.Some? ==> l.upstream.value in db.pools && db.pools[l.upstream.value].context != Tcp)
                  && (l.page.Some? ==> l.page.value in db.pages))
            && Execute(db, UpdateHost(id, c.(locations := Some([])))).Refused?
  {
    hide Orderly, Consistent, Asked, LocationsValid, PoolsUsable;
    UpstreamCheck(db, if c.upstream.Set? then c.upstream.value else None, Http);
    LocationChecks(db, c.locations.value);
    LocationChecks(db, []);
    var bare := c.(locations := Some([]));
    assert bare.(locations := Some([])) == bare;
  }
}
