/** The configuration database: pools with their backends, proxy hosts with their locations,
    streams, and custom pages with what else refers to them. Every write runs its service checks,
    stages its change and commits; the database's own constraints are the commit guard, and a
    refused commit rolls back. */
module ProxyConfig {
  import opened Text

  type Id = nat

  datatype Method = RoundRobin | LeastConn | IpHash | Hash | Random
  datatype Context = Http | Tcp | Both
  datatype Backend = Backend(host: string, port: int, weight: int, backup: bool, enabled: bool)
  datatype Pool = Pool(balancing: Method, context: Context, enabled: bool, backends: map<Id, Backend>,
                       nextBackend: Id)
  datatype Target = ToPool | ToHost | DefaultSite | CustomPage | ErrorPage
  datatype Location = Location(path: string, target: Target, upstream: Option<Id>, forwardHost: Option<string>,
                               forwardPort: Option<int>, page: Option<Id>, errorCode: Option<int>)
  datatype Host = Host(upstream: Option<Id>, forwardHost: Option<string>, forwardPort: Option<int>, enabled: bool,
                       certificate: Option<Id>, sslForced: bool, locations: seq<Location>)
  datatype Stream = Stream(port: int, upstream: Option<Id>, forwardHost: Option<string>, forwardPort: Option<int>,
                           tcp: bool, udp: bool, certificate: Option<Id>, enabled: bool)

  /** The instance settings that may name a custom page. */
  datatype Slot = SiteSlot | BanSlot | MaintenanceSlot

  /** `slots` and `errorPages` hold the pages that settings and error codes are bound to;
      `certificates` says of each certificate whether its files are on disk. */
  datatype Db = Db(pools: map<Id, Pool>, hosts: map<Id, Host>, streams: map<Id, Stream>,
                   pages: set<Id>, slots: map<Slot, Id>, errorPages: map<int, Id>,
                   certificates: map<Id, bool>, nextId: Id)

  const Empty := Db(map[], map[], map[], {}, map[], map[], map[], 0)

  // ----- what the database itself enforces -----

  predicate PortOk(port: int) { 1 <= port <= 65535 }

  predicate OneTarget(upstream: Option<Id>, forwardHost: Option<string>, forwardPort: Option<int>) {
    || (forwardHost.Some? && forwardPort.Some? && upstream.None?)
    || (forwardHost.None? && forwardPort.None? && upstream.Some?)
  }

  predicate LocationShape(l: Location) {
    && l.upstream.Some? == l.target.ToPool?
    && l.forwardHost.Some? == l.target.ToHost?
    && l.forwardPort.Some? == l.target.ToHost?
    && l.page.Some? == l.target.CustomPage?
    && l.errorCode.Some? == l.target.ErrorPage?
    && (l.forwardPort.Some? ==> PortOk(l.forwardPort.value))
  }

  predicate PoolRow(p: Pool) {
    && (forall b <- p.backends :: PortOk(p.backends[b].port) && p.backends[b].weight >= 0)
    && (forall b <- p.backends, c <- p.backends ::
          p.backends[b].host == p.backends[c].host && p.backends[b].port == p.backends[c].port ==> b == c)
  }

  predicate Refers(upstream: Option<Id>, ids: set<Id>) { upstream.Some? ==> upstream.value in ids }

  predicate HostRow(pools: set<Id>, pages: set<Id>, certs: set<Id>, h: Host) {
    && OneTarget(h.upstream, h.forwardHost, h.forwardPort)
    && (h.forwardPort.Some? ==> PortOk(h.forwardPort.value))
    && Refers(h.upstream, pools)
    && Refers(h.certificate, certs)
    && (forall l <- h.locations :: LocationShape(l) && Refers(l.upstream, pools) && Refers(l.page, pages))
    && (forall i, j :: 0 <= i < j < |h.locations| ==> h.locations[i].path != h.locations[j].path)
  }

  predicate StreamRow(pools: set<Id>, certs: set<Id>, s: Stream) {
    && PortOk(s.port) && OneTarget(s.upstream, s.forwardHost, s.forwardPort) && (s.tcp || s.udp)
    && (s.forwardPort.Some? ==> PortOk(s.forwardPort.value))
    && Refers(s.upstream, pools)
    && Refers(s.certificate, certs)
  }

  predicate PortsUnique(streams: map<Id, Stream>) {
    forall s <- streams, t <- streams :: streams[s].port == streams[t].port ==> s == t
  }

  predicate PagesExist(db: Db) {
    && (forall x <- db.slots :: db.slots[x] in db.pages)
    && (forall c <- db.errorPages :: db.errorPages[c] in db.pages)
  }

  /** CHECK, UNIQUE and foreign-key constraints: the commit guard. */
  predicate Consistent(db: Db) {
    && (forall p <- db.pools :: PoolRow(db.pools[p]))
    && (forall h <- db.hosts :: HostRow(db.pools.Keys, db.pages, db.certificates.Keys, db.hosts[h]))
    && (forall s <- db.streams :: StreamRow(db.pools.Keys, db.certificates.Keys, db.streams[s]))
    && PortsUnique(db.streams)
    && PagesExist(db)
  }

  // ----- what the services promise beyond that -----

  predicate UsableIn(c: Context, where_: Context) { c.Both? || c == where_ }

  predicate NoBackups(m: Method) { m.Hash? || m.IpHash? || m.Random? }

  predicate HasBackup(p: Pool) { exists b <- p.backends :: p.backends[b].backup }

  predicate MethodOk(p: Pool) {
    (p.balancing.IpHash? ==> p.context.Http?) && (NoBackups(p.balancing) ==> !HasBackup(p))
  }

  predicate Usable(pools: map<Id, Pool>, upstream: Option<Id>, where_: Context) {
    upstream.Some? && upstream.value in pools ==> UsableIn(pools[upstream.value].context, where_)
  }

  predicate HostUsable(pools: map<Id, Pool>, h: Host) {
    Usable(pools, h.upstream, Http) && forall l <- h.locations :: Usable(pools, l.upstream, Http)
  }

  /** Ids come from sequences: they are never given out twice. */
  predicate Numbered(db: Db) {
    && (forall p <- db.pools :: p < db.nextId && forall b <- db.pools[p].backends :: b < db.pools[p].nextBackend)
    && (forall h <- db.hosts :: h < db.nextId)
    && (forall s <- db.streams :: s < db.nextId)
    && (forall c <- db.certificates :: c < db.nextId)
  }

  /** A database that keeps every promise of the services and every constraint. */
  predicate Orderly(db: Db) {
    && Numbered(db)
    && Consistent(db)
    && (forall p <- db.pools :: MethodOk(db.pools[p]))
    && (forall h <- db.hosts :: HostUsable(db.pools, db.hosts[h]))
    && (forall s <- db.streams :: Usable(db.pools, db.streams[s].upstream, Tcp))
  }

  // ----- requests -----

  /** A field of a partial update: left out, or set to a value or to null. */
  datatype Change<+T> = Keep | Set(value: Option<T>)

  /** The merged value of a NOT NULL column; `None` is a null the commit refuses. */
  function Merged<T>(c: Change<T>, old_: T): Option<T> { if c.Keep? then Some(old_) else c.value }

  function MergedNullable<T>(c: Change<T>, old_: Option<T>): Option<T> { if c.Keep? then old_ else c.value }

  datatype PoolChanges = PoolChanges(balancing: Change<Method>, context: Change<Context>, enabled: Change<bool>)
  datatype BackendChanges = BackendChanges(host: Change<string>, port: Change<int>, weight: Change<int>,
                                           backup: Change<bool>, enabled: Change<bool>)
  datatype HostChanges = HostChanges(upstream: Change<Id>, forwardHost: Change<string>, forwardPort: Change<int>,
                                     enabled: Change<bool>, certificate: Change<Id>, sslForced: Change<bool>,
                                     locations: Option<seq<Location>>)
  datatype StreamChanges = StreamChanges(port: Change<int>, upstream: Change<Id>, forwardHost: Change<string>,
                                         forwardPort: Change<int>, tcp: Change<bool>, udp: Change<bool>,
                                         certificate: Change<Id>, enabled: Change<bool>)

  datatype Request =
    | CreatePool(balancing: Method, context: Context, enabled: bool, seeds: seq<Backend>)
    | UpdatePool(pool: Id, poolChanges: PoolChanges)
    | DeletePool(pool: Id)
    | AddBackend(pool: Id, added: Backend)
    | UpdateBackend(pool: Id, backend: Id, backendChanges: BackendChanges)
    | RemoveBackend(pool: Id, backend: Id)
    | CreateHost(newHost: Host)
    | UpdateHost(host: Id, hostChanges: HostChanges)
    | DeleteHost(host: Id)
    | CreateStream(newStream: Stream)
    | UpdateStream(stream: Id, streamChanges: StreamChanges)
    | DeleteStream(stream: Id)
    | CreatePage
    | DeletePage(page: Id)
    | SetSlot(slot: Slot, custom: bool, slotPage: Option<Id>)
    | ReplaceErrorPages(bindings: map<int, Option<Id>>)
    | CreateCertificate(onDisk: bool)
    | IssueCertificate(certificate: Id)
    | DeleteCertificate(certificate: Id)

  function MergedPool(p: Pool, c: PoolChanges): Option<Pool> {
    var balancing, context := Merged(c.balancing, p.balancing), Merged(c.context, p.context);
    var enabled := Merged(c.enabled, p.enabled);
    if balancing.None? || context.None? || enabled.None? then None
    else Some(p.(balancing := balancing.value, context := context.value, enabled := enabled.value))
  }

  function MergedBackend(b: Backend, c: BackendChanges): Option<Backend> {
    var host, port, weight := Merged(c.host, b.host), Merged(c.port, b.port), Merged(c.weight, b.weight);
    var backup, enabled := Merged(c.backup, b.backup), Merged(c.enabled, b.enabled);
    if host.None? || port.None? || weight.None? || backup.None? || enabled.None? then None
    else Some(Backend(host.value, port.value, weight.value, backup.value, enabled.value))
  }

  function MergedHost(h: Host, c: HostChanges): Option<Host> {
    var enabled, sslForced := Merged(c.enabled, h.enabled), Merged(c.sslForced, h.sslForced);
    if enabled.None? || sslForced.None? then None
    else Some(Host(MergedNullable(c.upstream, h.upstream), MergedNullable(c.forwardHost, h.forwardHost),
                   MergedNullable(c.forwardPort, h.forwardPort), enabled.value,
                   MergedNullable(c.certificate, h.certificate), sslForced.value,
                   if c.locations.Some? then c.locations.value else h.locations))
  }

  function MergedStream(s: Stream, c: StreamChanges): Option<Stream> {
    var port, tcp, udp := Merged(c.port, s.port), Merged(c.tcp, s.tcp), Merged(c.udp, s.udp);
    var enabled := Merged(c.enabled, s.enabled);
    if port.None? || tcp.None? || udp.None? || enabled.None? then None
    else Some(Stream(port.value, MergedNullable(c.upstream, s.upstream), MergedNullable(c.forwardHost, s.forwardHost),
                     MergedNullable(c.forwardPort, s.forwardPort), tcp.value, udp.value,
                     MergedNullable(c.certificate, s.certificate), enabled.value))
  }

  function WithPool(db: Db, id: Id, p: Pool): Db { db.(pools := db.pools[id := p]) }

  function Seeded(balancing: Method, context: Context, enabled: bool, seeds: seq<Backend>): Pool {
    Pool(balancing, context, enabled, map i: Id | i < |seeds| :: seeds[i], |seeds|)
  }

  /** Deleting a certificate takes it from every host and stream that used it. */
  function WithoutCertificate(db: Db, id: Id): Db {
    db.(certificates := db.certificates - {id},
        hosts := map h | h in db.hosts :: Unlinked(db.hosts[h], id),
        streams := map s | s in db.streams :: UnlinkedStream(db.streams[s], id))
  }

  function Unlinked(h: Host, id: Id): Host { if h.certificate == Some(id) then h.(certificate := None) else h }

  function UnlinkedStream(s: Stream, id: Id): Stream {
    if s.certificate == Some(id) then s.(certificate := None) else s
  }

  /** What a request asks for, checked by nothing: `None` when the row it names is missing or a
      NOT NULL column would be null. */
  function Asked(db: Db, q: Request): Option<Db> {
    match q
    case CreatePool(balancing, context, enabled, seeds) =>
      Some(WithPool(db, db.nextId, Seeded(balancing, context, enabled, seeds)).(nextId := db.nextId + 1))
    case UpdatePool(id, c) =>
      if id !in db.pools || MergedPool(db.pools[id], c).None? then None
      else Some(WithPool(db, id, MergedPool(db.pools[id], c).value))
    case DeletePool(id) => if id !in db.pools then None else Some(db.(pools := db.pools - {id}))
    case AddBackend(id, b) =>
      if id !in db.pools then None
      else
        var p := db.pools[id];
        Some(WithPool(db, id, p.(backends := p.backends[p.nextBackend := b], nextBackend := p.nextBackend + 1)))
    case UpdateBackend(id, b, c) =>
      if id !in db.pools || b !in db.pools[id].backends || MergedBackend(db.pools[id].backends[b], c).None? then None
      else
        var p := db.pools[id];
        Some(WithPool(db, id, p.(backends := p.backends[b := MergedBackend(p.backends[b], c).value])))
    case RemoveBackend(id, b) =>
      if id !in db.pools || b !in db.pools[id].backends then None
      else Some(WithPool(db, id, db.pools[id].(backends := db.pools[id].backends - {b})))
    case CreateHost(h) => Some(db.(hosts := db.hosts[db.nextId := h], nextId := db.nextId + 1))
    case UpdateHost(id, c) =>
      if id !in db.hosts || MergedHost(db.hosts[id], c).None? then None
      else Some(db.(hosts := db.hosts[id := MergedHost(db.hosts[id], c).value]))
    case DeleteHost(id) => if id !in db.hosts then None else Some(db.(hosts := db.hosts - {id}))
    case CreateStream(s) => Some(db.(streams := db.streams[db.nextId := s], nextId := db.nextId + 1))
    case UpdateStream(id, c) =>
      if id !in db.streams || MergedStream(db.streams[id], c).None? then None
      else Some(db.(streams := db.streams[id := MergedStream(db.streams[id], c).value]))
    case DeleteStream(id) => if id !in db.streams then None else Some(db.(streams := db.streams - {id}))
    case CreatePage => Some(db.(pages := db.pages + {db.nextId}, nextId := db.nextId + 1))
    case DeletePage(id) => if id !in db.pages then None else Some(db.(pages := db.pages - {id}))
    case SetSlot(slot, custom, page) =>
      if custom && page.Some? then Some(db.(slots := db.slots[slot := page.value]))
      else if custom && slot.SiteSlot? then None
      else Some(db.(slots := db.slots - {slot}))
    case ReplaceErrorPages(bindings) =>
      if exists c <- bindings :: bindings[c].None? then None
      else Some(db.(errorPages := map c | c in bindings && bindings[c].Some? :: bindings[c].value))
    case CreateCertificate(onDisk) =>
      Some(db.(certificates := db.certificates[db.nextId := onDisk], nextId := db.nextId + 1))
    case IssueCertificate(id) =>
      if id !in db.certificates then None else Some(db.(certificates := db.certificates[id := true]))
    case DeleteCertificate(id) => if id !in db.certificates then None else Some(WithoutCertificate(db, id))
  }

  // ----- the service checks -----

  datatype Error =
    | NotFound
    | DuplicateBackend
    | InUse
    | InvalidPoolConfig
    | InvalidReference
    | PortConflict
    | UnknownPage
    | IntegrityError

  datatype Outcome = Done(db: Db) | Refused(error: Error)

  /** A method or context may be an explicit null here; the commit refuses it later. */
  predicate ValidPoolConfig(m: Option<Method>, c: Option<Context>, hasBackup: bool) {
    !(m == Some(IpHash) && c != Some(Http)) && !(hasBackup && m.Some? && NoBackups(m.value))
  }

  function HostsNaming(db: Db, id: Id): set<Id> {
    set h | h in db.hosts && db.hosts[h].upstream == Some(id)
  }

  function LocationsNaming(db: Db, id: Id): set<(Id, nat)> {
    set h, i: nat | h in db.hosts && i < |db.hosts[h].locations| && db.hosts[h].locations[i].upstream == Some(id)
                  :: (h, i)
  }

  function StreamsNaming(db: Db, id: Id): set<Id> {
    set s | s in db.streams && db.streams[s].upstream == Some(id)
  }

  predicate ContextChangeAllowed(db: Db, id: Id, c: Option<Context>) {
    var proxyHosts, streams := |HostsNaming(db, id)| + |LocationsNaming(db, id)|, |StreamsNaming(db, id)|;
    !(c == Some(Http) && streams != 0) && !(c == Some(Tcp) && proxyHosts != 0)
  }

  predicate PoolsUsable(db: Db, ids: set<Id>, where_: Context) {
    ids <= db.pools.Keys && forall id <- ids :: UsableIn(db.pools[id].context, where_)
  }

  function PoolsOf(ls: seq<Location>): set<Id> { set l | l in ls && l.upstream.Some? :: l.upstream.value }

  function PagesOf(ls: seq<Location>): set<Id> { set l | l in ls && l.page.Some? :: l.page.value }

  predicate LocationsValid(db: Db, ls: seq<Location>) {
    PoolsUsable(db, PoolsOf(ls), Http) && PagesOf(ls) <= db.pages
  }

  predicate PortTaken(db: Db, port: int) { exists s <- db.streams :: db.streams[s].port == port }

  predicate PortTakenByOther(db: Db, port: int, id: Id) {
    exists s <- db.streams :: db.streams[s].port == port && s != id
  }

  /** Commit what was asked for, or roll back and report `onConflict`. */
  function Commit(staged: Option<Db>, onConflict: Error): Outcome {
    if staged.Some? && Consistent(staged.value) then Done(staged.value) else Refused(onConflict)
  }

  function Execute(db: Db, q: Request): Outcome {
    match q
    case CreatePool(balancing, context, enabled, seeds) =>
      if !ValidPoolConfig(Some(balancing), Some(context), exists b <- seeds :: b.backup)
      then Refused(InvalidPoolConfig)
      else Commit(Asked(db, q), DuplicateBackend)
    case UpdatePool(id, c) =>
      if id !in db.pools then Refused(NotFound)
      else
        var p := db.pools[id];
        var context := Merged(c.context, p.context);
        if !ValidPoolConfig(Merged(c.balancing, p.balancing), context, HasBackup(p)) then Refused(InvalidPoolConfig)
        else if context != Some(p.context) && !ContextChangeAllowed(db, id, context) then Refused(InvalidPoolConfig)
        else Commit(Asked(db, q), IntegrityError)
    case DeletePool(id) => if id !in db.pools then Refused(NotFound) else Commit(Asked(db, q), InUse)
    case AddBackend(id, b) =>
      if id !in db.pools then Refused(NotFound)
      else
        var p := db.pools[id];
        if !ValidPoolConfig(Some(p.balancing), Some(p.context), b.backup || HasBackup(p))
        then Refused(InvalidPoolConfig)
        else Commit(Asked(db, q), DuplicateBackend)
    case UpdateBackend(id, b, c) =>
      if id !in db.pools || b !in db.pools[id].backends then Refused(NotFound)
      else
        var p := db.pools[id];
        if c.backup.Set?
           && !ValidPoolConfig(Some(p.balancing), Some(p.context),
                               c.backup.value == Some(true) || HasBackup(p.(backends := p.backends - {b})))
        then Refused(InvalidPoolConfig)
        else Commit(Asked(db, q), DuplicateBackend)
    case RemoveBackend(id, b) =>
      if id !in db.pools || b !in db.pools[id].backends then Refused(NotFound)
      else Commit(Asked(db, q), IntegrityError)
    case CreateHost(h) =>
      if h.upstream.Some? && !PoolsUsable(db, {h.upstream.value}, Http) then Refused(InvalidReference)
      else if !LocationsValid(db, h.locations) then Refused(InvalidReference)
      else Commit(Asked(db, q), InvalidReference)
    case UpdateHost(id, c) =>
      if id !in db.hosts then Refused(NotFound)
      else if c.upstream.Set? && c.upstream.value.Some? && !PoolsUsable(db, {c.upstream.value.value}, Http)
      then Refused(InvalidReference)
      else if c.locations.Some? && !LocationsValid(db, c.locations.value) then Refused(InvalidReference)
      else if c.locations.Some? && Commit(Asked(db, UpdateHost(id, c.(locations := Some([])))), IntegrityError).Refused?
      then Refused(IntegrityError)
      else Commit(Asked(db, q), InvalidReference)
    case DeleteHost(id) => if id !in db.hosts then Refused(NotFound) else Commit(Asked(db, q), IntegrityError)
    case CreateStream(s) =>
      if PortTaken(db, s.port) then Refused(PortConflict)
      else if s.upstream.Some? && !PoolsUsable(db, {s.upstream.value}, Tcp) then Refused(InvalidReference)
      else Commit(Asked(db, q), InvalidReference)
    case UpdateStream(id, c) =>
      if id !in db.streams then Refused(NotFound)
      else if c.port.Set? && c.port.value.Some? && c.port.value.value != db.streams[id].port
              && PortTakenByOther(db, c.port.value.value, id)
      then Refused(PortConflict)
      else if c.upstream.Set? && c.upstream.value.Some? && !PoolsUsable(db, {c.upstream.value.value}, Tcp)
      then Refused(InvalidReference)
      else Commit(Asked(db, q), InvalidReference)
    case DeleteStream(id) => if id !in db.streams then Refused(NotFound) else Commit(Asked(db, q), IntegrityError)
    case CreatePage => Commit(Asked(db, q), IntegrityError)
    case DeletePage(id) => if id !in db.pages then Refused(NotFound) else Commit(Asked(db, q), IntegrityError)
    case SetSlot(_, _, _) => Commit(Asked(db, q), UnknownPage)
    case ReplaceErrorPages(bindings) =>
      if (exists c <- bindings :: bindings[c].Some?)
         && (exists c <- bindings :: bindings[c].None? || bindings[c].value !in db.pages)
      then Refused(UnknownPage)
      else Commit(Asked(db, q), IntegrityError)
    case CreateCertificate(_) => Commit(Asked(db, q), IntegrityError)
    case IssueCertificate(id) =>
      if id !in db.certificates then Refused(NotFound) else Commit(Asked(db, q), IntegrityError)
    case DeleteCertificate(id) =>
      if id !in db.certificates then Refused(NotFound) else Commit(Asked(db, q), IntegrityError)
  }
}
