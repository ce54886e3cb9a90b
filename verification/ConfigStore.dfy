/** The partial updates as the services run them: the row's fields set one at a time inside a
    transaction that commits whole or rolls back. */
module ConfigStore {
  import opened Text
  import opened ProxyConfig
  import opened ProxySafety

  /** `None` is success, with exactly the requested database; an error leaves the database alone. */
  ghost predicate Answers(before: Db, q: Request, r: Option<Error>, after: Db) {
    match Execute(before, q)
    case Done(done) => r.None? && after == done
    case Refused(e) => r == Some(e) && after == before
  }

  // ----- setting the fields a request names; a null in a NOT NULL column spoils the row -----

  /** A named field takes the given value, and one left out keeps its own. */
  ghost predicate Takes<T>(c: Change<T>, before: T, after: T) {
    if c.Keep? then after == before else c.value == Some(after)
  }

  ghost predicate TakesNullable<T>(c: Change<T>, before: Option<T>, after: Option<T>) {
    after == if c.Keep? then before else c.value
  }

  predicate Nulled<T>(c: Change<T>) { c.Set? && c.value.None? }

  /** A pool update fails exactly when it names a NOT NULL field null; otherwise every named field
      takes its value and everything else, the servers included, stays. */
  lemma PoolMergeMeans(stored: Pool, c: PoolChanges, r: Option<Pool>)
    ensures r == MergedPool(stored, c)
       <==> if Nulled(c.balancing) || Nulled(c.context) || Nulled(c.enabled) then r.None?
            else && r.Some? && Takes(c.balancing, stored.balancing, r.value.balancing)
                 && Takes(c.context, stored.context, r.value.context)
                 && Takes(c.enabled, stored.enabled, r.value.enabled)
                 && r.value.backends == stored.backends && r.value.nextBackend == stored.nextBackend
  {
  }

  lemma BackendMergeMeans(stored: Backend, c: BackendChanges, r: Option<Backend>)
    ensures r == MergedBackend(stored, c)
       <==> if Nulled(c.host) || Nulled(c.port) || Nulled(c.weight) || Nulled(c.backup) || Nulled(c.enabled)
            then r.None?
            else && r.Some? && Takes(c.host, stored.host, r.value.host) && Takes(c.port, stored.port, r.value.port)
                 && Takes(c.weight, stored.weight, r.value.weight)
                 && Takes(c.backup, stored.backup, r.value.backup)
                 && Takes(c.enabled, stored.enabled, r.value.enabled)
  {
  }

  lemma HostMergeMeans(stored: Host, c: HostChanges, r: Option<Host>)
    ensures r == MergedHost(stored, c)
       <==> if Nulled(c.enabled) || Nulled(c.sslForced) then r.None?
            else && r.Some? && TakesNullable(c.upstream, stored.upstream, r.value.upstream)
                 && TakesNullable(c.forwardHost, stored.forwardHost, r.value.forwardHost)
                 && TakesNullable(c.forwardPort, stored.forwardPort, r.value.forwardPort)
                 && Takes(c.enabled, stored.enabled, r.value.enabled)
                 && TakesNullable(c.certificate, stored.certificate, r.value.certificate)
                 && Takes(c.sslForced, stored.sslForced, r.value.sslForced)
                 && r.value.locations == (if c.locations.Some? then c.locations.value else stored.locations)
  {
  }

  lemma StreamMergeMeans(stored: Stream, c: StreamChanges, r: Option<Stream>)
    ensures r == MergedStream(stored, c)
       <==> if Nulled(c.port) || Nulled(c.tcp) || Nulled(c.udp) || Nulled(c.enabled) then r.None?
            else && r.Some? && Takes(c.port, stored.port, r.value.port)
                 && TakesNullable(c.upstream, stored.upstream, r.value.upstream)
                 && TakesNullable(c.forwardHost, stored.forwardHost, r.value.forwardHost)
                 && TakesNullable(c.forwardPort, stored.forwardPort, r.value.forwardPort)
                 && Takes(c.tcp, stored.tcp, r.value.tcp) && Takes(c.udp, stored.udp, r.value.udp)
                 && TakesNullable(c.certificate, stored.certificate, r.value.certificate)
                 && Takes(c.enabled, stored.enabled, r.value.enabled)
  {
  }

  method Assign<T>(c: Change<T>, stored: T) returns (v: Option<T>)
    ensures v == Merged(c, stored)
  {
    v := Some(stored);
    if c.Set? { v := c.value; }
  }

  method AssignNullable<T>(c: Change<T>, stored: Option<T>) returns (v: Option<T>)
    ensures v == MergedNullable(c, stored)
  {
    v := stored;
    if c.Set? { v := c.value; }
  }

  method SetPool(stored: Pool, c: PoolChanges) returns (r: Option<Pool>)
    ensures r == MergedPool(stored, c)
  {
    hide Merged;
    var balancing := Assign(c.balancing, stored.balancing);
    var context := Assign(c.context, stored.context);
    var enabled := Assign(c.enabled, stored.enabled);
    if balancing.None? || context.None? || enabled.None? { return None; }
    return Some(stored.(balancing := balancing.value, context := context.value, enabled := enabled.value));
  }

  method SetBackend(stored: Backend, c: BackendChanges) returns (r: Option<Backend>)
    ensures r == MergedBackend(stored, c)
  {
    hide Merged;
    var host := Assign(c.host, stored.host);
    var port := Assign(c.port, stored.port);
    var weight := Assign(c.weight, stored.weight);
    var backup := Assign(c.backup, stored.backup);
    var enabled := Assign(c.enabled, stored.enabled);
    if host.None? || port.None? || weight.None? || backup.None? || enabled.None? { return None; }
    return Some(Backend(host.value, port.value, weight.value, backup.value, enabled.value));
  }

  method SetStream(stored: Stream, c: StreamChanges) returns (r: Option<Stream>)
    ensures r == MergedStream(stored, c)
  {
    hide Merged, MergedNullable;
    var port := Assign(c.port, stored.port);
    var upstream := AssignNullable(c.upstream, stored.upstream);
    var forwardHost := AssignNullable(c.forwardHost, stored.forwardHost);
    var forwardPort := AssignNullable(c.forwardPort, stored.forwardPort);
    var tcp := Assign(c.tcp, stored.tcp);
    var udp := Assign(c.udp, stored.udp);
    var certificate := AssignNullable(c.certificate, stored.certificate);
    var enabled := Assign(c.enabled, stored.enabled);
    if port.None? || tcp.None? || udp.None? || enabled.None? { return None; }
    return Some(Stream(port.value, upstream, forwardHost, forwardPort, tcp.value, udp.value, certificate,
                       enabled.value));
  }

  /** A host's own columns; its locations are left as they are. */
  method SetHost(stored: Host, c: HostChanges) returns (r: Option<Host>)
    ensures r == MergedHost(stored, c.(locations := None))
  {
    hide Merged, MergedNullable;
    var upstream := AssignNullable(c.upstream, stored.upstream);
    var forwardHost := AssignNullable(c.forwardHost, stored.forwardHost);
    var forwardPort := AssignNullable(c.forwardPort, stored.forwardPort);
    var enabled := Assign(c.enabled, stored.enabled);
    var certificate := AssignNullable(c.certificate, stored.certificate);
    var sslForced := Assign(c.sslForced, stored.sslForced);
    if enabled.None? || sslForced.None? { return None; }
    return Some(Host(upstream, forwardHost, forwardPort, enabled.value, certificate, sslForced.value,
                     stored.locations));
  }

  class ConfigStore {
    var db: Db

    ghost predicate Valid() reads this { Orderly(db) }

    constructor ()
      ensures Valid() && db == Empty
    {
      db := Empty;
      new;
      EmptyIsOrderly();
    }

    method UpdatePool(id: Id, c: PoolChanges) returns (r: Option<Error>)
      requires Valid()
      modifies this
      ensures Valid() && Answers(old(db), Request.UpdatePool(id, c), r, db)
    {
      hide Orderly, Consistent, HasBackup, ContextChangeAllowed, ValidPoolConfig, MergedPool;
      ChecksAreExact(db, Request.UpdatePool(id, c));
      if id !in db.pools { return Some(NotFound); }
      var row := db.pools[id];
      var context := Merged(c.context, row.context);
      if !ValidPoolConfig(Merged(c.balancing, row.balancing), context, HasBackup(row)) {
        return Some(InvalidPoolConfig);
      }
      if context != Some(row.context) && !ContextChangeAllowed(db, id, context) { return Some(InvalidPoolConfig); }
      var changed := SetPool(row, c);
      if changed.None? || !Consistent(WithPool(db, id, changed.value)) { return Some(IntegrityError); }
      db := WithPool(db, id, changed.value);
      return None;
    }

    method UpdateBackend(id: Id, backend: Id, c: BackendChanges) returns (r: Option<Error>)
      requires Valid()
      modifies this
      ensures Valid() && Answers(old(db), Request.UpdateBackend(id, backend, c), r, db)
    {
      hide Orderly, Consistent, HasBackup, ValidPoolConfig, MergedBackend;
      ChecksAreExact(db, Request.UpdateBackend(id, backend, c));
      if id !in db.pools || backend !in db.pools[id].backends { return Some(NotFound); }
      var pool := db.pools[id];
      if c.backup.Set? {
        var others := pool.(backends := pool.backends - {backend});
        var hasBackup := c.backup.value == Some(true) || HasBackup(others);
        if !ValidPoolConfig(Some(pool.balancing), Some(pool.context), hasBackup) {
          return Some(InvalidPoolConfig);
        }
      }
      var row := SetBackend(pool.backends[backend], c);
      if row.None? { return Some(DuplicateBackend); }
      var staged := WithPool(db, id, pool.(backends := pool.backends[backend := row.value]));
      if !Consistent(staged) { return Some(DuplicateBackend); }
      db := staged;
      return None;
    }

    /** Replacing the locations empties and flushes them first, outside the guarded commit, so a
        bad row then surfaces as the raw integrity error. */
    method UpdateHost(id: Id, c: HostChanges) returns (r: Option<Error>)
      requires Valid()
      modifies this
      ensures Valid() && Answers(old(db), Request.UpdateHost(id, c), r, db)
    {
      hide Orderly, Consistent, LocationsValid, PoolsUsable;
      ChecksAreExact(db, Request.UpdateHost(id, c));
      if id !in db.hosts { return Some(NotFound); }
      if c.upstream.Set? && c.upstream.value.Some? && !PoolsUsable(db, {c.upstream.value.value}, Http) {
        return Some(InvalidReference);
      }
      if c.locations.Some? && !LocationsValid(db, c.locations.value) { return Some(InvalidReference); }
      var columns := SetHost(db.hosts[id], c);
      if columns.None? { return Some(if c.locations.Some? then IntegrityError else InvalidReference); }
      var row := columns.value;
      if c.locations.Some? {
        row := row.(locations := []);
        if !Consistent(db.(hosts := db.hosts[id := row])) { return Some(IntegrityError); }
        row := row.(locations := c.locations.value);
      }
      var staged := db.(hosts := db.hosts[id := row]);
      if !Consistent(staged) { return Some(InvalidReference); }
      db := staged;
      return None;
    }

    method UpdateStream(id: Id, c: StreamChanges) returns (r: Option<Error>)
      requires Valid()
      modifies this
      ensures Valid() && Answers(old(db), Request.UpdateStream(id, c), r, db)
    {
      hide Orderly, Consistent, PoolsUsable, PortTakenByOther, MergedStream;
      ChecksAreExact(db, Request.UpdateStream(id, c));
      if id !in db.streams { return Some(NotFound); }
      if c.port.Set? && c.port.value.Some? && c.port.value.value != db.streams[id].port {
        if PortTakenByOther(db, c.port.value.value, id) { return Some(PortConflict); }
      }
      if c.upstream.Set? && c.upstream.value.Some? && !PoolsUsable(db, {c.upstream.value.value}, Tcp) {
        return Some(InvalidReference);
      }
      var row := SetStream(db.streams[id], c);
      if row.None? { return Some(InvalidReference); }
      var staged := db.(streams := db.streams[id := row.value]);
      if !Consistent(staged) { return Some(InvalidReference); }
      db := staged;
      return None;
    }
  }
}
