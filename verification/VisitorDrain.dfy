/** Draining the visitor counters: nginx keeps incrementing the Redis hashes while one flusher
    reads them, adds what it read to the database, and deletes the fields it read. */
module VisitorDrain {
  type Address = string
  type Tally = map<Address, nat>

  function Get(t: Tally, ip: Address): nat { if ip in t then t[ip] else 0 }

  function Bump(t: Tally, ip: Address, amount: nat): Tally { t[ip := Get(t, ip) + amount] }

  /** The upsert: add each delta to the stored total. */
  function AddAll(t: Tally, deltas: Tally): Tally {
    map ip | ip in t.Keys + deltas.Keys :: Get(t, ip) + Get(deltas, ip)
  }

  /** One quantity (requests, or bytes) of one day: the Redis hash and the database column, and
      for the record what was really counted (`total`), what came in since the hash was last
      read (`late`), and what was deleted unread (`lost`). */
  datatype Counter = Counter(redis: Tally, db: Tally, total: Tally, late: Tally, lost: Tally)

  const Zero := Counter(map[], map[], map[], map[], map[])

  function Increment(c: Counter, ip: Address, amount: nat): Counter {
    c.(redis := Bump(c.redis, ip, amount), total := Bump(c.total, ip, amount), late := Bump(c.late, ip, amount))
  }

  function BeginRead(c: Counter): Counter { c.(late := map[]) }

  function Write(c: Counter, rows: Tally): Counter { c.(db := AddAll(c.db, rows)) }

  function Delete(c: Counter, fields: set<Address>): Counter {
    c.(redis := c.redis - fields,
       lost := map ip | ip in c.lost.Keys + fields :: Get(c.lost, ip) + (if ip in fields then Get(c.late, ip) else 0))
  }

  /** Where the flusher is. */
  datatype Place =
    | Idle
    | HaveCounts(counts: Tally)
    | HaveRows(counts: Tally, bytes: Tally)
    | Written(counts: Tally, bytes: Tally)
    | CountsDeleted(bytes: Tally)

  datatype State = State(requests: Counter, bytes: Counter, place: Place)

  const Start := State(Zero, Zero, Idle)

  /** `Crash` is the flusher dying where it is; it is not part of a clean run. */
  datatype Step =
    | CountRequest(ip: Address, amount: nat)
    | CountBytes(ip: Address, amount: nat)
    | Flush(writeOk: bool)
    | Crash

  /** The rows of a read: one per non-empty address of the count hash, with its bytes. */
  function CountRows(counts: Tally): Tally { map ip | ip in counts && ip != "" :: counts[ip] }

  function ByteRows(counts: Tally, bytes: Tally): Tally { map ip | ip in counts && ip != "" :: Get(bytes, ip) }

  function Next(s: State, step: Step): State {
    match step
    case CountRequest(ip, amount) => s.(requests := Increment(s.requests, ip, amount))
    case CountBytes(ip, amount) => s.(bytes := Increment(s.bytes, ip, amount))
    case Crash => s.(place := Idle)
    case Flush(writeOk) =>
      match s.place
      case Idle =>
        if s.requests.redis == map[] then s
        else s.(requests := BeginRead(s.requests), place := HaveCounts(s.requests.redis))
      case HaveCounts(counts) =>
        var rows := CountRows(counts);
        var s := s.(bytes := BeginRead(s.bytes));
        if rows == map[] then s.(place := Idle)
        else s.(place := HaveRows(rows, ByteRows(counts, s.bytes.redis)))
      case HaveRows(counts, bytes) =>
        if writeOk then
          s.(requests := Write(s.requests, counts), bytes := Write(s.bytes, bytes), place := Written(counts, bytes))
        else s.(place := Idle)
      case Written(counts, bytes) => s.(requests := Delete(s.requests, counts.Keys), place := CountsDeleted(bytes))
      case CountsDeleted(bytes) => s.(bytes := Delete(s.bytes, bytes.Keys), place := Idle)
  }

  function Run(s: State, steps: seq<Step>): State {
    if steps == [] then s else Next(Run(s, steps[..|steps| - 1]), steps[|steps| - 1])
  }

  // ----- what every step keeps -----

  /** Database plus Redis plus what was lost is the true total, except that `twice` is counted
      both in the database and in Redis. */
  ghost predicate Balanced(c: Counter, twice: Tally) {
    forall ip :: Get(c.db, ip) + Get(c.redis, ip) + Get(c.lost, ip) == Get(c.total, ip) + Get(twice, ip)
  }

  /** What was read is still in Redis, with what came in since on top. */
  ghost predicate StillThere(c: Counter, rows: Tally) {
    forall ip <- rows :: Get(c.redis, ip) == rows[ip] + Get(c.late, ip)
  }

  ghost predicate Inv(s: State) {
    match s.place
    case Idle => Balanced(s.requests, map[]) && Balanced(s.bytes, map[])
    case HaveCounts(counts) =>
      Balanced(s.requests, map[]) && Balanced(s.bytes, map[]) && StillThere(s.requests, counts)
    case HaveRows(counts, bytes) =>
      && Balanced(s.requests, map[]) && Balanced(s.bytes, map[])
      && StillThere(s.requests, counts) && StillThere(s.bytes, bytes) && "" !in counts && "" !in bytes
    case Written(counts, bytes) =>
      && Balanced(s.requests, counts) && Balanced(s.bytes, bytes)
      && StillThere(s.requests, counts) && StillThere(s.bytes, bytes) && "" !in counts && "" !in bytes
    case CountsDeleted(bytes) =>
      Balanced(s.requests, map[]) && Balanced(s.bytes, bytes) && StillThere(s.bytes, bytes) && "" !in bytes
  }

  lemma IncrementAt(c: Counter, ip: Address, amount: nat, x: Address)
    ensures var d := Increment(c, ip, amount);
            var more := if x == ip then amount else 0;
            && d.db == c.db && d.lost == c.lost
            && Get(d.redis, x) == Get(c.redis, x) + more
            && Get(d.late, x) == Get(c.late, x) + more
            && Get(d.total, x) == Get(c.total, x) + more
  {
  }

  lemma IncrementKeeps(c: Counter, ip: Address, amount: nat, twice: Tally, rows: Tally)
    ensures Balanced(c, twice) ==> Balanced(Increment(c, ip, amount), twice)
    ensures StillThere(c, rows) ==> StillThere(Increment(c, ip, amount), rows)
  {
    hide Increment, Get;
    forall x ensures Get(c.db, x) + Get(c.redis, x) + Get(c.lost, x) - Get(c.total, x)
                     == Get(Increment(c, ip, amount).db, x) + Get(Increment(c, ip, amount).redis, x)
                        + Get(Increment(c, ip, amount).lost, x) - Get(Increment(c, ip, amount).total, x)
            ensures Get(Increment(c, ip, amount).redis, x) - Get(Increment(c, ip, amount).late, x)
                    == Get(c.redis, x) - Get(c.late, x)
    {
      IncrementAt(c, ip, amount, x);
    }
  }

  lemma WriteKeeps(c: Counter, rows: Tally)
    requires Balanced(c, map[]) && StillThere(c, rows)
    ensures Balanced(Write(c, rows), rows) && StillThere(Write(c, rows), rows)
  {
    var d := Write(c, rows);
    forall x ensures Get(d.db, x) + Get(d.redis, x) + Get(d.lost, x) == Get(d.total, x) + Get(rows, x) {
      assert Get(c.db, x) + Get(c.redis, x) + Get(c.lost, x) == Get(c.total, x) + Get(map[], x);
    }
  }

  lemma DeleteKeeps(c: Counter, rows: Tally)
    requires Balanced(c, rows) && StillThere(c, rows)
    ensures Balanced(Delete(c, rows.Keys), map[])
  {
    var d := Delete(c, rows.Keys);
    forall x ensures Get(d.db, x) + Get(d.redis, x) + Get(d.lost, x) == Get(d.total, x) + Get(map[], x) {
      assert Get(c.db, x) + Get(c.redis, x) + Get(c.lost, x) == Get(c.total, x) + Get(rows, x);
    }
  }

  lemma ReadKeeps(c: Counter, rows: Tally)
    requires Balanced(c, map[]) && forall ip <- rows :: rows[ip] == Get(c.redis, ip)
    ensures Balanced(BeginRead(c), map[]) && StillThere(BeginRead(c), rows)
  {
    var d := BeginRead(c);
    forall x ensures Get(d.db, x) + Get(d.redis, x) + Get(d.lost, x) == Get(d.total, x) + Get(map[], x) {
      assert Get(c.db, x) + Get(c.redis, x) + Get(c.lost, x) == Get(c.total, x) + Get(map[], x);
    }
  }

  lemma StepKeepsInv(s: State, step: Step)
    requires Inv(s) && !step.Crash?
    ensures Inv(Next(s, step))
  {
    hide Balanced, StillThere, Increment, Write, Delete, AddAll;
    match step
    case CountRequest(ip, amount) =>
      var rows := if s.place.HaveCounts? || s.place.HaveRows? then s.place.counts else map[];
      IncrementKeeps(s.requests, ip, amount, map[], rows);
      if s.place.Written? { IncrementKeeps(s.requests, ip, amount, s.place.counts, s.place.counts); }
    case CountBytes(ip, amount) =>
      IncrementKeeps(s.bytes, ip, amount, map[], if s.place.HaveRows? then s.place.bytes else map[]);
      if s.place.Written? || s.place.CountsDeleted? {
        IncrementKeeps(s.bytes, ip, amount, s.place.bytes, s.place.bytes);
      }
    case Flush(writeOk) =>
      match s.place
      case Idle => ReadKeeps(s.requests, s.requests.redis);
      case HaveCounts(counts) =>
        ReadKeeps(s.bytes, ByteRows(counts, s.bytes.redis));
        RowsStillThere(s.requests, counts);
      case HaveRows(counts, bytes) =>
        WriteKeeps(s.requests, counts);
        WriteKeeps(s.bytes, bytes);
      case Written(counts, bytes) => DeleteKeeps(s.requests, counts);
      case CountsDeleted(bytes) => DeleteKeeps(s.bytes, bytes);
  }

  lemma RowsStillThere(c: Counter, counts: Tally)
    requires StillThere(c, counts)
    ensures StillThere(c, CountRows(counts))
  {
  }

  lemma {:induction false} RunKeepsInv(steps: seq<Step>)
    requires Crash !in steps
    ensures Inv(Run(Start, steps))
  {
    if steps != [] {
      RunKeepsInv(steps[..|steps| - 1]);
      assert steps[|steps| - 1] in steps;
      StepKeepsInv(Run(Start, steps[..|steps| - 1]), steps[|steps| - 1]);
    }
  }

  /** In every interleaving with one non-crashing flusher, between flushes each address's
      database total plus its Redis counter falls short of the truth by exactly what was lost. */
  lemma DrainConserves(steps: seq<Step>, ip: Address)
    requires Crash !in steps && Run(Start, steps).place.Idle?
    ensures var s := Run(Start, steps);
            && Get(s.requests.db, ip) + Get(s.requests.redis, ip)
               == Get(s.requests.total, ip) - Get(s.requests.lost, ip)
            && Get(s.bytes.db, ip) + Get(s.bytes.redis, ip) == Get(s.bytes.total, ip) - Get(s.bytes.lost, ip)
  {
    RunKeepsInv(steps);
  }

  /** Only deleting loses anything, and only what came in for a deleted address since the read. */
  lemma LostExactly(s: State, step: Step, ip: Address)
    ensures var t := Next(s, step);
            && Get(t.requests.lost, ip) - Get(s.requests.lost, ip)
               == (if step.Flush? && s.place.Written? && ip in s.place.counts then Get(s.requests.late, ip) else 0)
            && Get(t.bytes.lost, ip) - Get(s.bytes.lost, ip)
               == (if step.Flush? && s.place.CountsDeleted? && ip in s.place.bytes then Get(s.bytes.late, ip) else 0)
  {
    hide AddAll, Bump, CountRows, ByteRows, Delete, Get;
    if step.Flush? && s.place.Written? { DeleteLost(s.requests, s.place.counts.Keys, ip); }
    if step.Flush? && s.place.CountsDeleted? { DeleteLost(s.bytes, s.place.bytes.Keys, ip); }
  }

  lemma DeleteLost(c: Counter, fields: set<Address>, ip: Address)
    ensures Get(Delete(c, fields).lost, ip) == Get(c.lost, ip) + (if ip in fields then Get(c.late, ip) else 0)
  {
  }

  /** What a sequence of steps adds to one address: requests, or bytes. */
  function Requests(steps: seq<Step>, ip: Address): nat {
    if steps == [] then 0
    else
      var last := steps[|steps| - 1];
      Requests(steps[..|steps| - 1], ip) + (if last.CountRequest? && last.ip == ip then last.amount else 0)
  }

  function Bytes(steps: seq<Step>, ip: Address): nat {
    if steps == [] then 0
    else
      var last := steps[|steps| - 1];
      Bytes(steps[..|steps| - 1], ip) + (if last.CountBytes? && last.ip == ip then last.amount else 0)
  }

  ghost predicate OnlyCounting(steps: seq<Step>) {
    forall step <- steps :: step.CountRequest? || step.CountBytes?
  }

  lemma {:induction false} CountingStep(s: State, step: Step, ip: Address)
    requires step.CountRequest? || step.CountBytes?
    ensures var t := Next(s, step);
            && t.place == s.place && t.requests.lost == s.requests.lost && t.bytes.lost == s.bytes.lost
            && Get(t.requests.late, ip) == Get(s.requests.late, ip) + Requests([step], ip)
            && Get(t.bytes.late, ip) == Get(s.bytes.late, ip) + Bytes([step], ip)
            && Get(t.requests.total, ip) == Get(s.requests.total, ip) + Requests([step], ip)
            && Get(t.bytes.total, ip) == Get(s.bytes.total, ip) + Bytes([step], ip)
            && t.requests.db == s.requests.db && t.bytes.db == s.bytes.db
            && Get(t.requests.redis, ip) == Get(s.requests.redis, ip) + Requests([step], ip)
            && Get(t.bytes.redis, ip) == Get(s.bytes.redis, ip) + Bytes([step], ip)
  {
  }

  lemma {:induction false} Counting(s: State, steps: seq<Step>, ip: Address)
    requires OnlyCounting(steps)
    ensures var t := Run(s, steps);
            && t.place == s.place && t.requests.lost == s.requests.lost && t.bytes.lost == s.bytes.lost
            && Get(t.requests.late, ip) == Get(s.requests.late, ip) + Requests(steps, ip)
            && Get(t.bytes.late, ip) == Get(s.bytes.late, ip) + Bytes(steps, ip)
            && Get(t.requests.total, ip) == Get(s.requests.total, ip) + Requests(steps, ip)
            && Get(t.bytes.total, ip) == Get(s.bytes.total, ip) + Bytes(steps, ip)
            && t.requests.db == s.requests.db && t.bytes.db == s.bytes.db
            && Get(t.requests.redis, ip) == Get(s.requests.redis, ip) + Requests(steps, ip)
            && Get(t.bytes.redis, ip) == Get(s.bytes.redis, ip) + Bytes(steps, ip)
  {
    hide Next;
    if steps != [] {
      var before, last := steps[..|steps| - 1], steps[|steps| - 1];
      Counting(s, before, ip);
      assert last in steps;
      CountingStep(Run(s, before), last, ip);
      assert Requests([last], ip) == if last.CountRequest? && last.ip == ip then last.amount else 0;
      assert Bytes([last], ip) == if last.CountBytes? && last.ip == ip then last.amount else 0;
    }
  }

  /** The truth is what the run counted: over every run, crashes or not, the totals are the sums of
      the amounts counted. */
  lemma {:induction false} TotalsAreCounted(steps: seq<Step>, ip: Address)
    ensures Get(Run(Start, steps).requests.total, ip) == Requests(steps, ip)
    ensures Get(Run(Start, steps).bytes.total, ip) == Bytes(steps, ip)
  {
    hide Next;
    if steps != [] {
      var n := |steps| - 1;
      TotalsAreCounted(steps[..n], ip);
      TotalsStep(Run(Start, steps[..n]), steps[n], ip);
    }
  }

  lemma TotalsStep(s: State, step: Step, ip: Address)
    ensures Get(Next(s, step).requests.total, ip)
         == Get(s.requests.total, ip) + if step.CountRequest? && step.ip == ip then step.amount else 0
    ensures Get(Next(s, step).bytes.total, ip)
         == Get(s.bytes.total, ip) + if step.CountBytes? && step.ip == ip then step.amount else 0
  {
    hide AddAll, CountRows, ByteRows;
  }

  /** The state after one whole successful flush, with whatever nginx counted between its steps:
      after reading the counts (`a`), reading the bytes (`b`), writing (`c`) and deleting the
      counts (`d`). */
  function Pass(s: State, a: seq<Step>, b: seq<Step>, c: seq<Step>, d: seq<Step>): State {
    var read := Run(Next(s, Flush(true)), a);
    var paired := Run(Next(read, Flush(true)), b);
    var written := Run(Next(paired, Flush(true)), c);
    var halfDone := Run(Next(written, Flush(true)), d);
    Next(halfDone, Flush(true))
  }

  /** One flush loses, of the requests, exactly those counted for an address it had read between
      that read and their delete, and of the bytes likewise; every other address loses nothing. */
  lemma {:induction false} PassLoses(s: State, a: seq<Step>, b: seq<Step>, c: seq<Step>, d: seq<Step>, ip: Address)
    requires s.place.Idle? && CountRows(s.requests.redis) != map[]
    requires OnlyCounting(a) && OnlyCounting(b) && OnlyCounting(c) && OnlyCounting(d)
    ensures var t := Pass(s, a, b, c, d);
            var wasRead := ip in s.requests.redis && ip != "";
            && t.place.Idle?
            && Get(t.requests.lost, ip) - Get(s.requests.lost, ip)
               == (if wasRead then Requests(a, ip) + Requests(b, ip) + Requests(c, ip) else 0)
            && Get(t.bytes.lost, ip) - Get(s.bytes.lost, ip)
               == (if wasRead then Bytes(b, ip) + Bytes(c, ip) + Bytes(d, ip) else 0)
  {
    hide Run, Requests, Bytes, Increment, AddAll;
    var s1 := Next(s, Flush(true));
    Counting(s1, a, ip);
    var s2 := Next(Run(s1, a), Flush(true));
    Counting(s2, b, ip);
    var s3 := Next(Run(s2, b), Flush(true));
    Counting(s3, c, ip);
    var s4 := Next(Run(s3, c), Flush(true));
    Counting(s4, d, ip);
    LostExactly(s, Flush(true), ip);
    LostExactly(Run(s1, a), Flush(true), ip);
    LostExactly(Run(s2, b), Flush(true), ip);
    LostExactly(Run(s3, c), Flush(true), ip);
    LostExactly(Run(s4, d), Flush(true), ip);
  }

  /** The same flush adds to the database exactly the requests Redis held for an address when its
      counts were read and the bytes it held when they were; Redis keeps what came in after the
      deletes, and everything for an address that was not read. */
  lemma PassMoves(s: State, a: seq<Step>, b: seq<Step>, c: seq<Step>, d: seq<Step>, ip: Address)
    requires s.place.Idle? && CountRows(s.requests.redis) != map[]
    requires OnlyCounting(a) && OnlyCounting(b) && OnlyCounting(c) && OnlyCounting(d)
    ensures var t := Pass(s, a, b, c, d);
            if ip in s.requests.redis && ip != "" then
              && Get(t.requests.db, ip) == Get(s.requests.db, ip) + Get(s.requests.redis, ip)
              && Get(t.bytes.db, ip) == Get(s.bytes.db, ip) + Get(s.bytes.redis, ip) + Bytes(a, ip)
              && Get(t.requests.redis, ip) == Requests(d, ip) && ip !in t.bytes.redis
            else
              && Get(t.requests.db, ip) == Get(s.requests.db, ip) && Get(t.bytes.db, ip) == Get(s.bytes.db, ip)
              && Get(t.requests.redis, ip) == Get(s.requests.redis, ip)
                                              + Requests(a, ip) + Requests(b, ip) + Requests(c, ip) + Requests(d, ip)
              && Get(t.bytes.redis, ip) == Get(s.bytes.redis, ip)
                                           + Bytes(a, ip) + Bytes(b, ip) + Bytes(c, ip) + Bytes(d, ip)
  {
    hide Run, Requests, Bytes, Next, Get, CountRows, ByteRows;
    var s1 := Next(s, Flush(true));
    ReadStep(s);
    Counting(s1, a, ip);
    var s2 := Next(Run(s1, a), Flush(true));
    PairStep(Run(s1, a), ip);
    Counting(s2, b, ip);
    var s3 := Next(Run(s2, b), Flush(true));
    WriteStep(Run(s2, b), ip);
    Counting(s3, c, ip);
    var s4 := Next(Run(s3, c), Flush(true));
    DropCounts(Run(s3, c), ip);
    Counting(s4, d, ip);
    DropBytes(Run(s4, d), ip);
  }

  lemma ReadStep(s: State)
    requires s.place.Idle? && CountRows(s.requests.redis) != map[]
    ensures var t := Next(s, Flush(true));
            && t.place == HaveCounts(s.requests.redis) && t.bytes == s.bytes
            && t.requests.db == s.requests.db && t.requests.redis == s.requests.redis
  {
  }

  lemma PairStep(s: State, ip: Address)
    requires s.place.HaveCounts? && CountRows(s.place.counts) != map[]
    ensures var t, isRow := Next(s, Flush(true)), ip in s.place.counts && ip != "";
            && t.requests.db == s.requests.db && t.requests.redis == s.requests.redis
            && t.bytes.db == s.bytes.db && t.bytes.redis == s.bytes.redis && t.place.HaveRows?
            && (ip in t.place.counts <==> isRow) && (ip in t.place.bytes <==> isRow)
            && Get(t.place.counts, ip) == (if isRow then Get(s.place.counts, ip) else 0)
            && Get(t.place.bytes, ip) == (if isRow then Get(s.bytes.redis, ip) else 0)
  {
  }

  lemma WriteStep(s: State, ip: Address)
    requires s.place.HaveRows?
    ensures var t := Next(s, Flush(true));
            && t.place == Written(s.place.counts, s.place.bytes)
            && t.requests.redis == s.requests.redis && t.bytes.redis == s.bytes.redis
            && Get(t.requests.db, ip)
               == Get(s.requests.db, ip) + Get(s.place.counts, ip)
            && Get(t.bytes.db, ip) == Get(s.bytes.db, ip) + Get(s.place.bytes, ip)
  {
    WriteAdds(s.requests, s.place.counts, ip);
    WriteAdds(s.bytes, s.place.bytes, ip);
    hide Write, Get;
  }

  lemma WriteAdds(c: Counter, rows: Tally, ip: Address)
    ensures Write(c, rows).redis == c.redis
    ensures Get(Write(c, rows).db, ip) == Get(c.db, ip) + Get(rows, ip)
  {
  }

  lemma DropCounts(s: State, ip: Address)
    requires s.place.Written?
    ensures var t := Next(s, Flush(true));
            && t.place == CountsDeleted(s.place.bytes) && t.bytes == s.bytes && t.requests.db == s.requests.db
            && Get(t.requests.redis, ip) == if ip in s.place.counts then 0 else Get(s.requests.redis, ip)
  {
  }

  lemma DropBytes(s: State, ip: Address)
    requires s.place.CountsDeleted?
    ensures var t := Next(s, Flush(true));
            && t.requests == s.requests && t.bytes.db == s.bytes.db
            && (ip in t.bytes.redis <==> ip !in s.place.bytes && ip in s.bytes.redis)
            && (ip !in s.place.bytes ==> Get(t.bytes.redis, ip) == Get(s.bytes.redis, ip))
  {
  }

  /** An address that no flush reads loses nothing: the empty one never is. */
  lemma {:induction false} EmptyAddressKeepsAll(steps: seq<Step>)
    requires Crash !in steps
    ensures Get(Run(Start, steps).requests.lost, "") == 0 && Get(Run(Start, steps).bytes.lost, "") == 0
  {
    if steps != [] {
      var before := steps[..|steps| - 1];
      EmptyAddressKeepsAll(before);
      RunKeepsInv(before);
      LostExactly(Run(Start, before), steps[|steps| - 1], "");
    }
  }

  /** A counter the database knows nothing of, with everything still in Redis. */
  ghost predicate AllInRedis(c: Counter) { c.db == map[] && c.lost == map[] && c.redis == c.total }

  /** As long as every database write fails, and even if flushers die, no flush loses or moves
      anything: Redis holds every total. */
  lemma {:induction false} FailedWritesLoseNothing(steps: seq<Step>)
    requires forall step <- steps :: step.Flush? ==> !step.writeOk
    ensures var s := Run(Start, steps);
            AllInRedis(s.requests) && AllInRedis(s.bytes) && !s.place.Written? && !s.place.CountsDeleted?
  {
    if steps != [] {
      var before, last := steps[..|steps| - 1], steps[|steps| - 1];
      assert last in steps && forall step <- before :: step in steps;
      FailedWritesLoseNothing(before);
      FailedStepLosesNothing(Run(Start, before), last);
    }
  }

  lemma FailedStepLosesNothing(s: State, step: Step)
    requires AllInRedis(s.requests) && AllInRedis(s.bytes) && !s.place.Written? && !s.place.CountsDeleted?
    requires step.Flush? ==> !step.writeOk
    ensures var t := Next(s, step);
            AllInRedis(t.requests) && AllInRedis(t.bytes) && !t.place.Written? && !t.place.CountsDeleted?
  {
    hide AddAll, CountRows, ByteRows, Delete;
  }

  /** A flusher that dies counts twice exactly when it dies between the write and the delete,
      and then by exactly what it wrote. */
  lemma CrashCountsTwice(steps: seq<Step>, ip: Address)
    requires Crash !in steps
    ensures var before := Run(Start, steps);
            var s := Next(before, Crash);
            && Get(s.requests.db, ip) + Get(s.requests.redis, ip) + Get(s.requests.lost, ip)
               == Get(s.requests.total, ip) + (if before.place.Written? then Get(before.place.counts, ip) else 0)
            && Get(s.bytes.db, ip) + Get(s.bytes.redis, ip) + Get(s.bytes.lost, ip)
               == Get(s.bytes.total, ip)
                  + (if before.place.Written? || before.place.CountsDeleted? then Get(before.place.bytes, ip) else 0)
  {
    RunKeepsInv(steps);
  }
}
