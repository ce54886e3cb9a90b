/** The live-log rate limiter: a per-second cap with deferred skip reports. Times are reals. */
module RateLimiter {
  import opened Text

  datatype Limiter = Limiter(
    perSecond: nat, windowStart: real, inWindow: nat,
    skipped: nat, reportAt: Option<real>, lastReport: Option<real>)

  function New(perSecond: nat): Limiter { Limiter(perSecond, 0.0, 0, 0, None, None) }

  function Max(a: real, b: real): real { if a < b then b else a }

  /** The first moment at or after `due` at which another report may be made. */
  function DueAfterLast(due: real, lastReport: Option<real>): real {
    if lastReport.Some? then Max(due, lastReport.value + 1.0) else due
  }

  function Allow(l: Limiter, now: real): (Limiter, bool) {
    var l := if l.inWindow == 0 || now - l.windowStart >= 1.0 then l.(windowStart := now, inWindow := 0) else l;
    if l.inWindow < l.perSecond then (l.(inWindow := l.inWindow + 1), true)
    else
      var reportAt := if l.reportAt.None? then Some(DueAfterLast(l.windowStart + 1.0, l.lastReport)) else l.reportAt;
      (l.(reportAt := reportAt, skipped := l.skipped + 1), false)
  }

  function AddSkipped(l: Limiter, count: int, now: real): Limiter {
    if count <= 0 then l
    else
      var reportAt := if l.reportAt.None? then Some(DueAfterLast(now, l.lastReport)) else l.reportAt;
      l.(reportAt := reportAt, skipped := l.skipped + count)
  }

  function TakeSkipped(l: Limiter, now: real): (Limiter, nat) {
    if l.reportAt.None? || now < l.reportAt.value then (l, 0)
    else (l.(skipped := 0, reportAt := None, lastReport := Some(now)), l.skipped)
  }

  /** The limiter object of one session. */
  class RateLimiter {
    const perSecond: nat
    var windowStart: real
    var inWindow: nat
    var skipped: nat
    var reportAt: Option<real>
    var lastReport: Option<real>

    function Value(): Limiter
      reads this
    {
      Limiter(perSecond, windowStart, inWindow, skipped, reportAt, lastReport)
    }

    constructor (perSecond: nat)
      ensures Value() == New(perSecond)
    {
      this.perSecond := perSecond;
      windowStart, inWindow, skipped, reportAt, lastReport := 0.0, 0, 0, None, None;
    }

    method AllowLine(now: real) returns (ok: bool)
      modifies this
      ensures (Value(), ok) == Allow(old(Value()), now)
    {
      if inWindow == 0 || now - windowStart >= 1.0 {
        windowStart := now;
        inWindow := 0;
      }
      if inWindow < perSecond {
        inWindow := inWindow + 1;
        return true;
      }
      if reportAt.None? {
        var due := windowStart + 1.0;
        if lastReport.Some? { due := Max(due, lastReport.value + 1.0); }
        reportAt := Some(due);
      }
      skipped := skipped + 1;
      return false;
    }

    method AddRelayedSkips(count: int, now: real)
      modifies this
      ensures Value() == AddSkipped(old(Value()), count, now)
    {
      if count <= 0 { return; }
      skipped := skipped + count;
      if reportAt.None? {
        var due := now;
        if lastReport.Some? { due := Max(due, lastReport.value + 1.0); }
        reportAt := Some(due);
      }
    }

    method TakeReport(now: real) returns (count: nat)
      modifies this
      ensures (Value(), count) == TakeSkipped(old(Value()), now)
    {
      if reportAt.None? || now < reportAt.value { return 0; }
      count := skipped;
      skipped := 0;
      reportAt := None;
      lastReport := Some(now);
    }
  }

  // ----- one call, in plain terms -----

  /** `due` is the later of `first` and one second after the last report. */
  ghost predicate DueAt(due: Option<real>, first: real, lastReport: Option<real>) {
    && due.Some? && due.value >= first && (lastReport.Some? ==> due.value >= lastReport.value + 1.0)
    && (due.value == first || (lastReport.Some? && due.value == lastReport.value + 1.0))
  }

  /** A line is refused exactly when the window is less than a second old and full. An admitted line
      opens a window or fills the open one; a refused one is counted, and the first unreported one
      falls due when its window is over. */
  lemma AllowMeans(l: Limiter, now: real)
    requires l.perSecond >= 1
    ensures var (m, ok) := Allow(l, now);
            var open := l.inWindow > 0 && now - l.windowStart < 1.0;
            && (!ok <==> open && l.inWindow >= l.perSecond)
            && m.perSecond == l.perSecond && m.lastReport == l.lastReport
            && (ok ==> m.skipped == l.skipped && m.reportAt == l.reportAt)
            && (ok ==> if open then m.windowStart == l.windowStart && m.inWindow == l.inWindow + 1
                       else m.windowStart == now && m.inWindow == 1)
            && (!ok ==> m.windowStart == l.windowStart && m.inWindow == l.inWindow && m.skipped == l.skipped + 1)
            && (!ok ==> if l.reportAt.Some? then m.reportAt == l.reportAt
                        else DueAt(m.reportAt, l.windowStart + 1.0, l.lastReport))
  {
  }

  /** Relayed skips are added to the pending ones; the first unreported ones fall due at once. */
  lemma RelayMeans(l: Limiter, count: int, now: real)
    ensures var m := AddSkipped(l, count, now);
            if count <= 0 then m == l
            else && m == l.(skipped := l.skipped + count, reportAt := m.reportAt)
                 && if l.reportAt.Some? then m.reportAt == l.reportAt else DueAt(m.reportAt, now, l.lastReport)
  {
  }

  /** In every run, asking for a report gives everything pending once that is due, and nothing
      before; afterwards nothing is pending and the time is remembered. */
  lemma ReportMeans(perSecond: nat, calls: seq<Timed>, now: real)
    requires perSecond >= 1 && ClockForward(calls)
    ensures var l := Run(perSecond, calls).limiter;
            var (m, count) := TakeSkipped(l, now);
            if l.skipped > 0 && l.reportAt.Some? && now >= l.reportAt.value
            then count == l.skipped > 0 && m == l.(skipped := 0, reportAt := None, lastReport := Some(now))
            else count == 0 && m == l
  {
    hide Run;
    ReportsOfRun(perSecond, calls);
  }

  // ----- whole runs -----

  datatype Call = AllowCall | AddCall(count: int) | TakeCall

  datatype Timed = Timed(call: Call, now: real)

  datatype Report = Report(at: real, count: nat)

  /** Everything a run did: when lines were admitted, how many were refused or skipped by the
      relay, what was reported, since when a skip is unreported (`since`), and at which
      admitted line each one-second window opened (`opens`). */
  datatype Log = Log(
    limiter: Limiter, admitted: seq<real>, refused: nat, relayed: nat,
    reports: seq<Report>, since: Option<real>, opens: seq<nat>)

  function Step(g: Log, c: Timed): Log {
    match c.call
    case AllowCall =>
      var (l, ok) := Allow(g.limiter, c.now);
      if ok then
        g.(limiter := l, admitted := g.admitted + [c.now],
           opens := if l.inWindow == 1 then g.opens + [|g.admitted|] else g.opens)
      else
        g.(limiter := l, refused := g.refused + 1, since := if g.since.None? then Some(c.now) else g.since)
    case AddCall(count) =>
      var g := g.(limiter := AddSkipped(g.limiter, count, c.now));
      if count <= 0 then g
      else g.(relayed := g.relayed + count, since := if g.since.None? then Some(c.now) else g.since)
    case TakeCall =>
      var (l, count) := TakeSkipped(g.limiter, c.now);
      if count == 0 then g.(limiter := l)
      else g.(limiter := l, reports := g.reports + [Report(c.now, count)], since := None)
  }

  function Run(perSecond: nat, calls: seq<Timed>): Log {
    if calls == [] then Log(New(perSecond), [], 0, 0, [], None, [])
    else Step(Run(perSecond, calls[..|calls| - 1]), calls[|calls| - 1])
  }

  ghost predicate ClockForward(calls: seq<Timed>) {
    forall i, j | 0 <= i < j < |calls| :: calls[i].now <= calls[j].now
  }

  function Total(reports: seq<Report>): nat {
    if reports == [] then 0 else Total(reports[..|reports| - 1]) + reports[|reports| - 1].count
  }

  // ----- skips and reports -----

  /** Nothing is lost or invented: every skip is reported or pending. */
  ghost predicate Conserved(g: Log) { g.refused + g.relayed == Total(g.reports) + g.limiter.skipped }

  /** A report is pending exactly while a skip is unreported, and falls due within a second
      of the first unreported one, never sooner than a second after the last report. */
  ghost predicate Punctual(g: Log, now: real) {
    var l := g.limiter;
    && (l.reportAt.Some? <==> l.skipped > 0) && (g.since.Some? <==> l.skipped > 0)
    && (l.reportAt.Some? ==> l.reportAt.value <= g.since.value + 1.0)
    && (l.lastReport.Some? ==> l.lastReport.value <= now)
    && (l.reportAt.Some? && l.lastReport.Some? ==> l.reportAt.value >= l.lastReport.value + 1.0)
    && (l.lastReport.Some? <==> g.reports != [])
    && (g.reports != [] ==> l.lastReport.value == g.reports[|g.reports| - 1].at)
    && (l.inWindow > 0 ==> l.windowStart <= now)
  }

  ghost predicate Spaced(reports: seq<Report>) {
    forall i, j | 0 <= i < j < |reports| :: reports[j].at >= reports[i].at + 1.0
  }

  ghost predicate AllPositive(reports: seq<Report>) { forall r <- reports :: r.count > 0 }

  lemma TotalAppend(reports: seq<Report>, r: Report)
    ensures Total(reports + [r]) == Total(reports) + r.count
  {
    assert (reports + [r])[..|reports|] == reports;
  }

  lemma SpacedAppend(reports: seq<Report>, r: Report)
    requires Spaced(reports) && AllPositive(reports) && r.count > 0
    requires reports != [] ==> r.at >= reports[|reports| - 1].at + 1.0
    ensures Spaced(reports + [r]) && AllPositive(reports + [r])
    ensures Total(reports + [r]) == Total(reports) + r.count
  {
    hide Total;
    TotalAppend(reports, r);
    forall i | 0 <= i < |reports| ensures r.at >= reports[i].at + 1.0 {
      var last := |reports| - 1;
      if i < last { assert reports[last].at >= reports[i].at + 1.0; }
    }
  }

  lemma StepReports(g: Log, c: Timed, before: real)
    requires g.limiter.perSecond >= 1 && before <= c.now
    requires Conserved(g) && Punctual(g, before) && Spaced(g.reports) && AllPositive(g.reports)
    ensures var h := Step(g, c);
            && Conserved(h) && Punctual(h, c.now) && Spaced(h.reports) && AllPositive(h.reports)
            && h.limiter.perSecond == g.limiter.perSecond
  {
    hide Spaced, AllPositive, Total;
    if c.call.TakeCall? && TakeSkipped(g.limiter, c.now).1 > 0 {
      SpacedAppend(g.reports, Report(c.now, g.limiter.skipped));
    }
  }

  /** The clock before any call: any moment up to the first. */
  function ClockOf(calls: seq<Timed>): real { if calls == [] then 0.0 else calls[|calls| - 1].now }

  /** In every run: skips are conserved, reports are pending exactly when needed, on time,
      non-zero and at least one second apart. */
  lemma {:induction false} ReportsOfRun(perSecond: nat, calls: seq<Timed>)
    requires perSecond >= 1 && ClockForward(calls)
    ensures var g := Run(perSecond, calls);
            && g.limiter.perSecond == perSecond
            && Conserved(g) && Punctual(g, ClockOf(calls)) && Spaced(g.reports) && AllPositive(g.reports)
  {
    if calls != [] {
      hide Step, Conserved, Spaced, AllPositive;
      var before, last := calls[..|calls| - 1], calls[|calls| - 1];
      ReportsOfRun(perSecond, before);
      StepReports(Run(perSecond, before), last, if before == [] then last.now else ClockOf(before));
    }
  }

  // ----- the cap -----

  ghost predicate SortedUpTo(a: seq<real>, now: real) {
    (forall i, j | 0 <= i <= j < |a| :: a[i] <= a[j]) && (forall i | 0 <= i < |a| :: a[i] <= now)
  }

  /** Windows open at lines at least a second apart, with at most `n` lines from one to the next. */
  ghost predicate WindowChain(o: seq<nat>, a: seq<real>, n: nat) {
    && (forall w | 0 <= w < |o| :: o[w] < |a|)
    && (forall w | 0 < w < |o| :: o[w - 1] < o[w] <= o[w - 1] + n && a[o[w]] >= a[o[w - 1]] + 1.0)
    && (a == [] <==> o == []) && (o != [] ==> o[0] == 0)
  }

  /** The limiter's counters describe the last window. */
  ghost predicate CurrentWindow(l: Limiter, o: seq<nat>, a: seq<real>) {
    && l.inWindow <= l.perSecond && (o == [] <==> l.inWindow == 0)
    && (o != [] ==>
          && o[|o| - 1] < |a| && l.inWindow == |a| - o[|o| - 1]
          && l.windowStart == a[o[|o| - 1]]
          && (forall i | o[|o| - 1] <= i < |a| :: a[i] < l.windowStart + 1.0))
  }

  /** How the admitted lines fall into windows: each window opens with a line at its start,
      holds at most `perSecond` lines, and opens at least a second after the one before. */
  ghost predicate Windowed(g: Log, now: real) {
    && SortedUpTo(g.admitted, now) && WindowChain(g.opens, g.admitted, g.limiter.perSecond)
    && CurrentWindow(g.limiter, g.opens, g.admitted)
  }

  lemma SortedAppend(a: seq<real>, before: real, now: real)
    requires SortedUpTo(a, before) && before <= now
    ensures SortedUpTo(a, now) && SortedUpTo(a + [now], now)
  {
  }

  lemma ChainKept(o: seq<nat>, a: seq<real>, n: nat, x: real)
    requires WindowChain(o, a, n) && o != []
    ensures WindowChain(o, a + [x], n)
  {
  }

  lemma ChainOpened(l: Limiter, o: seq<nat>, a: seq<real>, x: real)
    requires WindowChain(o, a, l.perSecond) && CurrentWindow(l, o, a)
    requires o != [] ==> x - l.windowStart >= 1.0
    ensures WindowChain(o + [|a|], a + [x], l.perSecond)
  {
    if o != [] { ChainKept(o, a, l.perSecond, x); }
    var o', a' := o + [|a|], a + [x];
    forall w | 0 < w < |o'| ensures o'[w - 1] < o'[w] <= o'[w - 1] + l.perSecond && a'[o'[w]] >= a'[o'[w - 1]] + 1.0 {
      if w < |o| { assert o[w - 1] < o[w] <= o[w - 1] + l.perSecond; }
    }
  }

  lemma StepWindowed(g: Log, c: Timed, before: real)
    requires g.limiter.perSecond >= 1 && before <= c.now && Windowed(g, before)
    ensures Windowed(Step(g, c), c.now) && Step(g, c).limiter.perSecond == g.limiter.perSecond
  {
    hide SortedUpTo, WindowChain;
    SortedAppend(g.admitted, before, c.now);
    if c.call.AllowCall? {
      if g.opens != [] { ChainKept(g.opens, g.admitted, g.limiter.perSecond, c.now); }
      if g.limiter.inWindow == 0 || c.now - g.limiter.windowStart >= 1.0 {
        ChainOpened(g.limiter, g.opens, g.admitted, c.now);
      }
    }
  }

  lemma NothingWindowed(perSecond: nat, now: real)
    ensures Windowed(Run(perSecond, []), now)
  {
  }

  lemma {:induction false} RunWindowed(perSecond: nat, calls: seq<Timed>)
    requires perSecond >= 1 && ClockForward(calls)
    ensures Run(perSecond, calls).limiter.perSecond == perSecond
    ensures Windowed(Run(perSecond, calls), ClockOf(calls))
  {
    hide Windowed, Step;
    if calls == [] {
      NothingWindowed(perSecond, 0.0);
    } else {
      var before, last := calls[..|calls| - 1], calls[|calls| - 1];
      RunWindowed(perSecond, before);
      if before == [] { NothingWindowed(perSecond, last.now); }
      StepWindowed(Run(perSecond, before), last, if before == [] then last.now else ClockOf(before));
    }
  }

  lemma {:induction false} WindowOf(g: Log, now: real, k: nat, w: nat) returns (v: nat)
    requires Windowed(g, now) && w < |g.opens| && k < |g.admitted|
    requires k < (if w + 1 < |g.opens| then g.opens[w + 1] else |g.admitted|)
    ensures v <= w && g.opens[v] <= k && k < (if v + 1 < |g.opens| then g.opens[v + 1] else |g.admitted|)
    decreases w
  {
    if g.opens[w] <= k { v := w; } else { v := WindowOf(g, now, k, w - 1); }
  }

  /** `2 * perSecond` consecutive admitted lines always span at least a second. */
  lemma ConsecutiveSpan(g: Log, now: real, k: nat)
    requires g.limiter.perSecond >= 1 && Windowed(g, now)
    requires k + 2 * g.limiter.perSecond - 1 < |g.admitted|
    ensures g.admitted[k + 2 * g.limiter.perSecond - 1] >= g.admitted[k] + 1.0
  {
    var n, a, o := g.limiter.perSecond, g.admitted, g.opens;
    var j := k + 2 * n - 1;
    var v := WindowOf(g, now, k, |o| - 1);
    assert v + 1 < |o|;
    assert o[v] < o[v + 1] <= o[v] + n && a[o[v + 1]] >= a[o[v]] + 1.0;
    if k == o[v] {
      assert a[o[v + 1]] <= a[j];
    } else {
      assert v + 2 < |o|;
      assert o[v + 1] < o[v + 2] <= o[v + 1] + n && a[o[v + 2]] >= a[o[v + 1]] + 1.0;
      assert a[o[v + 2]] <= a[j] && a[k] <= a[o[v + 1]];
    }
  }

  ghost function InSecond(times: seq<real>, t: real): set<int> {
    set k | 0 <= k < |times| && t <= times[k] < t + 1.0
  }

  ghost function Indices(lo: int, n: nat): (s: set<int>)
    ensures forall k :: k in s <==> lo <= k < lo + n
    ensures |s| == n
  {
    if n == 0 then {} else Indices(lo, n - 1) + {lo + n - 1}
  }

  lemma SubsetSize(a: set<int>, b: set<int>)
    requires a <= b
    ensures |a| <= |b|
  {
    assert |b| == |a| + |b - a| by { assert b == a + (b - a); }
  }

  /** In a sorted sequence, the first index whose value is not below `t`. */
  lemma {:induction false} FirstFrom(times: seq<real>, t: real, now: real) returns (lo: nat)
    requires SortedUpTo(times, now)
    ensures lo <= |times| && forall k | 0 <= k < |times| :: k < lo <==> times[k] < t
  {
    if times == [] || times[|times| - 1] < t {
      lo := |times|;
    } else {
      lo := FirstFrom(times[..|times| - 1], t, now);
    }
  }

  /** No half-open one-second interval of any run admits more than `2 * perSecond - 1` lines. */
  lemma SlidingBound(perSecond: nat, calls: seq<Timed>, t: real)
    requires perSecond >= 1 && ClockForward(calls)
    ensures |InSecond(Run(perSecond, calls).admitted, t)| <= 2 * perSecond - 1
  {
    hide Run, WindowChain, CurrentWindow;
    var g, now, m := Run(perSecond, calls), ClockOf(calls), 2 * perSecond - 1;
    RunWindowed(perSecond, calls);
    var a := g.admitted;
    var lo := FirstFrom(a, t, now);
    if lo + m < |a| { ConsecutiveSpan(g, now, lo); }
    forall k | lo + m <= k < |a| ensures a[k] >= t + 1.0 {
      assert a[lo + m] <= a[k];
    }
    assert InSecond(a, t) <= Indices(lo, m);
    SubsetSize(InSecond(a, t), Indices(lo, m));
  }

  /** A line is refused only when `perSecond` lines were admitted in the second before it. */
  lemma RefusedOnlyWhenFull(perSecond: nat, calls: seq<Timed>, now: real)
    requires perSecond >= 1 && ClockForward(calls) && (calls != [] ==> ClockOf(calls) <= now)
    requires !Allow(Run(perSecond, calls).limiter, now).1
    ensures var a := Run(perSecond, calls).admitted;
            && |a| >= perSecond
            && forall i | |a| - perSecond <= i < |a| :: now - 1.0 < a[i] <= now
  {
    RunWindowed(perSecond, calls);
    var g := Run(perSecond, calls);
    var open := g.opens[|g.opens| - 1];
    assert |g.admitted| - perSecond == open;
    forall i | open <= i < |g.admitted| ensures now - 1.0 < g.admitted[i] <= now {
      assert g.admitted[open] <= g.admitted[i];
    }
  }

  // ----- the bound is attained -----

  function Repeat<T>(n: nat, x: T): seq<T> { seq(n, _ => x) }

  /** `n` lines arriving at once. */
  function Burst(n: nat, now: real): seq<Timed> { Repeat(n, Timed(AllowCall, now)) }

  /** One line, `n - 1` more half a second later, `n` when the second is over. */
  function WorstCase(n: nat): seq<Timed>
    requires n >= 1
  {
    Burst(1, 0.0) + Burst(n - 1, 0.5) + Burst(n, 1.0)
  }

  lemma RepeatSnoc<T>(n: nat, x: T)
    requires n >= 1
    ensures Repeat(n, x) == Repeat(n - 1, x) + [x]
  {
  }

  lemma RunSnoc(perSecond: nat, calls: seq<Timed>, c: Timed)
    ensures Run(perSecond, calls + [c]) == Step(Run(perSecond, calls), c)
  {
    assert (calls + [c])[..|calls|] == calls;
  }

  lemma {:induction false} BurstAdmitted(perSecond: nat, calls: seq<Timed>, n: nat, now: real)
    requires var l := Run(perSecond, calls).limiter;
             l.perSecond == perSecond && 0 < l.inWindow && now - l.windowStart < 1.0 && l.inWindow + n <= perSecond
    ensures var g, h := Run(perSecond, calls), Run(perSecond, calls + Burst(n, now));
            && h.limiter == g.limiter.(inWindow := g.limiter.inWindow + n)
            && h.admitted == g.admitted + Repeat(n, now)
  {
    hide Run;
    if n == 0 {
      assert calls + Burst(0, now) == calls && Repeat(0, now) == [];
    } else {
      BurstAdmitted(perSecond, calls, n - 1, now);
      RepeatSnoc(n, Timed(AllowCall, now));
      RepeatSnoc(n, now);
      assert calls + Burst(n, now) == calls + Burst(n - 1, now) + [Timed(AllowCall, now)];
      RunSnoc(perSecond, calls + Burst(n - 1, now), Timed(AllowCall, now));
    }
  }

  lemma FirstOfWindow(perSecond: nat, calls: seq<Timed>, now: real)
    requires perSecond >= 1
    requires var l := Run(perSecond, calls).limiter;
             l.perSecond == perSecond && (l.inWindow == 0 || now - l.windowStart >= 1.0)
    ensures var g, h := Run(perSecond, calls), Run(perSecond, calls + Burst(1, now));
            && h.limiter == g.limiter.(windowStart := now, inWindow := 1)
            && h.admitted == g.admitted + [now]
  {
    hide Run;
    assert Burst(1, now) == [Timed(AllowCall, now)];
    RunSnoc(perSecond, calls, Timed(AllowCall, now));
  }

  lemma WorstCaseAdmitted(n: nat)
    requires n >= 1
    ensures Run(n, WorstCase(n)).admitted == [0.0] + Repeat(n - 1, 0.5) + Repeat(n, 1.0)
  {
    StartOfRun(n);
    hide Run, Repeat;
    var one := [] + Burst(1, 0.0);
    FirstOfWindow(n, [], 0.0);
    BurstAdmitted(n, one, n - 1, 0.5);
    var two := one + Burst(n - 1, 0.5);
    FirstOfWindow(n, two, 1.0);
    var three := two + Burst(1, 1.0);
    BurstAdmitted(n, three, n - 1, 1.0);
    RepeatCons(n, 1.0);
    RepeatCons(n, Timed(AllowCall, 1.0));
    RepeatOne(Timed(AllowCall, 1.0));
    assert WorstCase(n) == three + Burst(n - 1, 1.0);
    assert [0.0] + Repeat(n - 1, 0.5) + [1.0] + Repeat(n - 1, 1.0)
        == [0.0] + Repeat(n - 1, 0.5) + ([1.0] + Repeat(n - 1, 1.0));
  }

  lemma RepeatCons<T>(n: nat, x: T)
    requires n >= 1
    ensures Repeat(n, x) == [x] + Repeat(n - 1, x)
  {
  }

  lemma RepeatOne<T>(x: T)
    ensures Repeat(1, x) == [x]
  {
  }

  lemma StartOfRun(n: nat)
    ensures Run(n, []) == Log(New(n), [], 0, 0, [], None, [])
  {
  }

  /** For every cap there is a run that admits `2 * perSecond - 1` lines within one second,
      so the bound above cannot be improved: the cap holds for every one-second interval
      only when it is one. */
  lemma SlidingBoundAttained(perSecond: nat)
    requires perSecond >= 1
    ensures ClockForward(WorstCase(perSecond))
    ensures |InSecond(Run(perSecond, WorstCase(perSecond)).admitted, 0.5)| == 2 * perSecond - 1
  {
    hide Run;
    WorstCaseAdmitted(perSecond);
    WorstCaseInSecond(perSecond, Run(perSecond, WorstCase(perSecond)).admitted);
  }

  /** Every run keeps the cap in every half-open second if and only if the cap is one line. */
  lemma CapHoldsOnlyForOne(perSecond: nat)
    requires perSecond >= 1
    ensures perSecond == 1
       <==> forall calls, t :: ClockForward(calls) ==> |InSecond(Run(perSecond, calls).admitted, t)| <= perSecond
  {
    hide Run, InSecond, ClockForward;
    if perSecond == 1 {
      forall calls, t | ClockForward(calls) ensures |InSecond(Run(perSecond, calls).admitted, t)| <= perSecond {
        SlidingBound(perSecond, calls, t);
      }
    } else {
      SlidingBoundAttained(perSecond);
      assert !(|InSecond(Run(perSecond, WorstCase(perSecond)).admitted, 0.5)| <= perSecond);
    }
  }

  lemma WorstCaseInSecond(n: nat, a: seq<real>)
    requires n >= 1 && a == [0.0] + Repeat(n - 1, 0.5) + Repeat(n, 1.0)
    ensures |InSecond(a, 0.5)| == 2 * n - 1
  {
    assert forall k | 0 <= k < 2 * n :: a[k] == if k == 0 then 0.0 else if k < n then 0.5 else 1.0;
    assert InSecond(a, 0.5) == Indices(1, 2 * n - 1);
  }
}
