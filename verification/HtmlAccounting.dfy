/** Every required tag is accounted for exactly once, and a silent report means the
    required tags alone are properly nested. */
module HtmlAccounting {
  import opened Ordering
  import opened Text
  import opened HtmlCheck

  // ----- projections of events and faults -----

  function StartOf(e: Event): seq<Tag> { if e.StartTag? && IsRequired(e.tag.name) then [e.tag] else [] }

  function EndOf(e: Event): seq<Tag> { if e.EndTag? && IsRequired(e.tag.name) then [e.tag] else [] }

  /** The required start tags and the required end tags, in order. */
  function StartsOf(events: seq<Event>): seq<Tag> {
    if events == [] then [] else StartsOf(events[..|events| - 1]) + StartOf(events[|events| - 1])
  }

  function EndsOf(events: seq<Event>): seq<Tag> {
    if events == [] then [] else EndsOf(events[..|events| - 1]) + EndOf(events[|events| - 1])
  }

  /** The elements a list of faults complains about. */
  function ReportedOpens(problems: seq<Problem>): seq<Tag> {
    if problems == [] then []
    else ReportedOpens(problems[..|problems| - 1])
         + (var q := problems[|problems| - 1]; if q.ClosesNothing? then [] else [q.open])
  }

  /** The end tags a list of faults complains about. */
  function ReportedEnds(problems: seq<Problem>): seq<Tag> {
    if problems == [] then []
    else ReportedEnds(problems[..|problems| - 1])
         + (var q := problems[|problems| - 1]; if q.ClosesNothing? then [q.end] else [])
  }

  function OpensOf(matched: seq<Match>): seq<Tag> {
    if matched == [] then [] else OpensOf(matched[..|matched| - 1]) + [matched[|matched| - 1].open]
  }

  function ClosersOf(matched: seq<Match>): seq<Tag> {
    if matched == [] then [] else ClosersOf(matched[..|matched| - 1]) + [matched[|matched| - 1].end]
  }

  lemma {:induction false} RequiredConcat(a: seq<Tag>, b: seq<Tag>)
    ensures RequiredOf(a + b) == RequiredOf(a) + RequiredOf(b)
  {
    if b == [] {
      assert a + b == a;
    } else {
      RequiredConcat(a, b[..|b| - 1]);
      assert (a + b)[..|a + b| - 1] == a + b[..|b| - 1];
    }
  }

  lemma RequiredOne(tag: Tag)
    ensures RequiredOf([tag]) == if IsRequired(tag.name) then [tag] else []
  {
    assert [tag][..0] == [];
  }

  lemma MatchedAppend(matched: seq<Match>, m: Match)
    ensures OpensOf(matched + [m]) == OpensOf(matched) + [m.open]
    ensures ClosersOf(matched + [m]) == ClosersOf(matched) + [m.end]
  {
    assert (matched + [m])[..|matched|] == matched;
  }

  lemma {:induction false} ReportedConcat(a: seq<Problem>, b: seq<Problem>)
    ensures ReportedOpens(a + b) == ReportedOpens(a) + ReportedOpens(b)
    ensures ReportedEnds(a + b) == ReportedEnds(a) + ReportedEnds(b)
  {
    hide ReportedOpens, ReportedEnds;
    if b == [] {
      assert a + b == a;
      NothingReported();
      assert ReportedOpens(a) + [] == ReportedOpens(a) && ReportedEnds(a) + [] == ReportedEnds(a);
    } else {
      var n, q := |b| - 1, b[|b| - 1];
      ReportedConcat(a, b[..n]);
      assert a + b == (a + b[..n]) + [q] && b == b[..n] + [q];
      ReportedSnoc(a + b[..n], q);
      ReportedSnoc(b[..n], q);
    }
  }

  lemma NothingReported()
    ensures ReportedOpens([]) == [] && ReportedEnds([]) == []
  {
  }

  lemma ReportedSnoc(problems: seq<Problem>, q: Problem)
    ensures ReportedOpens(problems + [q]) == ReportedOpens(problems) + (if q.ClosesNothing? then [] else [q.open])
    ensures ReportedEnds(problems + [q]) == ReportedEnds(problems) + (if q.ClosesNothing? then [q.end] else [])
  {
    assert (problems + [q])[..|problems|] == problems;
  }

  ghost predicate NoVoid(stack: seq<Tag>) { forall t <- stack :: !IsVoid(t.name) }

  /** The elements reported as still open are exactly the required ones among those closed. */
  lemma {:induction false} StillOpenReported(opens: seq<Tag>, closer: Tag)
    requires NoVoid(opens)
    ensures ReportedOpens(StillOpenIn(opens, closer)) == RequiredOf(opens)
    ensures ReportedEnds(StillOpenIn(opens, closer)) == []
  {
    if opens != [] {
      var rest, last := opens[..|opens| - 1], opens[|opens| - 1];
      assert last in opens;
      StillOpenReported(rest, closer);
      ReportedConcat(StillOpenIn(rest, closer), if IsOptional(last.name) then [] else [StillOpen(last, closer)]);
    }
  }

  lemma {:induction false} NeverClosedReported(opens: seq<Tag>)
    requires NoVoid(opens)
    ensures ReportedOpens(NeverClosedIn(opens)) == RequiredOf(opens)
    ensures ReportedEnds(NeverClosedIn(opens)) == []
  {
    if opens != [] {
      var rest, last := opens[..|opens| - 1], opens[|opens| - 1];
      assert last in opens;
      NeverClosedReported(rest);
      ReportedConcat(NeverClosedIn(rest), if IsOptional(last.name) then [] else [NeverClosed(last)]);
    }
  }

  /** The faults at an end tag: one for each required element it closes on the way, in order, each
      naming that element and this end tag; and at the end, one for each still open. */
  lemma {:induction false} FaultsName(opens: seq<Tag>, closer: Tag)
    requires NoVoid(opens)
    ensures |StillOpenIn(opens, closer)| == |RequiredOf(opens)| == |NeverClosedIn(opens)|
    ensures forall k :: 0 <= k < |RequiredOf(opens)| ==>
              && StillOpenIn(opens, closer)[k] == StillOpen(RequiredOf(opens)[k], closer)
              && NeverClosedIn(opens)[k] == NeverClosed(RequiredOf(opens)[k])
  {
    if opens != [] {
      assert opens[|opens| - 1] in opens && forall t <- opens[..|opens| - 1] :: t in opens;
      FaultsName(opens[..|opens| - 1], closer);
    }
  }

  lemma {:induction false} StackHasNoVoid(events: seq<Event>)
    ensures NoVoid(Run(Initial, events).stack)
  {
    if events != [] { StackHasNoVoid(events[..|events| - 1]); }
  }

  // ----- accounting -----

  /** Where the required start tags of a run are: still open, closed by their own end tag, or reported. */
  ghost predicate StartsBalance(p: Parser, starts: seq<Tag>) {
    multiset(starts) == multiset(RequiredOf(p.stack)) + multiset(RequiredOf(OpensOf(p.matched)))
                        + multiset(ReportedOpens(p.problems))
  }

  ghost predicate EndsBalance(p: Parser, ends: seq<Tag>) {
    multiset(ends) == multiset(RequiredOf(ClosersOf(p.matched))) + multiset(ReportedEnds(p.problems))
  }

  /** An end tag that closes an element moves the elements above it to the faults, losing none. */
  lemma CloseBalance(p: Parser, depth: nat, tag: Tag, starts: seq<Tag>, ends: seq<Tag>)
    requires NoVoid(p.stack) && depth < |p.stack| && depth == FindOpen(p.stack, tag.name)
    requires StartsBalance(p, starts) && EndsBalance(p, ends)
    ensures StartsBalance(OnEnd(p, tag), starts)
    ensures EndsBalance(OnEnd(p, tag), ends + RequiredOf([tag]))
  {
    hide RequiredOf, ReportedOpens, ReportedEnds, OpensOf, ClosersOf, StillOpenIn, FindOpen, IsVoid, IsOptional;
    var below, it, above := p.stack[..depth], p.stack[depth], p.stack[depth + 1..];
    assert p.stack == below + [it] + above;
    RequiredConcat(below + [it], above);
    RequiredConcat(below, [it]);
    StillOpenReported(above, tag);
    ReportedConcat(p.problems, StillOpenIn(above, tag));
    MatchedAppend(p.matched, Match(it, tag));
    RequiredConcat(OpensOf(p.matched), [it]);
    RequiredConcat(ClosersOf(p.matched), [tag]);
  }

  lemma ClosesNothingReported(tag: Tag)
    ensures ReportedOpens([ClosesNothing(tag)]) == [] && ReportedEnds([ClosesNothing(tag)]) == [tag]
  {
    assert [ClosesNothing(tag)][..0] == [];
  }

  lemma EndBalance(p: Parser, tag: Tag, starts: seq<Tag>, ends: seq<Tag>)
    requires NoVoid(p.stack) && !IsVoid(tag.name)
    requires StartsBalance(p, starts) && EndsBalance(p, ends)
    ensures StartsBalance(OnEnd(p, tag), starts)
    ensures EndsBalance(OnEnd(p, tag), ends + RequiredOf([tag]))
  {
    hide RequiredOf, ReportedOpens, ReportedEnds, OpensOf, ClosersOf, IsVoid, IsOptional;
    var depth := FindOpen(p.stack, tag.name);
    RequiredOne(tag);
    if depth >= 0 {
      CloseBalance(p, depth, tag, starts, ends);
    } else if !IsOptional(tag.name) {
      ReportedConcat(p.problems, [ClosesNothing(tag)]);
      ClosesNothingReported(tag);
    }
  }

  lemma StepBalance(p: Parser, e: Event, starts: seq<Tag>, ends: seq<Tag>)
    requires NoVoid(p.stack) && StartsBalance(p, starts) && EndsBalance(p, ends)
    ensures StartsBalance(Step(p, e), starts + StartOf(e)) && EndsBalance(Step(p, e), ends + EndOf(e))
  {
    hide RequiredOf, ReportedOpens, ReportedEnds, OpensOf, ClosersOf, IsVoid, IsOptional, OnEnd;
    RequiredOne(e.tag);
    assert starts + [] == starts && ends + [] == ends;
    if !IsVoid(e.tag.name) {
      if e.StartTag? { RequiredConcat(p.stack, [e.tag]); }
      if e.EndTag? { EndBalance(p, e.tag, starts, ends); }
    }
  }

  lemma NothingToBalance()
    ensures StartsBalance(Initial, []) && EndsBalance(Initial, [])
  {
  }

  lemma {:induction false} RunBalance(events: seq<Event>)
    ensures var p := Run(Initial, events); StartsBalance(p, StartsOf(events)) && EndsBalance(p, EndsOf(events))
  {
    hide StartsBalance, EndsBalance, Step, StartOf, EndOf;
    if events == [] {
      NothingToBalance();
    } else {
      var before := events[..|events| - 1];
      RunBalance(before);
      StackHasNoVoid(before);
      StepBalance(Run(Initial, before), events[|events| - 1], StartsOf(before), EndsOf(before));
    }
  }

  /** Over every tag sequence: each required start tag is closed by exactly one end tag or
      reported exactly once, and each required end tag closes exactly one element or is
      reported as closing nothing. */
  lemma Accounting(events: seq<Event>)
    ensures var matched, report := Run(Initial, events).matched, Report(events);
            && multiset(StartsOf(events)) == multiset(RequiredOf(OpensOf(matched))) + multiset(ReportedOpens(report))
            && multiset(EndsOf(events)) == multiset(RequiredOf(ClosersOf(matched))) + multiset(ReportedEnds(report))
  {
    hide RequiredOf, ReportedOpens, ReportedEnds, OpensOf, ClosersOf, Run, StartsOf, EndsOf, NeverClosedIn, Report;
    var p := Run(Initial, events);
    RunBalance(events);
    StackHasNoVoid(events);
    NeverClosedReported(p.stack);
    ReportedConcat(p.problems, NeverClosedIn(p.stack));
    ReportIsFound(events);
    PermutedReports(Report(events), Found(events));
  }

  /** What is reported, counted with repetitions, does not depend on the order of the report. */
  lemma {:induction false} PermutedReports(a: seq<Problem>, b: seq<Problem>)
    requires multiset(a) == multiset(b)
    ensures multiset(ReportedOpens(a)) == multiset(ReportedOpens(b))
    ensures multiset(ReportedEnds(a)) == multiset(ReportedEnds(b))
    decreases |a|
  {
    hide ReportedOpens, ReportedEnds;
    assert |multiset(a)| == |a| && |multiset(b)| == |b|;
    if a != [] {
      var n := |a| - 1;
      SameMembers(a, b);
      assert a[n] in b;
      var k :| 0 <= k < |b| && b[k] == a[n];
      var front, back := b[..k], b[k + 1..];
      TakenOut(a, b, k);
      PermutedReports(a[..n], front + back);
      assert a == a[..n] + [a[n]] && b == front + ([b[k]] + back);
      ReportedConcat(a[..n], [a[n]]);
      ReportedConcat(front, [b[k]] + back);
      ReportedConcat([b[k]], back);
      ReportedConcat(front, back);
    }
  }

  lemma TakenOut<T>(a: seq<T>, b: seq<T>, k: nat)
    requires multiset(a) == multiset(b) && k < |b| && a != [] && a[|a| - 1] == b[k]
    ensures multiset(a[..|a| - 1]) == multiset(b[..k] + b[k + 1..])
  {
    Without(a, |a| - 1);
    Without(b, k);
    assert a[..|a| - 1] + a[|a| - 1 + 1..] == a[..|a| - 1];
  }

  lemma Without<T>(s: seq<T>, k: nat)
    requires k < |s|
    ensures multiset(s[..k] + s[k + 1..]) == multiset(s) - multiset{s[k]}
  {
    var front, back, x := s[..k], s[k + 1..], s[k];
    assert s == front + [x] + back;
    assert multiset(s) == multiset(front) + multiset{x} + multiset(back);
  }

  /** Each recorded match pairs an element with an end tag of its own name. */
  lemma {:induction false} MatchesAgree(events: seq<Event>)
    ensures forall m <- Run(Initial, events).matched :: m.open.name == m.end.name
  {
    if events != [] { MatchesAgree(events[..|events| - 1]); }
  }

  // ----- a silent report means proper nesting -----

  /** The strict nesting automaton over the required tags alone: an end tag must close the
      innermost open element. The result is the open elements, or `None` after a violation. */
  function NestStep(open: Option<seq<Tag>>, e: Event): Option<seq<Tag>> {
    if open.None? || e.StartEndTag? || !IsRequired(e.tag.name) then open
    else if e.StartTag? then Some(open.value + [e.tag])
    else
      var top := |open.value| - 1;
      if top >= 0 && open.value[top].name == e.tag.name then Some(open.value[..top]) else None
  }

  function Nest(events: seq<Event>): Option<seq<Tag>> {
    if events == [] then Some([]) else NestStep(Nest(events[..|events| - 1]), events[|events| - 1])
  }

  lemma FaultsStay(p: Parser, e: Event)
    ensures |p.problems| <= |Step(p, e).problems|
  {
  }

  lemma {:induction false} NoneStillOpen(opens: seq<Tag>, closer: Tag)
    requires StillOpenIn(opens, closer) == []
    ensures RequiredOf(opens) == [] && forall t <- opens :: IsOptional(t.name)
  {
    if opens != [] { NoneStillOpen(opens[..|opens| - 1], closer); }
  }

  lemma {:induction false} NoneNeverClosed(opens: seq<Tag>)
    requires NeverClosedIn(opens) == []
    ensures RequiredOf(opens) == [] && forall t <- opens :: IsOptional(t.name)
  {
    if opens != [] { NoneNeverClosed(opens[..|opens| - 1]); }
  }

  /** An end tag that causes no fault closes the innermost required element, or none. */
  lemma SilentEnd(p: Parser, tag: Tag)
    requires !IsVoid(tag.name) && OnEnd(p, tag).problems == []
    ensures var open, after := RequiredOf(p.stack), RequiredOf(OnEnd(p, tag).stack);
            if IsRequired(tag.name)
            then open != [] && open[|open| - 1].name == tag.name && after == open[..|open| - 1]
            else after == open
  {
    hide RequiredOf, StillOpenIn, FindOpen, IsVoid, IsOptional;
    var depth := FindOpen(p.stack, tag.name);
    if depth >= 0 {
      var below, it, above := p.stack[..depth], p.stack[depth], p.stack[depth + 1..];
      assert p.stack == below + [it] + above;
      RequiredConcat(below + [it], above);
      RequiredConcat(below, [it]);
      NoneStillOpen(above, tag);
      RequiredOne(it);
    }
  }

  lemma SilentStep(p: Parser, e: Event)
    requires Step(p, e).problems == []
    ensures NestStep(Some(RequiredOf(p.stack)), e) == Some(RequiredOf(Step(p, e).stack))
  {
    hide RequiredOf, IsVoid, IsOptional, OnEnd;
    RequiredConcat(p.stack, [e.tag]);
    RequiredOne(e.tag);
    assert RequiredOf(p.stack) + [] == RequiredOf(p.stack);
    if e.EndTag? && !IsVoid(e.tag.name) { SilentEnd(p, e.tag); }
  }

  lemma {:induction false} SilentRunNests(events: seq<Event>)
    requires Run(Initial, events).problems == []
    ensures Nest(events) == Some(RequiredOf(Run(Initial, events).stack))
  {
    if events != [] {
      hide RequiredOf, NestStep, Step;
      var p, e := Run(Initial, events[..|events| - 1]), events[|events| - 1];
      FaultsStay(p, e);
      SilentRunNests(events[..|events| - 1]);
      SilentStep(p, e);
    }
  }

  /** No report implies that the required tags alone form a properly nested word. */
  lemma SilentMeansNested(events: seq<Event>)
    requires Report(events) == []
    ensures Nest(events) == Some([])
  {
    ReportIsFound(events);
    SilentRunNests(events);
    NoneNeverClosed(Run(Initial, events).stack);
  }
}
