/** The document a model edits: `replace_lines` stages, `apply` splices bottom-up,
    `grep` shows hits with merged context windows. */
module PageTools {
  import Ordering
  import opened Text
  import opened PageEdits
  import opened GrepWindows

  datatype RangeProblem = BelowOne | StartAfterEnd | PastEnd

  datatype Reply =
    | BadRange(problem: RangeProblem)
    | Overlapping(start: int, end: int)
    | Revised(before: string)
    | Staged(before: string, count: nat)

  function CheckRange(total: nat, start: int, end: int): (problem: Option<RangeProblem>)
    ensures problem.None? <==> 1 <= start <= end <= total
  {
    if start < 1 || end < 1 then Some(BelowOne)
    else if start > end then Some(StartAfterEnd)
    else if end > total then Some(PastEnd)
    else None
  }

  // ----- sorting by start line -----

  /** In document order, with no two edits sharing a line. */
  ghost predicate Ascending(s: seq<StagedEdit>) {
    forall i, j :: 0 <= i < j < |s| ==> s[i].end < s[j].start
  }

  function InsertByStart(e: StagedEdit, s: seq<StagedEdit>): (r: seq<StagedEdit>)
    ensures multiset(r) == multiset(s) + multiset{e}
  {
    if s == [] || e.start <= s[0].start then [e] + s
    else
      assert s == [s[0]] + s[1..];
      [s[0]] + InsertByStart(e, s[1..])
  }

  function SortByStart(s: seq<StagedEdit>): (r: seq<StagedEdit>)
    ensures multiset(r) == multiset(s)
  {
    if s == [] then []
    else
      assert s == [s[0]] + s[1..];
      InsertByStart(s[0], SortByStart(s[1..]))
  }

  lemma {:induction false} InsertAscending(n: nat, e: StagedEdit, s: seq<StagedEdit>)
    requires Ascending(s) && InBounds(n, e)
    requires forall f <- s :: InBounds(n, f) && !Overlap(e, f)
    ensures Ascending(InsertByStart(e, s))
  {
    if s != [] {
      assert s[0] in s;
      if e.start > s[0].start {
        InsertAscending(n, e, s[1..]);
        var r := InsertByStart(e, s[1..]);
        Ordering.SameMembers(r, s[1..] + [e]);
        forall k | 0 <= k < |r| ensures s[0].end < r[k].start {
          assert r[k] in r;
        }
      } else {
        forall k | 0 <= k < |s| ensures e.end < s[k].start {
          assert s[k] in s;
        }
      }
    }
  }

  /** Sorting by start puts disjoint edits in document order. */
  lemma {:induction false} SortAscending(n: nat, s: seq<StagedEdit>)
    requires Stageable(n, s)
    ensures Ascending(SortByStart(s))
  {
    if s != [] {
      var rest := s[1..];
      SortAscending(n, rest);
      Ordering.SameMembers(SortByStart(rest), rest);
      forall f <- SortByStart(rest) ensures InBounds(n, f) && !Overlap(s[0], f) {
        var k :| 0 <= k < |rest| && rest[k] == f;
        assert f in s && !Overlap(s[0], s[k + 1]);
      }
      assert s[0] in s;
      InsertAscending(n, s[0], SortByStart(rest));
    }
  }

  // ----- staging -----

  /** Staged ranges lie in the document, never overlap, and echo the lines they replace. */
  ghost predicate StagedOn(lines: seq<string>, staged: seq<StagedEdit>) {
    && Stageable(|lines|, staged)
    && (forall e <- staged :: e.before == Join(lines[e.start - 1..e.end], '\n'))
  }

  lemma ReviseKeeps(lines: seq<string>, staged: seq<StagedEdit>, k: nat, edit: StagedEdit)
    requires StagedOn(lines, staged) && k < |staged|
    requires edit.start == staged[k].start && edit.end == staged[k].end
    requires 1 <= edit.start <= edit.end <= |lines| && edit.before == Join(lines[edit.start - 1..edit.end], '\n')
    ensures StagedOn(lines, staged[k := edit])
    ensures forall j | 0 <= j < |staged| && j != k :: !Overlap(edit, staged[j])
  {
    hide Join;
    var revised := staged[k := edit];
    assert staged[k] in staged;
    forall j | 0 <= j < |staged| && j != k ensures !Overlap(edit, staged[j]) {
      if j < k { assert !Overlap(staged[j], staged[k]); } else { assert !Overlap(staged[k], staged[j]); }
    }
    forall i, j | 0 <= i < j < |revised| ensures !Overlap(revised[i], revised[j]) {
      assert !Overlap(staged[i], staged[j]);
    }
    forall e <- revised ensures e == edit || e in staged {}
  }

  /** When a staged edit overlaps a range it does not equal, no staged edit equals it. */
  lemma OverlapIsNotSame(lines: seq<string>, staged: seq<StagedEdit>, k: nat, start: int, end: int)
    requires StagedOn(lines, staged) && k < |staged|
    requires start <= staged[k].end && staged[k].start <= end
    requires staged[k].start != start || staged[k].end != end
    ensures forall i | 0 <= i < |staged| :: staged[i].start != start || staged[i].end != end
  {
    forall i | 0 <= i < |staged| && i != k ensures staged[i].start != start || staged[i].end != end {
      if i < k { assert !Overlap(staged[i], staged[k]); } else { assert !Overlap(staged[k], staged[i]); }
    }
  }

  lemma AppendKeeps(lines: seq<string>, staged: seq<StagedEdit>, edit: StagedEdit)
    requires StagedOn(lines, staged) && InBounds(|lines|, edit)
    requires edit.before == Join(lines[edit.start - 1..edit.end], '\n')
    requires forall j | 0 <= j < |staged| :: !Overlap(staged[j], edit)
    ensures StagedOn(lines, staged + [edit])
  {
    forall e <- staged + [edit] ensures e == edit || e in staged {}
  }

  // ----- applying -----

  /** Splicing `e` into a document already edited from line `b` down edits it from `e.start` down. */
  lemma BottomUpStep(lines: seq<string>, edits: seq<StagedEdit>, e: StagedEdit, b: int)
    requires Span(|lines|, edits, e.end + 1, b) && e in edits
    requires Span(|lines|, edits, b, |lines| + 1)
    requires forall f <- edits :: !(e.end + 1 <= f.start < b)
    ensures Span(|lines|, edits, e.start, e.end + 1)
    ensures lines[..e.start - 1] + Replacement(e) + (lines[..b - 1] + Splice(lines, edits, b, |lines| + 1))[e.end..]
         == lines[..e.start - 1] + Splice(lines, edits, e.start, |lines| + 1)
  {
    hide Splice, EditAt, Replacement, Stageable, Boundary;
    SpliceAtEdit(lines, edits, e);
    SpliceGap(lines, edits, e.end + 1, b);
    SpliceConcat(lines, edits, e.end + 1, b, |lines| + 1);
    CutDocument(lines, Splice(lines, edits, b, |lines| + 1), e.end, b);
  }

  lemma CutDocument(lines: seq<string>, tail: seq<string>, end: int, b: int)
    requires 0 <= end < b <= |lines| + 1
    ensures (lines[..b - 1] + tail)[end..] == lines[end..b - 1] + tail
  {
  }

  /** Between an edit and the next one in document order, no edit starts. */
  lemma NextBoundaryBelow(n: nat, edits: seq<StagedEdit>, ordered: seq<StagedEdit>, k: int, b: int)
    requires Stageable(n, edits) && Ascending(ordered) && -1 <= k < |ordered|
    requires forall x :: x in edits <==> x in ordered
    requires b == if k + 1 < |ordered| then ordered[k + 1].start else n + 1
    ensures var i := if k >= 0 then ordered[k].end + 1 else 1;
            && Span(n, edits, i, b) && Span(n, edits, b, n + 1)
            && (forall f <- edits :: !(i <= f.start < b))
    ensures k >= 0 ==> ordered[k] in edits
  {
    forall f <- edits ensures InBounds(n, f) && exists j :: 0 <= j < |ordered| && ordered[j] == f {
      assert f in ordered;
    }
    if k >= 0 { assert ordered[k] in ordered; EditEndsAreBoundaries(n, edits, ordered[k]); }
    if k + 1 < |ordered| { assert ordered[k + 1] in ordered; EditEndsAreBoundaries(n, edits, ordered[k + 1]); }
  }

  lemma NothingStaged(lines: seq<string>)
    ensures Edited(lines, []) == lines
  {
    SpliceGap(lines, [], 1, |lines| + 1);
  }

  /** The loop of `apply`: splicing from the last edit up gives the one document that
      is the simultaneous replacement on the original numbering. */
  method SpliceBottomUp(lines: seq<string>, ghost staged: seq<StagedEdit>, ordered: seq<StagedEdit>)
    returns (current: seq<string>)
    requires Stageable(|lines|, staged) && Ascending(ordered)
    requires forall x :: x in staged <==> x in ordered
    ensures current == Edited(lines, staged)
    ensures Simultaneous(lines, staged, current)
  {
    hide Splice, Shift, Simultaneous, Split, Replacement, Boundary, Stageable, Ascending;
    current := lines;
    ghost var b := |lines| + 1;
    NextBoundaryBelow(|lines|, staged, ordered, |ordered| - 1, b);
    SpliceGap(lines, staged, b, b);
    for k := |ordered| downto 0
      invariant b == if k < |ordered| then ordered[k].start else |lines| + 1
      invariant Span(|lines|, staged, b, |lines| + 1)
      invariant current == lines[..b - 1] + Splice(lines, staged, b, |lines| + 1)
    {
      var e := ordered[k];
      NextBoundaryBelow(|lines|, staged, ordered, k, b);
      BottomUpStep(lines, staged, e, b);
      assert current[..e.start - 1] == lines[..e.start - 1];
      current := current[..e.start - 1] + Replacement(e) + current[e.end..];
      b := e.start;
    }
    NextBoundaryBelow(|lines|, staged, ordered, -1, b);
    SpliceGap(lines, staged, 1, b);
    SpliceConcat(lines, staged, 1, b, |lines| + 1);
    EditedIsSimultaneous(lines, staged);
  }

  // ----- the document -----

  class EditDocument {
    const original: string
    const lines: seq<string>
    var staged: seq<StagedEdit>

    ghost predicate Valid()
      reads this
    {
      && lines == Split(original, '\n')
      && StagedOn(lines, staged)
    }

    constructor (html: string)
      ensures Valid() && original == html && staged == []
    {
      original := html;
      lines := Split(html, '\n');
      staged := [];
    }

    /** Whether an edit of exactly these lines is staged, and whether any overlaps them. */
    ghost predicate HasSame(start: int, end: int)
      reads this
    {
      exists k :: 0 <= k < |staged| && staged[k].start == start && staged[k].end == end
    }

    ghost predicate HasOverlap(start: int, end: int)
      reads this
    {
      exists k :: 0 <= k < |staged| && start <= staged[k].end && staged[k].start <= end
    }

    method ReplaceLines(start: int, end: int, text: string) returns (reply: Reply)
      requires Valid()
      modifies this`staged
      ensures Valid()
      ensures reply.BadRange? <==> !(1 <= start <= end <= |lines|)
      ensures reply.BadRange? ==> Some(reply.problem) == CheckRange(|lines|, start, end) && staged == old(staged)
      ensures reply.Revised? <==> !reply.BadRange? && old(HasSame(start, end))
      ensures reply.Overlapping? <==> !reply.BadRange? && !old(HasSame(start, end)) && old(HasOverlap(start, end))
      ensures reply.Overlapping? ==> staged == old(staged)
      ensures reply.Overlapping? ==>
                exists e <- staged :: e.start == reply.start && e.end == reply.end && start <= e.end && e.start <= end
      ensures reply.Revised? || reply.Staged? ==> reply.before == Join(lines[start - 1..end], '\n')
      ensures reply.Revised? ==>
                exists k :: 0 <= k < |old(staged)| && old(staged)[k].start == start && old(staged)[k].end == end
                            && staged == old(staged)[k := StagedEdit(start, end, reply.before, text)]
      ensures reply.Staged? ==>
                staged == old(staged) + [StagedEdit(start, end, reply.before, text)] && reply.count == |staged|
    {
      hide StagedOn, Join, Split;
      var problem := CheckRange(|lines|, start, end);
      if problem.Some? { return BadRange(problem.value); }
      var before := Join(lines[start - 1..end], '\n');
      var edit := StagedEdit(start, end, before, text);
      for k := 0 to |staged|
        invariant staged == old(staged)
        invariant forall i | 0 <= i < k :: !(start <= staged[i].end && staged[i].start <= end)
      {
        var other := staged[k];
        if other.start == start && other.end == end {
          ReviseKeeps(lines, staged, k, edit);
          staged := staged[k := edit];
          return Revised(before);
        }
        if start <= other.end && other.start <= end {
          assert other in staged;
          OverlapIsNotSame(lines, staged, k, start, end);
          return Overlapping(other.start, other.end);
        }
      }
      AppendKeeps(lines, staged, edit);
      staged := staged + [edit];
      return Staged(before, |staged|);
    }

    /** The edited document, and the edits in document order. */
    method Apply() returns (html: string, ordered: seq<StagedEdit>)
      requires Valid()
      ensures html == Join(Edited(lines, staged), '\n')
      ensures staged == [] ==> html == original
      ensures multiset(ordered) == multiset(staged)
      ensures Ascending(ordered)
    {
      hide Splice, Split, Join, Ascending, Stageable;
      ordered := SortByStart(staged);
      SortAscending(|lines|, staged);
      Ordering.SameMembers(ordered, staged);
      var current := SpliceBottomUp(lines, staged, ordered);
      NothingStaged(lines);
      html := Join(current, '\n');
    }

    /** Literal search, with context. */
    method Grep(pattern: string, ignoreCase: bool, lower: string -> string) returns (reply: GrepReply)
      ensures reply.EmptyPattern? <==> pattern == ""
      ensures pattern != "" ==>
                var hits := Hits(lines, Matcher(pattern, ignoreCase, lower));
                var shown := hits[..Min(|hits|, 50)];
                && (reply.NoMatches? <==> hits == [])
                && (hits != [] ==>
                      reply.Found? && reply.total == |hits| && ContextWindows(reply.windows, shown, |lines|))
    {
      hide ContextWindows, Hits, Matcher;
      if pattern == "" { return EmptyPattern; }
      var hits := Hits(lines, Matcher(pattern, ignoreCase, lower));
      if hits == [] { return NoMatches; }
      var shown := hits[..Min(|hits|, MAX_GREP_MATCHES)];
      var windows: seq<Window> := [];
      NoWindows(|lines|);
      for k := 0 to |shown|
        invariant ContextWindows(windows, shown[..k], |lines|)
      {
        var start, end := Max(1, shown[k] - GREP_CONTEXT_LINES), Min(|lines|, shown[k] + GREP_CONTEXT_LINES);
        assert shown[k] in hits && forall h <- shown[..k] :: h in hits && h < shown[k];
        MergeKeepsWindows(windows, shown[..k], shown[k], |lines|);
        assert shown[..k + 1] == shown[..k] + [shown[k]];
        if windows != [] && start <= windows[|windows| - 1].last + 1 {
          var last := windows[|windows| - 1];
          windows := windows[|windows| - 1 := Window(last.first, Max(last.last, end))];
        } else {
          windows := windows + [Window(start, end)];
        }
      }
      assert shown[..|shown|] == shown;
      return Found(|hits|, windows);
    }
  }
}
