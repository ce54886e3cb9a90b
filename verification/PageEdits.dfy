/** What it means to apply staged line edits at once, on the numbering of the
    original document, and why the order of applying them does not matter. */
module PageEdits {
  import opened Text

  /** One pending replacement; `start` and `end` are 1-based and inclusive. */
  datatype StagedEdit = StagedEdit(start: int, end: int, before: string, after: string)

  function Replacement(e: StagedEdit): seq<string> {
    if e.after == "" then [] else Split(e.after, '\n')
  }

  function Width(e: StagedEdit): int { e.end - e.start + 1 }

  predicate InBounds(n: nat, e: StagedEdit) { 1 <= e.start <= e.end <= n }

  predicate Overlap(a: StagedEdit, b: StagedEdit) { a.start <= b.end && b.start <= a.end }

  ghost predicate Disjoint(edits: seq<StagedEdit>) {
    forall i, j :: 0 <= i < j < |edits| ==> !Overlap(edits[i], edits[j])
  }

  ghost predicate Stageable(n: nat, edits: seq<StagedEdit>) {
    (forall e <- edits :: InBounds(n, e)) && Disjoint(edits)
  }

  /** Line `i` does not lie inside an edit, except as its first line. */
  ghost predicate Boundary(edits: seq<StagedEdit>, i: int) {
    forall e <- edits :: !(e.start < i <= e.end)
  }

  /** No edit touches line `i`. */
  ghost predicate Untouched(edits: seq<StagedEdit>, i: int) {
    forall e <- edits :: !(e.start <= i <= e.end)
  }

  /** The edit that starts at line `i`, if there is one. */
  ghost function EditAt(edits: seq<StagedEdit>, i: int): (r: Option<StagedEdit>)
    ensures r.Some? ==> r.value in edits && r.value.start == i
    ensures r.None? ==> forall e <- edits :: e.start != i
  {
    if e :| e in edits && e.start == i then Some(e) else None
  }

  lemma DisjointMembers(n: nat, edits: seq<StagedEdit>, e: StagedEdit, f: StagedEdit)
    requires Stageable(n, edits) && e in edits && f in edits && e != f
    ensures !Overlap(e, f)
  {
    var i :| 0 <= i < |edits| && edits[i] == e;
    var j :| 0 <= j < |edits| && edits[j] == f;
    if i < j { assert !Overlap(edits[i], edits[j]); } else { assert !Overlap(edits[j], edits[i]); }
  }

  lemma EditAtIsTheOne(n: nat, edits: seq<StagedEdit>, e: StagedEdit)
    requires Stageable(n, edits) && e in edits
    ensures EditAt(edits, e.start) == Some(e)
  {
    var f := EditAt(edits, e.start).value;
    assert InBounds(n, e) && InBounds(n, f);
    if f != e { DisjointMembers(n, edits, e, f); }
  }

  /** The lines at both ends of an edit are boundaries of every disjoint set holding it. */
  lemma EditEndsAreBoundaries(n: nat, edits: seq<StagedEdit>, e: StagedEdit)
    requires Stageable(n, edits) && e in edits
    ensures Boundary(edits, e.start) && Boundary(edits, e.end + 1)
  {
    forall f <- edits
      ensures !(f.start < e.start <= f.end) && !(f.start < e.end + 1 <= f.end)
    {
      if f != e { DisjointMembers(n, edits, e, f); }
    }
  }

  /** Two boundaries of the document, in order, around staged edits. */
  ghost predicate Span(n: nat, edits: seq<StagedEdit>, i: int, j: int) {
    1 <= i <= j <= n + 1 && Stageable(n, edits) && Boundary(edits, i) && Boundary(edits, j)
  }

  /** The boundary after `i`: past the edit that starts there, or the next line. */
  ghost function Next(edits: seq<StagedEdit>, i: int): int {
    match EditAt(edits, i) case Some(e) => e.end + 1 case None => i + 1
  }

  /** What stands for the lines from `i` to `Next(edits, i)` once edits are applied. */
  ghost function Emit(lines: seq<string>, edits: seq<StagedEdit>, i: int): seq<string>
    requires 1 <= i <= |lines|
  {
    match EditAt(edits, i) case Some(e) => Replacement(e) case None => [lines[i - 1]]
  }

  lemma NextSpan(n: nat, edits: seq<StagedEdit>, i: int, j: int)
    requires Span(n, edits, i, j) && i < j
    ensures i < Next(edits, i) && Span(n, edits, Next(edits, i), j)
  {
    match EditAt(edits, i)
    case Some(e) => EditEndsAreBoundaries(n, edits, e);
    case None =>
  }

  /** Lines `i` up to but not including `j` of the edited document: a walk over the
      original numbering that emits each line, or the whole replacement of the edit
      that starts there. */
  ghost function Splice(lines: seq<string>, edits: seq<StagedEdit>, i: int, j: int): seq<string>
    requires Span(|lines|, edits, i, j)
    decreases j - i
  {
    if i == j then [] else
      NextSpan(|lines|, edits, i, j);
      Emit(lines, edits, i) + Splice(lines, edits, Next(edits, i), j)
  }

  ghost function Edited(lines: seq<string>, edits: seq<StagedEdit>): seq<string>
    requires Stageable(|lines|, edits)
  {
    Splice(lines, edits, 1, |lines| + 1)
  }

  /** Lines over which no edit starts are copied. */
  lemma {:induction false} SpliceGap(lines: seq<string>, edits: seq<StagedEdit>, i: int, j: int)
    requires Span(|lines|, edits, i, j)
    requires forall e <- edits :: !(i <= e.start < j)
    ensures Splice(lines, edits, i, j) == lines[i - 1..j - 1]
    decreases j - i
  {
    if i < j {
      NextSpan(|lines|, edits, i, j);
      SpliceGap(lines, edits, i + 1, j);
      assert lines[i - 1..j - 1] == [lines[i - 1]] + lines[i..j - 1];
    }
  }

  lemma {:induction false} SpliceConcat(lines: seq<string>, edits: seq<StagedEdit>, i: int, j: int, k: int)
    requires Span(|lines|, edits, i, j) && Span(|lines|, edits, j, k)
    ensures Splice(lines, edits, i, k) == Splice(lines, edits, i, j) + Splice(lines, edits, j, k)
    decreases j - i
  {
    hide Stageable, Boundary, Emit, Next, EditAt;
    if i < j {
      NextSpan(|lines|, edits, i, j);
      var m := Next(edits, i);
      SpliceConcat(lines, edits, m, j, k);
      assert Emit(lines, edits, i) + (Splice(lines, edits, m, j) + Splice(lines, edits, j, k))
          == (Emit(lines, edits, i) + Splice(lines, edits, m, j)) + Splice(lines, edits, j, k);
    }
  }

  lemma SpliceAtEdit(lines: seq<string>, edits: seq<StagedEdit>, e: StagedEdit)
    requires Stageable(|lines|, edits) && e in edits
    ensures Span(|lines|, edits, e.start, e.end + 1)
    ensures Splice(lines, edits, e.start, |lines| + 1)
         == Replacement(e) + Splice(lines, edits, e.end + 1, |lines| + 1)
  {
    hide Splice, Span, Stageable, Boundary, EditAt, Next, Emit, Replacement;
    EditSpans(|lines|, edits, e);
    EditStep(lines, edits, e);
    SpliceStep(lines, edits, e.start, |lines| + 1);
  }

  lemma EditStep(lines: seq<string>, edits: seq<StagedEdit>, e: StagedEdit)
    requires Stageable(|lines|, edits) && e in edits
    ensures 1 <= e.start <= |lines|
    ensures Next(edits, e.start) == e.end + 1 && Emit(lines, edits, e.start) == Replacement(e)
  {
    hide Boundary, EditAt, Replacement;
    EditAtIsTheOne(|lines|, edits, e);
  }

  lemma EditSpans(n: nat, edits: seq<StagedEdit>, e: StagedEdit)
    requires Stageable(n, edits) && e in edits
    ensures 1 <= e.start <= n && e.start <= e.end
    ensures Span(n, edits, e.start, e.end + 1) && Span(n, edits, e.start, n + 1) && Span(n, edits, e.end + 1, n + 1)
  {
    EditEndsAreBoundaries(n, edits, e);
  }

  lemma SpliceStep(lines: seq<string>, edits: seq<StagedEdit>, i: int, j: int)
    requires 1 <= i <= |lines| && i < j && Span(|lines|, edits, i, j)
    ensures Span(|lines|, edits, Next(edits, i), j)
    ensures Splice(lines, edits, i, j) == Emit(lines, edits, i) + Splice(lines, edits, Next(edits, i), j)
  {
    hide Stageable, Boundary, Next, EditAt, Emit;
    NextSpan(|lines|, edits, i, j);
  }

  /** How far the edits starting in `[i, j)` move the lines below them. */
  function Shift(edits: seq<StagedEdit>, i: int, j: int): int {
    if edits == [] then 0
    else (if i <= edits[0].start < j then |Replacement(edits[0])| - Width(edits[0]) else 0)
         + Shift(edits[1..], i, j)
  }

  lemma {:induction false} ShiftConcat(edits: seq<StagedEdit>, i: int, j: int, k: int)
    requires i <= j <= k
    ensures Shift(edits, i, k) == Shift(edits, i, j) + Shift(edits, j, k)
  {
    if edits != [] { ShiftConcat(edits[1..], i, j, k); }
  }

  lemma {:induction false} ShiftNone(edits: seq<StagedEdit>, i: int, j: int)
    requires forall e <- edits :: !(i <= e.start < j)
    ensures Shift(edits, i, j) == 0
  {
    if edits != [] {
      assert edits[0] in edits;
      ShiftNone(edits[1..], i, j);
    }
  }

  lemma {:induction false} ShiftOne(n: nat, edits: seq<StagedEdit>, e: StagedEdit)
    requires Stageable(n, edits) && e in edits
    ensures Shift(edits, e.start, e.end + 1) == |Replacement(e)| - Width(e)
  {
    var rest := edits[1..];
    assert edits[0] in edits && InBounds(n, e) && InBounds(n, edits[0]);
    if edits[0] == e {
      forall f <- rest ensures !(e.start <= f.start < e.end + 1) {
        var k :| 0 <= k < |rest| && rest[k] == f;
        assert !Overlap(edits[0], edits[k + 1]);
        assert InBounds(n, f);
      }
      ShiftNone(rest, e.start, e.end + 1);
    } else {
      assert e in rest;
      DisjointMembers(n, edits, e, edits[0]);
      ShiftOne(n, rest, e);
    }
  }

  lemma ShiftNext(n: nat, edits: seq<StagedEdit>, lines: seq<string>, i: int)
    requires Stageable(n, edits) && n == |lines| && 1 <= i <= n
    ensures Shift(edits, i, Next(edits, i)) == |Emit(lines, edits, i)| - (Next(edits, i) - i)
  {
    match EditAt(edits, i)
    case Some(e) => ShiftOne(n, edits, e);
    case None => ShiftNone(edits, i, i + 1);
  }

  lemma {:induction false} SpliceLength(lines: seq<string>, edits: seq<StagedEdit>, i: int, j: int)
    requires Span(|lines|, edits, i, j)
    ensures |Splice(lines, edits, i, j)| == j - i + Shift(edits, i, j)
    decreases j - i
  {
    if i == j {
      ShiftNone(edits, i, j);
    } else {
      NextSpan(|lines|, edits, i, j);
      SpliceLength(lines, edits, Next(edits, i), j);
      ShiftNext(|lines|, edits, lines, i);
      ShiftConcat(edits, i, Next(edits, i), j);
    }
  }

  /** Where original line `i` ends up (0-based) once every edit above it is applied. */
  function Position(edits: seq<StagedEdit>, i: int): int { i - 1 + Shift(edits, 1, i) }

  /** The declarative meaning of applying all edits at once: every untouched line is
      found at its shifted position, every edit's replacement stands at the shifted
      position of its first line, and nothing else is in the result. */
  ghost predicate Simultaneous(lines: seq<string>, edits: seq<StagedEdit>, out: seq<string>) {
    && |out| == |lines| + Shift(edits, 1, |lines| + 1)
    && (forall i | 1 <= i <= |lines| && Untouched(edits, i) ::
          0 <= Position(edits, i) < |out| && out[Position(edits, i)] == lines[i - 1])
    && (forall e <- edits ::
          0 <= Position(edits, e.start) <= Position(edits, e.start) + |Replacement(e)| <= |out|
          && out[Position(edits, e.start)..Position(edits, e.start) + |Replacement(e)|] == Replacement(e))
  }

  lemma EditedAt(lines: seq<string>, edits: seq<StagedEdit>, i: int)
    requires Stageable(|lines|, edits) && 1 <= i <= |lines| + 1 && Boundary(edits, i)
    ensures 0 <= Position(edits, i) <= |Edited(lines, edits)|
    ensures Edited(lines, edits)[Position(edits, i)..] == Splice(lines, edits, i, |lines| + 1)
    ensures |Edited(lines, edits)| == |lines| + Shift(edits, 1, |lines| + 1)
  {
    SpliceConcat(lines, edits, 1, i, |lines| + 1);
    SpliceLength(lines, edits, 1, i);
    SpliceLength(lines, edits, 1, |lines| + 1);
  }

  /** What `Emit` gives for a boundary stands at its position in the edited document. */
  lemma EditedEmit(lines: seq<string>, edits: seq<StagedEdit>, i: int)
    requires Stageable(|lines|, edits) && 1 <= i <= |lines| && Boundary(edits, i)
    ensures var p, out, emitted := Position(edits, i), Edited(lines, edits), Emit(lines, edits, i);
            0 <= p <= p + |emitted| <= |out| && out[p..p + |emitted|] == emitted
  {
    EditedAt(lines, edits, i);
    NextSpan(|lines|, edits, i, |lines| + 1);
    var p, out, emitted := Position(edits, i), Edited(lines, edits), Emit(lines, edits, i);
    assert out[p..] == emitted + Splice(lines, edits, Next(edits, i), |lines| + 1);
    assert out[p..p + |emitted|] == out[p..][..|emitted|];
  }

  /** What stands in the edited document for a staged edit, from its place to that of the line below
      it, is the staged text cut into lines; there are no lines exactly when the text is empty. */
  lemma EditsReadBack(lines: seq<string>, edits: seq<StagedEdit>, e: StagedEdit) returns (count: nat)
    requires Stageable(|lines|, edits) && e in edits
    ensures Position(edits, e.end + 1) == Position(edits, e.start) + count
    ensures var p, out := Position(edits, e.start), Edited(lines, edits);
            && 0 <= p <= p + count <= |out|
            && Join(out[p..p + count], '\n') == e.after
            && (forall line <- out[p..p + count] :: '\n' !in line)
            && (count == 0 <==> e.after == "")
  {
    hide Splice, Span, Stageable, Boundary, EditAt, Next, Emit, Shift, Position, Edited;
    EditSpans(|lines|, edits, e);
    EditStep(lines, edits, e);
    EditBoundary(|lines|, edits, e);
    EditedEmit(lines, edits, e.start);
    PositionNext(lines, edits, e.start);
    count := |Replacement(e)|;
  }

  lemma EditBoundary(n: nat, edits: seq<StagedEdit>, e: StagedEdit)
    requires Stageable(n, edits) && e in edits
    ensures Boundary(edits, e.start)
  {
    EditEndsAreBoundaries(n, edits, e);
  }

  lemma EditedIsSimultaneous(lines: seq<string>, edits: seq<StagedEdit>)
    requires Stageable(|lines|, edits)
    ensures Simultaneous(lines, edits, Edited(lines, edits))
  {
    hide Shift, Splice;
    var out := Edited(lines, edits);
    SpliceLength(lines, edits, 1, |lines| + 1);
    forall i | 1 <= i <= |lines| && Untouched(edits, i)
      ensures 0 <= Position(edits, i) < |out| && out[Position(edits, i)] == lines[i - 1]
    {
      var p := Position(edits, i);
      EditedEmit(lines, edits, i);
      assert out[p] == out[p..p + 1][0];
    }
    forall e <- edits
      ensures var p := Position(edits, e.start);
              && 0 <= p <= p + |Replacement(e)| <= |out|
              && out[p..p + |Replacement(e)|] == Replacement(e)
    {
      EditEndsAreBoundaries(|lines|, edits, e);
      EditAtIsTheOne(|lines|, edits, e);
      EditedEmit(lines, edits, e.start);
    }
  }

  lemma PositionNext(lines: seq<string>, edits: seq<StagedEdit>, i: int)
    requires Stageable(|lines|, edits) && 1 <= i <= |lines| && Boundary(edits, i)
    ensures Position(edits, Next(edits, i)) == Position(edits, i) + |Emit(lines, edits, i)|
  {
    hide Shift, EditAt;
    NextSpan(|lines|, edits, i, |lines| + 1);
    ShiftNext(|lines|, edits, lines, i);
    ShiftConcat(edits, 1, i, Next(edits, i));
  }

  /** In a simultaneous replacement, what `Emit` gives for a boundary stands at its position. */
  lemma SimultaneousEmit(lines: seq<string>, edits: seq<StagedEdit>, out: seq<string>, i: int)
    requires Stageable(|lines|, edits) && 1 <= i <= |lines| && Boundary(edits, i)
    requires Simultaneous(lines, edits, out)
    ensures var p, q := Position(edits, i), Position(edits, Next(edits, i));
            0 <= p <= q <= |out| && out[p..q] == Emit(lines, edits, i)
  {
    hide Shift, Position, Stageable, Boundary, EditAt, Replacement, Untouched;
    PositionNext(lines, edits, i);
    var p := Position(edits, i);
    match EditAt(edits, i)
    case Some(e) =>
      assert e in edits && e.start == i;
    case None =>
      NoEditAtUntouched(edits, i);
      assert out[p..p + 1] == [out[p]];
  }

  lemma NoEditAtUntouched(edits: seq<StagedEdit>, i: int)
    requires Boundary(edits, i) && EditAt(edits, i).None?
    ensures Untouched(edits, i)
  {
  }

  lemma {:induction false} SimultaneousFrom(lines: seq<string>, edits: seq<StagedEdit>, out: seq<string>, i: int)
    requires Span(|lines|, edits, i, |lines| + 1)
    requires Simultaneous(lines, edits, out)
    ensures 0 <= Position(edits, i) <= |out|
    ensures out[Position(edits, i)..] == Splice(lines, edits, i, |lines| + 1)
    decreases |lines| + 1 - i
  {
    hide Shift, Stageable, Boundary, Emit, Next, EditAt;
    if i <= |lines| {
      var m := Next(edits, i);
      NextSpan(|lines|, edits, i, |lines| + 1);
      SimultaneousFrom(lines, edits, out, m);
      SimultaneousEmit(lines, edits, out, i);
      var p, q := Position(edits, i), Position(edits, m);
      assert out[p..] == out[p..q] + out[q..];
    }
  }

  /** Exactly one document is the simultaneous replacement, and the walk computes it. */
  lemma SimultaneousIffEdited(lines: seq<string>, edits: seq<StagedEdit>, out: seq<string>)
    requires Stageable(|lines|, edits)
    ensures Simultaneous(lines, edits, out) <==> out == Edited(lines, edits)
  {
    EditedIsSimultaneous(lines, edits);
    if Simultaneous(lines, edits, out) {
      SimultaneousFrom(lines, edits, out, 1);
      ShiftNone(edits, 1, 1);
      assert out[0..] == out;
    }
  }

  /** Untouched lines keep their order. */
  lemma UntouchedInOrder(lines: seq<string>, edits: seq<StagedEdit>, i: int, j: int)
    requires Stageable(|lines|, edits) && 1 <= i < j <= |lines|
    requires Untouched(edits, i) && Untouched(edits, j)
    ensures Position(edits, i) < Position(edits, j)
  {
    hide Shift;
    SpliceLength(lines, edits, i + 1, j);
    ShiftNone(edits, i, i + 1);
    ShiftConcat(edits, 1, i, i + 1);
    ShiftConcat(edits, 1, i + 1, j);
  }

  lemma {:induction false} SpliceSameEdits(lines: seq<string>, a: seq<StagedEdit>, b: seq<StagedEdit>, i: int, j: int)
    requires Span(|lines|, a, i, j) && Span(|lines|, b, i, j)
    requires forall p | i <= p < j :: EditAt(a, p) == EditAt(b, p)
    ensures Splice(lines, a, i, j) == Splice(lines, b, i, j)
    decreases j - i
  {
    if i < j {
      NextSpan(|lines|, a, i, j);
      NextSpan(|lines|, b, i, j);
      assert EditAt(a, i) == EditAt(b, i);
      var m := Next(a, i);
      assert m == Next(b, i) && Emit(lines, a, i) == Emit(lines, b, i);
      SpliceSameEdits(lines, a, b, m, j);
      assert Splice(lines, a, i, j) == Emit(lines, a, i) + Splice(lines, a, m, j);
      assert Splice(lines, b, i, j) == Emit(lines, b, i) + Splice(lines, b, m, j);
    }
  }

  /** `current[at : at + width] = replacement`, a list slice assignment. */
  function ReplaceAt(current: seq<string>, at: int, width: int, replacement: seq<string>): seq<string> {
    if 0 <= at <= at + width <= |current| then current[..at] + replacement + current[at + width..] else current
  }

  /** Apply edits one after another in the given order, correcting each target by the
      lines the earlier ones added or removed above it. */
  function WithOffsets(lines: seq<string>, order: seq<StagedEdit>): seq<string> {
    if order == [] then lines
    else
      var done, e := order[..|order| - 1], order[|order| - 1];
      ReplaceAt(WithOffsets(lines, done), Position(done, e.start), Width(e), Replacement(e))
  }

  lemma AppendedEditAt(n: nat, edits: seq<StagedEdit>, e: StagedEdit, p: int)
    requires Stageable(n, edits + [e])
    ensures Stageable(n, edits)
    ensures EditAt(edits + [e], p) == if p == e.start then Some(e) else EditAt(edits, p)
  {
    var all := edits + [e];
    assert forall x <- edits :: x in all;
    assert forall i | 0 <= i < |edits| :: all[i] == edits[i];
    assert all[|edits|] == e;
    if p == e.start {
      EditAtIsTheOne(n, all, e);
    } else if EditAt(edits, p).Some? {
      EditAtIsTheOne(n, all, EditAt(edits, p).value);
    }
  }

  /** One more edit starts nowhere inside the others and shares their boundaries. */
  lemma AppendedSpans(n: nat, done: seq<StagedEdit>, e: StagedEdit)
    requires Stageable(n, done + [e])
    ensures InBounds(n, e) && Stageable(n, done)
    ensures forall f <- done :: !(e.start <= f.start < e.end + 1)
    ensures Boundary(done, e.start) && Boundary(done, e.end + 1)
    ensures Boundary(done + [e], e.start) && Boundary(done + [e], e.end + 1)
  {
    var all := done + [e];
    assert e in all && forall x <- done :: x in all;
    AppendedEditAt(n, done, e, 0);
    EditEndsAreBoundaries(n, all, e);
    forall f <- done ensures !(e.start <= f.start < e.end + 1) {
      var k :| 0 <= k < |done| && done[k] == f;
      assert all[k] == f && all[|done|] == e && !Overlap(all[k], all[|done|]);
      assert InBounds(n, f);
    }
  }

  lemma EditedAround(lines: seq<string>, edits: seq<StagedEdit>, i: int, j: int)
    requires Span(|lines|, edits, i, j)
    ensures Edited(lines, edits)
         == Splice(lines, edits, 1, i) + Splice(lines, edits, i, j) + Splice(lines, edits, j, |lines| + 1)
  {
    SpliceConcat(lines, edits, 1, i, |lines| + 1);
    SpliceConcat(lines, edits, i, j, |lines| + 1);
  }

  /** Away from its own lines, one more edit changes nothing. */
  lemma SameElsewhere(lines: seq<string>, done: seq<StagedEdit>, e: StagedEdit, i: int, j: int)
    requires Span(|lines|, done, i, j) && Span(|lines|, done + [e], i, j) && !(i <= e.start < j)
    ensures Splice(lines, done, i, j) == Splice(lines, done + [e], i, j)
  {
    forall p | i <= p < j ensures EditAt(done, p) == EditAt(done + [e], p) {
      AppendedEditAt(|lines|, done, e, p);
    }
    SpliceSameEdits(lines, done, done + [e], i, j);
  }

  lemma OwnLines(lines: seq<string>, done: seq<StagedEdit>, e: StagedEdit)
    requires Span(|lines|, done + [e], e.start, e.end + 1) && e.start <= e.end
    ensures Splice(lines, done + [e], e.start, e.end + 1) == Replacement(e)
  {
    AppendedEditAt(|lines|, done, e, e.start);
    assert Replacement(e) + [] == Replacement(e);
  }

  lemma Cut<T>(above: seq<T>, middle: seq<T>, below: seq<T>)
    ensures (above + middle + below)[..|above|] == above
    ensures (above + middle + below)[|above| + |middle|..] == below
  {
  }

  /** Adding one edit replaces exactly its own lines in the document edited so far. */
  lemma OffsetStep(lines: seq<string>, done: seq<StagedEdit>, e: StagedEdit)
    requires Stageable(|lines|, done + [e])
    ensures Stageable(|lines|, done)
    ensures Edited(lines, done + [e])
         == ReplaceAt(Edited(lines, done), Position(done, e.start), Width(e), Replacement(e))
  {
    var all, n := done + [e], |lines|;
    hide Shift, EditAt, Splice;
    AppendedSpans(n, done, e);
    EditedAround(lines, done, e.start, e.end + 1);
    EditedAround(lines, all, e.start, e.end + 1);
    SpliceGap(lines, done, e.start, e.end + 1);
    SpliceLength(lines, done, 1, e.start);
    OwnLines(lines, done, e);
    SameElsewhere(lines, done, e, 1, e.start);
    SameElsewhere(lines, done, e, e.end + 1, n + 1);
    Cut(Splice(lines, done, 1, e.start), lines[e.start - 1..e.end], Splice(lines, done, e.end + 1, n + 1));
  }

  lemma {:induction false} WithOffsetsIsEdited(lines: seq<string>, order: seq<StagedEdit>)
    requires Stageable(|lines|, order)
    ensures WithOffsets(lines, order) == Edited(lines, order)
  {
    hide Splice, Shift, Position, ReplaceAt;
    if order == [] {
      SpliceGap(lines, order, 1, |lines| + 1);
    } else {
      var done, e := order[..|order| - 1], order[|order| - 1];
      assert order == done + [e];
      OffsetStep(lines, done, e);
      WithOffsetsIsEdited(lines, done);
    }
  }

  /** Applying the same edits in any order, with offset correction, gives one document. */
  lemma AnyOrder(lines: seq<string>, staged: seq<StagedEdit>, order: seq<StagedEdit>)
    requires Stageable(|lines|, staged) && Stageable(|lines|, order)
    requires forall e :: e in order <==> e in staged
    ensures WithOffsets(lines, order) == Edited(lines, staged)
  {
    forall p ensures EditAt(staged, p) == EditAt(order, p) {
      if EditAt(staged, p).Some? {
        EditAtIsTheOne(|lines|, order, EditAt(staged, p).value);
      }
    }
    SpliceSameEdits(lines, staged, order, 1, |lines| + 1);
    WithOffsetsIsEdited(lines, order);
  }
}
