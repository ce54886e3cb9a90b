/** Which lines `grep` shows: the merged context windows around the hits. */
module GrepWindows {

  const GREP_CONTEXT_LINES := 2
  const MAX_GREP_MATCHES := 50

  datatype Window = Window(first: int, last: int)

  datatype GrepReply = EmptyPattern | NoMatches | Found(total: nat, windows: seq<Window>)

  predicate Contains(hay: string, needle: string) {
    exists k :: 0 <= k <= |hay| && OccursAt(hay, needle, k)
  }

  predicate OccursAt(hay: string, needle: string, k: nat)
    requires k <= |hay|
  {
    k + |needle| <= |hay| && hay[k..k + |needle|] == needle
  }

  /** Whether a line holds the pattern; `lower` stands for the platform's case folding. */
  function Matcher(pattern: string, ignoreCase: bool, lower: string -> string): string -> bool {
    line => if ignoreCase then Contains(lower(line), lower(pattern)) else Contains(line, pattern)
  }

  /** A line matches when the pattern occurs in it as written; ignoring case, when the folded
      pattern occurs in the folded line. */
  lemma MatcherMeans(pattern: string, ignoreCase: bool, lower: string -> string, line: string)
    ensures var needle := if ignoreCase then lower(pattern) else pattern;
            var hay := if ignoreCase then lower(line) else line;
            Matcher(pattern, ignoreCase, lower)(line) <==> exists k :: 0 <= k <= |hay| && needle <= hay[k..]
  {
    var hay := if ignoreCase then lower(line) else line;
    var needle := if ignoreCase then lower(pattern) else pattern;
    assert Matcher(pattern, ignoreCase, lower)(line) <==> Contains(hay, needle);
    if k :| 0 <= k <= |hay| && OccursAt(hay, needle, k) {
      assert hay[k..][..|needle|] == hay[k..k + |needle|];
      assert needle <= hay[k..];
    }
    if k :| 0 <= k <= |hay| && needle <= hay[k..] {
      assert hay[k..][..|needle|] == hay[k..k + |needle|];
      assert OccursAt(hay, needle, k);
    }
  }

  /** The numbers of the lines that match, in order. */
  function Hits(lines: seq<string>, matches: string -> bool): (hits: seq<int>)
    ensures forall i :: i in hits <==> 1 <= i <= |lines| && matches(lines[i - 1])
    ensures forall a, b :: 0 <= a < b < |hits| ==> hits[a] < hits[b]
  {
    if lines == [] then []
    else
      var n := |lines|;
      var above := Hits(lines[..n - 1], matches);
      assert forall a | 0 <= a < |above| :: above[a] in above && above[a] < n;
      if matches(lines[n - 1]) then above + [n] else above
  }

  predicate Near(shown: seq<int>, line: int) {
    exists k :: 0 <= k < |shown| && shown[k] - GREP_CONTEXT_LINES <= line <= shown[k] + GREP_CONTEXT_LINES
  }

  predicate Covered(windows: seq<Window>, line: int) {
    exists k :: 0 <= k < |windows| && windows[k].first <= line <= windows[k].last
  }

  /** Windows over an `n`-line document: in bounds, strictly increasing, at least one
      omitted line between neighbours, and covering exactly the lines near a hit. */
  ghost predicate ContextWindows(windows: seq<Window>, shown: seq<int>, n: int) {
    && (forall w <- windows :: 1 <= w.first <= w.last <= n)
    && (forall a, b :: 0 <= a < b < |windows| ==> windows[a].last + 1 < windows[b].first)
    && (forall line :: Covered(windows, line) <==> 1 <= line <= n && Near(shown, line))
  }

  lemma NoWindows(n: int)
    ensures ContextWindows([], [], n)
  {
  }

  /** Covered is exactly what lies within two lines of a hit shown, inside the document. */
  lemma WindowsCoverTwo(windows: seq<Window>, shown: seq<int>, n: int, line: int)
    requires ContextWindows(windows, shown, n)
    ensures Covered(windows, line) <==> 1 <= line <= n && exists hit <- shown :: hit - 2 <= line <= hit + 2
  {
    if Near(shown, line) {
      var k :| 0 <= k < |shown| && shown[k] - 2 <= line <= shown[k] + 2;
      assert shown[k] in shown;
    }
    if hit :| hit in shown && hit - 2 <= line <= hit + 2 {
      var k :| 0 <= k < |shown| && shown[k] == hit;
      assert Near(shown, line);
    }
  }

  function Max(a: int, b: int): int { if a < b then b else a }
  function Min(a: int, b: int): int { if a < b then a else b }

  /** One turn of the merge loop, with the hit's own window already clipped. */
  function MergeWindow(windows: seq<Window>, w: Window): seq<Window> {
    var k := |windows| - 1;
    if k >= 0 && w.first <= windows[k].last + 1 then
      windows[k := Window(windows[k].first, Max(windows[k].last, w.last))]
    else
      windows + [w]
  }

  lemma NearAppend(shown: seq<int>, hit: int, line: int)
    ensures Near(shown + [hit], line)
       <==> Near(shown, line) || hit - GREP_CONTEXT_LINES <= line <= hit + GREP_CONTEXT_LINES
  {
    var all := shown + [hit];
    if Near(shown, line) {
      var k :| 0 <= k < |shown| && shown[k] - GREP_CONTEXT_LINES <= line <= shown[k] + GREP_CONTEXT_LINES;
      assert all[k] == shown[k];
    }
    assert all[|shown|] == hit;
  }

  /** The merged windows cover what was covered before and the new window, no more. */
  lemma MergeCovers(windows: seq<Window>, w: Window, line: int)
    requires windows != [] ==> windows[|windows| - 1].first <= w.first
    requires forall v <- windows :: v.first <= v.last
    ensures Covered(MergeWindow(windows, w), line) <==> Covered(windows, line) || w.first <= line <= w.last
  {
    var merged, k := MergeWindow(windows, w), |windows| - 1;
    if Covered(windows, line) {
      var i :| 0 <= i < |windows| && windows[i].first <= line <= windows[i].last;
      assert merged[i].first <= line <= merged[i].last;
    }
    if w.first <= line <= w.last {
      assert merged[|merged| - 1].first <= line <= merged[|merged| - 1].last;
    }
    if Covered(merged, line) {
      var i :| 0 <= i < |merged| && merged[i].first <= line <= merged[i].last;
      if i < |windows| && i != k { assert windows[i].first <= line <= windows[i].last; }
      if i == k && line <= windows[k].last { assert windows[k].first <= line <= windows[k].last; }
    }
  }

  /** A window starts at line 1 or where the line above it is near no hit. */
  lemma NothingAbove(windows: seq<Window>, shown: seq<int>, n: int, k: nat)
    requires ContextWindows(windows, shown, n) && k < |windows|
    ensures windows[k].first == 1 || !Near(shown, windows[k].first - 1)
  {
    var line := windows[k].first - 1;
    assert windows[k] in windows;
    forall j | 0 <= j < |windows| ensures !(windows[j].first <= line <= windows[j].last) {
      assert windows[j] in windows;
      if j < k { assert windows[j].last + 1 < windows[k].first; }
      if k < j { assert windows[k].last + 1 < windows[j].first; }
    }
    assert !Covered(windows, line);
  }

  /** The last window starts no lower than the next hit's own window. */
  lemma LastStartsFirst(windows: seq<Window>, shown: seq<int>, hit: int, n: int)
    requires ContextWindows(windows, shown, n) && windows != []
    requires forall h <- shown :: 1 <= h < hit
    ensures windows[|windows| - 1].first <= Max(1, hit - GREP_CONTEXT_LINES)
  {
    var k := |windows| - 1;
    var v := windows[k];
    assert v in windows && Covered(windows, v.first);
    var i :| 0 <= i < |shown| && shown[i] - GREP_CONTEXT_LINES <= v.first <= shown[i] + GREP_CONTEXT_LINES;
    assert shown[i] in shown;
    NothingAbove(windows, shown, n, k);
    if v.first != 1 {
      assert v.first - 1 < shown[i] - GREP_CONTEXT_LINES;
    }
  }

  /** Adding the next hit keeps the windows separated and exactly covering. */
  lemma MergeKeepsWindows(windows: seq<Window>, shown: seq<int>, hit: int, n: int)
    requires ContextWindows(windows, shown, n) && 1 <= hit <= n
    requires forall h <- shown :: 1 <= h < hit
    ensures ContextWindows(
              MergeWindow(windows, Window(Max(1, hit - GREP_CONTEXT_LINES), Min(n, hit + GREP_CONTEXT_LINES))),
              shown + [hit], n)
  {
    var w := Window(Max(1, hit - GREP_CONTEXT_LINES), Min(n, hit + GREP_CONTEXT_LINES));
    if windows != [] { LastStartsFirst(windows, shown, hit, n); }
    forall line
      ensures Covered(MergeWindow(windows, w), line) <==> 1 <= line <= n && Near(shown + [hit], line)
    {
      MergeCovers(windows, w, line);
      NearAppend(shown, hit, line);
    }
  }
}
