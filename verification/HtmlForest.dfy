/** Which tag sequences the check is silent about: exactly the coherent ones. */
module HtmlForest {
  import opened Text
  import opened HtmlCheck
  import opened HtmlAccounting

  /** Sibling nodes, each followed by the rest. `close` is the element's own end tag, or
      `None` where it is left out; `Stray` is an end tag that closes nothing. */
  datatype Forest =
    | Done
    | Ignored(event: Event, after: Forest)
    | Stray(end: Tag, after: Forest)
    | Element(open: Tag, inside: Forest, close: Option<Tag>, after: Forest)

  /** The tags of a forest in document order. */
  function Tags(f: Forest): seq<Event> {
    match f
    case Done => []
    case Ignored(e, after) => [e] + Tags(after)
    case Stray(end, after) => [EndTag(end)] + Tags(after)
    case Element(open, inside, close, after) => [StartTag(open)] + Tags(inside) + CloseTags(close) + Tags(after)
  }

  function CloseTags(close: Option<Tag>): seq<Event> {
    if close.Some? then [EndTag(close.value)] else []
  }

  /** Void elements and self-closing tags, which the check never tracks. */
  predicate IsIgnored(e: Event) { e.StartEndTag? || IsVoid(e.tag.name) }

  // ----- running the parser over pieces -----

  lemma {:induction false} RunConcat(p: Parser, a: seq<Event>, b: seq<Event>)
    ensures Run(p, a + b) == Run(Run(p, a), b)
  {
    if b == [] {
      assert a + b == a;
    } else {
      RunConcat(p, a, b[..|b| - 1]);
      assert (a + b)[..|a + b| - 1] == a + b[..|b| - 1];
    }
  }

  lemma RunOne(p: Parser, e: Event)
    ensures Run(p, [e]) == Step(p, e)
  {
    assert [e][..0] == [];
  }

  lemma RunNone(p: Parser)
    ensures Run(p, []) == p
  {
  }

  lemma FindInner(a: seq<Tag>, it: Tag, b: seq<Tag>, name: string)
    requires it.name == name && forall t <- b :: t.name != name
    ensures FindOpen(a + [it] + b, name) == |a|
  {
    hide FindOpen;
    var s := a + [it] + b;
    assert s[|a|] == it && forall i | |a| < i < |s| :: s[i] in b;
  }

  lemma {:induction false} AllOptionalSilent(opens: seq<Tag>, closer: Tag)
    requires AllOptional(opens)
    ensures StillOpenIn(opens, closer) == [] && NeverClosedIn(opens) == []
  {
    if opens != [] { AllOptionalSilent(opens[..|opens| - 1], closer); }
  }

  // ----- no false positives -----

  /** A properly nested tree in which optional end tags may be left out anywhere. */
  predicate ProperlyNested(f: Forest) {
    match f
    case Done => true
    case Ignored(e, after) => IsIgnored(e) && ProperlyNested(after)
    case Stray(_, _) => false
    case Element(open, inside, close, after) =>
      && !IsVoid(open.name)
      && (close.None? ==> IsOptional(open.name))
      && (close.Some? ==> close.value.name == open.name)
      && ProperlyNested(inside) && ProperlyNested(after)
  }

  ghost predicate AllOptional(opens: seq<Tag>) { forall t <- opens :: IsOptional(t.name) }

  /** What a run may leave behind without complaint: the stack it found and optional elements. */
  ghost predicate OnlyOptionalAdded(base: seq<Tag>, problems: seq<Problem>, p: Parser) {
    && |base| <= |p.stack| && p.stack[..|base|] == base
    && AllOptional(p.stack[|base|..]) && p.problems == problems
  }

  lemma AddedTransitive(base: seq<Tag>, p: Parser, q: Parser)
    requires OnlyOptionalAdded(base, p.problems, p) && OnlyOptionalAdded(p.stack, p.problems, q)
    ensures OnlyOptionalAdded(base, p.problems, q)
  {
    hide IsOptional;
    assert q.stack[..|base|] == q.stack[..|p.stack|][..|base|];
    assert q.stack[|base|..] == p.stack[|base|..] + q.stack[|p.stack|..];
  }

  lemma AllOptionalPart(opens: seq<Tag>, i: nat, j: nat)
    requires AllOptional(opens) && i <= j <= |opens|
    ensures AllOptional(opens[i..j])
  {
    forall t <- opens[i..j] ensures t in opens {
      var k :| 0 <= k < j - i && opens[i..j][k] == t;
      assert opens[i + k] == t;
    }
  }

  /** Closing the element above `base`, with only optional elements above it, is silent and
      leaves at most optional elements behind. */
  lemma CloseIsSilent(base: seq<Tag>, open: Tag, above: seq<Tag>, p: Parser, end: Tag)
    requires p.stack == base + [open] + above && open.name == end.name && AllOptional(above)
    ensures OnlyOptionalAdded(base, p.problems, OnEnd(p, end))
  {
    hide IsOptional, StillOpenIn, FindOpen, OnlyOptionalAdded, AllOptional;
    var depth := FindOpen(p.stack, end.name);
    assert p.stack[|base|] == open;
    var k := depth - |base| - 1;
    if k < 0 {
      assert p.stack[depth + 1..] == above;
      AllOptionalSilent(above, end);
      assert p.stack[..depth] == base;
      assert p.problems + [] == p.problems;
      NothingAdded(base, OnEnd(p, end));
    } else {
      assert above[k] == p.stack[depth];
      assert p.stack[depth + 1..] == above[k + 1..];
      AllOptionalPart(above, k + 1, |above|);
      AllOptionalSilent(above[k + 1..], end);
      assert p.stack[..depth] == base + ([open] + above[..k]);
      AddedUnder(base, open, above, k, OnEnd(p, end));
    }
  }

  lemma NothingAdded(base: seq<Tag>, p: Parser)
    requires p.stack == base
    ensures OnlyOptionalAdded(base, p.problems, p)
  {
  }

  lemma AddedUnder(base: seq<Tag>, open: Tag, above: seq<Tag>, k: nat, p: Parser)
    requires AllOptional(above) && k < |above| && above[k].name == open.name
    requires p.stack == base + ([open] + above[..k])
    ensures OnlyOptionalAdded(base, p.problems, p)
  {
    hide IsOptional;
    assert above[k] in above;
    AllOptionalPart(above, 0, k);
    assert p.stack[|base|..] == [open] + above[..k];
  }

  lemma {:induction false} SilentElement(f: Forest, p: Parser)
    requires f.Element? && ProperlyNested(f)
    ensures OnlyOptionalAdded(p.stack, p.problems, Run(p, [StartTag(f.open)] + Tags(f.inside) + CloseTags(f.close)))
    decreases f, 0
  {
    var start, body := StartTag(f.open), Tags(f.inside);
    RunConcat(p, [start] + body, CloseTags(f.close));
    RunConcat(p, [start], body);
    RunOne(p, start);
    var pushed := p.(stack := p.stack + [f.open]);
    SilentForest(f.inside, pushed);
    var q := Run(pushed, body);
    var above := q.stack[|pushed.stack|..];
    assert q.stack == p.stack + [f.open] + above;
    if f.close.Some? {
      RunOne(q, EndTag(f.close.value));
      CloseIsSilent(p.stack, f.open, above, q, f.close.value);
    } else {
      assert q.stack[|p.stack|..] == [f.open] + above;
    }
  }

  lemma {:induction false} SilentForest(f: Forest, p: Parser)
    requires ProperlyNested(f)
    ensures OnlyOptionalAdded(p.stack, p.problems, Run(p, Tags(f)))
    decreases f, 1
  {
    hide IsOptional, IsVoid, OnEnd, CloseTags;
    match f
    case Done =>
      assert p.stack[|p.stack|..] == [];
    case Ignored(e, after) =>
      RunConcat(p, [e], Tags(after));
      RunOne(p, e);
      SilentForest(after, p);
    case Element(open, inside, close, after) =>
      var tags := [StartTag(open)] + Tags(inside) + CloseTags(close);
      SilentElement(f, p);
      var q := Run(p, tags);
      RunConcat(p, tags, Tags(after));
      SilentForest(after, q);
      AddedTransitive(p.stack, q, Run(q, Tags(after)));
  }

  /** The contract of the check: nothing is reported for a properly nested tree, wherever
      optional end tags are left out. */
  lemma NoFalsePositives(f: Forest)
    requires ProperlyNested(f)
    ensures Report(Tags(f)) == []
  {
    SilentForest(f, Initial);
    var p := Run(Initial, Tags(f));
    assert p.stack[0..] == p.stack;
    AllOptionalSilent(p.stack, Tag("", 0));
    ReportIsFound(Tags(f));
  }

  // ----- the exact set of silent tag sequences -----

  /** The elements left open at the end of a forest whose last end tags are left out. */
  function Spine(f: Forest): seq<Tag> {
    match f
    case Done => []
    case Ignored(_, after) => Spine(after)
    case Stray(_, after) => Spine(after)
    case Element(open, inside, close, after) => if close.Some? then Spine(after) else [open] + Spine(inside)
  }

  predicate Names(opens: seq<Tag>, name: string) { exists i :: 0 <= i < |opens| && opens[i].name == name }

  /** A forest read the way the check reads it: an element without an end tag runs to the
      end of its parent, an end tag closes the innermost element of its name, and an end tag
      with no such element open is tolerated only where end tags are optional. `open` is
      what surrounds the forest. */
  ghost predicate Coherent(f: Forest, open: seq<Tag>) {
    match f
    case Done => true
    case Ignored(e, after) => IsIgnored(e) && Coherent(after, open)
    case Stray(end, after) =>
      IsOptional(end.name) && !IsVoid(end.name) && !Names(open, end.name) && Coherent(after, open)
    case Element(it, inside, close, after) =>
      && !IsVoid(it.name)
      && Coherent(inside, open + [it])
      && (match close
          case None => IsOptional(it.name) && after.Done?
          case Some(end) => end.name == it.name && !Names(Spine(inside), it.name) && Coherent(after, open))
  }

  lemma {:induction false} SpineIsOptional(f: Forest, open: seq<Tag>)
    requires Coherent(f, open)
    ensures AllOptional(Spine(f))
  {
    match f
    case Done =>
    case Ignored(_, after) => SpineIsOptional(after, open);
    case Stray(_, after) => SpineIsOptional(after, open);
    case Element(it, inside, close, after) =>
      SpineIsOptional(inside, open + [it]);
      if close.Some? { SpineIsOptional(after, open); }
  }

  lemma StrayIsSilent(p: Parser, end: Tag)
    requires IsOptional(end.name) && !Names(p.stack, end.name)
    ensures OnEnd(p, end) == p
  {
    hide FindOpen, IsOptional;
    assert forall i | 0 <= i < |p.stack| :: p.stack[i].name != end.name;
  }

  /** An end tag right after the spine of its element closes that element. */
  lemma CloseExactly(base: seq<Tag>, it: Tag, spine: seq<Tag>, p: Parser, end: Tag)
    requires p.stack == base + [it] + spine && it.name == end.name
    requires AllOptional(spine) && !Names(spine, it.name)
    ensures OnEnd(p, end).stack == base && OnEnd(p, end).problems == p.problems
  {
    hide IsOptional, FindOpen, StillOpenIn;
    assert forall t <- spine :: t.name != end.name;
    FindInner(base, it, spine, end.name);
    assert p.stack[..|base|] == base && p.stack[|base| + 1..] == spine;
    AllOptionalSilent(spine, end);
  }

  /** The parser leaves exactly the spine of a coherent forest on top of what it found. */
  lemma {:induction false} CoherentRun(f: Forest, p: Parser)
    requires Coherent(f, p.stack)
    ensures var q := Run(p, Tags(f)); q.stack == p.stack + Spine(f) && q.problems == p.problems
    decreases f, 1
  {
    hide IsOptional, IsVoid, OnEnd, Names, CloseTags;
    match f
    case Done =>
    case Ignored(e, after) =>
      RunConcat(p, [e], Tags(after));
      RunOne(p, e);
      CoherentRun(after, p);
    case Stray(end, after) =>
      RunConcat(p, [EndTag(end)], Tags(after));
      RunOne(p, EndTag(end));
      StrayIsSilent(p, end);
      CoherentRun(after, p);
    case Element(it, inside, close, after) =>
      var tags := [StartTag(it)] + Tags(inside) + CloseTags(close);
      CoherentElement(f, p);
      RunConcat(p, tags, Tags(after));
      if close.Some? { CoherentRun(after, Run(p, tags)); }
  }

  lemma {:induction false} CoherentElement(f: Forest, p: Parser)
    requires f.Element? && Coherent(f, p.stack)
    ensures var q := Run(p, [StartTag(f.open)] + Tags(f.inside) + CloseTags(f.close));
            && q.stack == (if f.close.Some? then p.stack else p.stack + ([f.open] + Spine(f.inside)))
            && q.problems == p.problems
    decreases f, 0
  {
    hide IsOptional, IsVoid, OnEnd, Names, AllOptional, Spine, Tags, Run;
    var start := StartTag(f.open);
    RunConcat(p, [start] + Tags(f.inside), CloseTags(f.close));
    RunConcat(p, [start], Tags(f.inside));
    RunOne(p, start);
    var pushed := p.(stack := p.stack + [f.open]);
    CoherentRun(f.inside, pushed);
    SpineIsOptional(f.inside, pushed.stack);
    var q := Run(pushed, Tags(f.inside));
    if f.close.Some? {
      RunOne(q, EndTag(f.close.value));
      CloseExactly(p.stack, f.open, Spine(f.inside), q, f.close.value);
    } else {
      RunNone(q);
      assert p.stack + [f.open] + Spine(f.inside) == p.stack + ([f.open] + Spine(f.inside));
    }
  }

  // ----- rebuilding the forest from a silent run -----

  /** Sibling forests one after the other. */
  function Append(f: Forest, g: Forest): Forest {
    match f
    case Done => g
    case Ignored(e, after) => Ignored(e, Append(after, g))
    case Stray(end, after) => Stray(end, Append(after, g))
    case Element(it, inside, close, after) => Element(it, inside, close, Append(after, g))
  }

  /** No sibling leaves out its end tag, so more siblings may follow. */
  predicate Settled(f: Forest) {
    match f
    case Done => true
    case Ignored(_, after) => Settled(after)
    case Stray(_, after) => Settled(after)
    case Element(_, _, close, after) => close.Some? && Settled(after)
  }

  lemma {:induction false} AppendFacts(f: Forest, g: Forest, open: seq<Tag>)
    requires Settled(f) && Coherent(f, open) && Coherent(g, open)
    ensures Tags(Append(f, g)) == Tags(f) + Tags(g)
    ensures Coherent(Append(f, g), open) && Spine(Append(f, g)) == Spine(g)
    ensures Settled(g) ==> Settled(Append(f, g))
  {
    match f
    case Done =>
    case Ignored(_, after) => AppendFacts(after, g, open);
    case Stray(_, after) => AppendFacts(after, g, open);
    case Element(_, _, _, after) => AppendFacts(after, g, open);
  }

  /** An open element and the settled siblings already inside it. */
  datatype Frame = Frame(it: Tag, inside: Forest)

  function Opens(frames: seq<Frame>): seq<Tag> {
    if frames == [] then [] else [frames[0].it] + Opens(frames[1..])
  }

  /** The tags of open elements, outermost first. */
  function OpenTags(frames: seq<Frame>): seq<Event> {
    if frames == [] then [] else [StartTag(frames[0].it)] + Tags(frames[0].inside) + OpenTags(frames[1..])
  }

  ghost predicate GoodFrames(frames: seq<Frame>, open: seq<Tag>) {
    frames == [] ||
    (var it := frames[0].it;
     && !IsVoid(it.name) && Settled(frames[0].inside) && Coherent(frames[0].inside, open + [it])
     && GoodFrames(frames[1..], open + [it]))
  }

  /** What the open elements become when all their end tags are left out. */
  function Unclosed(frames: seq<Frame>): Forest {
    if frames == [] then Done
    else Element(frames[0].it, Append(frames[0].inside, Unclosed(frames[1..])), None, Done)
  }

  lemma {:induction false} UnclosedFacts(frames: seq<Frame>, open: seq<Tag>)
    requires GoodFrames(frames, open) && AllOptional(Opens(frames))
    ensures Tags(Unclosed(frames)) == OpenTags(frames)
    ensures Coherent(Unclosed(frames), open) && Spine(Unclosed(frames)) == Opens(frames)
  {
    hide IsOptional, IsVoid, IsIgnored;
    if frames != [] {
      var it, rest := frames[0].it, frames[1..];
      assert Opens(frames)[0] == it;
      AllOptionalPart(Opens(frames), 1, |Opens(frames)|);
      assert Opens(frames)[1..] == Opens(rest);
      UnclosedFacts(rest, open + [it]);
      AppendFacts(frames[0].inside, Unclosed(rest), open + [it]);
      assert Tags(Unclosed(frames)) == [StartTag(it)] + (Tags(frames[0].inside) + OpenTags(rest)) + [] + [];
    }
  }

  /** Give the siblings `g` to the innermost open element (or to the top level). */
  function Put(root: Forest, frames: seq<Frame>, g: Forest): (Forest, seq<Frame>) {
    if frames == [] then (Append(root, g), [])
    else
      var n := |frames| - 1;
      (root, frames[n := Frame(frames[n].it, Append(frames[n].inside, g))])
  }

  /** A root forest and open frames that stand for the tags read so far. */
  ghost predicate Reads(root: Forest, frames: seq<Frame>, stack: seq<Tag>, events: seq<Event>) {
    && Settled(root) && Coherent(root, []) && GoodFrames(frames, [])
    && Opens(frames) == stack && Tags(root) + OpenTags(frames) == events
  }

  lemma {:induction false} FramesConcat(a: seq<Frame>, b: seq<Frame>, open: seq<Tag>)
    ensures Opens(a + b) == Opens(a) + Opens(b)
    ensures OpenTags(a + b) == OpenTags(a) + OpenTags(b)
    ensures GoodFrames(a + b, open) <==> GoodFrames(a, open) && GoodFrames(b, open + Opens(a))
  {
    hide Opens, OpenTags, GoodFrames, Coherent, Settled, Tags, IsVoid;
    if a == [] {
      assert a + b == b && open + [] == open;
      NoFramesUnder(open);
      assert [] + Opens(b) == Opens(b) && [] + OpenTags(b) == OpenTags(b);
    } else {
      assert (a + b)[1..] == a[1..] + b && (a + b)[0] == a[0];
      FramesConcat(a[1..], b, open + [a[0].it]);
      FirstFrame(a, open);
      FirstFrame(a + b, open);
      assert open + [a[0].it] + Opens(a[1..]) == open + Opens(a);
      assert [a[0].it] + (Opens(a[1..]) + Opens(b)) == ([a[0].it] + Opens(a[1..])) + Opens(b);
      var it := [StartTag(a[0].it)] + Tags(a[0].inside);
      assert it + (OpenTags(a[1..]) + OpenTags(b)) == (it + OpenTags(a[1..])) + OpenTags(b);
    }
  }

  lemma NoFramesUnder(open: seq<Tag>)
    ensures Opens([]) == [] && OpenTags([]) == [] && GoodFrames([], open)
  {
  }

  lemma FirstFrame(frames: seq<Frame>, open: seq<Tag>)
    requires frames != []
    ensures Opens(frames) == [frames[0].it] + Opens(frames[1..])
    ensures OpenTags(frames) == [StartTag(frames[0].it)] + Tags(frames[0].inside) + OpenTags(frames[1..])
    ensures GoodFrames(frames, open)
       <==> !IsVoid(frames[0].it.name) && Settled(frames[0].inside)
            && Coherent(frames[0].inside, open + [frames[0].it]) && GoodFrames(frames[1..], open + [frames[0].it])
  {
    hide Coherent, Settled, Tags, IsVoid;
  }

  lemma {:induction false} OpensLength(frames: seq<Frame>)
    ensures |Opens(frames)| == |frames|
    ensures forall i | 0 <= i < |frames| :: Opens(frames)[i] == frames[i].it
  {
    if frames != [] { OpensLength(frames[1..]); }
  }

  lemma OneFrame(frame: Frame, open: seq<Tag>)
    ensures Opens([frame]) == [frame.it]
    ensures OpenTags([frame]) == [StartTag(frame.it)] + Tags(frame.inside)
    ensures GoodFrames([frame], open) <==>
              !IsVoid(frame.it.name) && Settled(frame.inside) && Coherent(frame.inside, open + [frame.it])
  {
    assert [frame][1..] == [];
  }

  /** Reading settled siblings adds them where the parser stands. */
  lemma PutReads(root: Forest, frames: seq<Frame>, stack: seq<Tag>, events: seq<Event>, g: Forest)
    requires Reads(root, frames, stack, events) && Settled(g) && Coherent(g, stack)
    ensures Reads(Put(root, frames, g).0, Put(root, frames, g).1, stack, events + Tags(g))
  {
    hide Coherent, Settled, Tags, Append, GoodFrames, Opens, OpenTags;
    if frames == [] {
      NoFramesUnder([]);
      AppendFacts(root, g, []);
    } else {
      var n := |frames| - 1;
      var below, top := frames[..n], frames[n];
      var top' := Frame(top.it, Append(top.inside, g));
      assert frames == below + [top] && frames[n := top'] == below + [top'];
      FramesConcat(below, [top], []);
      FramesConcat(below, [top'], []);
      OneFrame(top, [] + Opens(below));
      OneFrame(top', [] + Opens(below));
      assert [] + Opens(below) + [top.it] == stack;
      AppendFacts(top.inside, g, stack);
      Regroup(Tags(root), OpenTags(below), [StartTag(top.it)], Tags(top.inside), Tags(g));
    }
  }

  lemma Regroup<T>(a: seq<T>, b: seq<T>, c: seq<T>, d: seq<T>, e: seq<T>)
    ensures a + (b + (c + (d + e))) == a + (b + (c + d)) + e
  {
  }

  lemma PushReads(root: Forest, frames: seq<Frame>, stack: seq<Tag>, events: seq<Event>, it: Tag)
    requires Reads(root, frames, stack, events) && !IsVoid(it.name)
    ensures Reads(root, frames + [Frame(it, Done)], stack + [it], events + [StartTag(it)])
  {
    FramesConcat(frames, [Frame(it, Done)], []);
    OneFrame(Frame(it, Done), [] + Opens(frames));
  }

  /** Closing an element turns its frame, and the optional ones above it, into one settled sibling. */
  lemma CloseReads(root: Forest, frames: seq<Frame>, stack: seq<Tag>, events: seq<Event>, depth: nat, end: Tag)
    returns (root': Forest, frames': seq<Frame>)
    requires Reads(root, frames, stack, events)
    requires depth < |stack| && stack[depth].name == end.name
    requires AllOptional(stack[depth + 1..]) && !Names(stack[depth + 1..], end.name)
    ensures Reads(root', frames', stack[..depth], events + [EndTag(end)])
  {
    hide Coherent, Settled, Tags, Append, AllOptional, Names, GoodFrames, Opens, OpenTags, Put;
    OpensLength(frames);
    var below, it, above := frames[..depth], frames[depth], frames[depth + 1..];
    assert frames == below + ([it] + above);
    FramesConcat(below, [it] + above, []);
    FramesConcat([it], above, [] + Opens(below));
    OneFrame(it, [] + Opens(below));
    OpensLength(below);
    assert Opens(below) == stack[..depth] && Opens(above) == stack[depth + 1..];
    assert [] + Opens(below) == stack[..depth] && [] + Opens(below) + Opens([it]) == stack[..depth] + [it.it];
    var closed, tags := CloseForest(it, above, stack[..depth], end);
    assert Tags(root) + OpenTags(below) + tags == events;
    assert Reads(root, below, stack[..depth], Tags(root) + OpenTags(below));
    PutReads(root, below, stack[..depth], Tags(root) + OpenTags(below), closed);
    var put := Put(root, below, closed);
    root', frames' := put.0, put.1;
    assert Tags(root) + OpenTags(below) + Tags(closed) == events + [EndTag(end)];
  }

  lemma CloseForest(frame: Frame, above: seq<Frame>, open: seq<Tag>, end: Tag)
    returns (closed: Forest, tags: seq<Event>)
    requires GoodFrames([frame], open) && GoodFrames(above, open + [frame.it])
    requires frame.it.name == end.name
    requires AllOptional(Opens(above)) && !Names(Opens(above), end.name)
    ensures tags == [StartTag(frame.it)] + Tags(frame.inside) + OpenTags(above)
    ensures Settled(closed) && Coherent(closed, open) && Tags(closed) == tags + [EndTag(end)]
  {
    OneFrame(frame, open);
    UnclosedFacts(above, open + [frame.it]);
    AppendFacts(frame.inside, Unclosed(above), open + [frame.it]);
    closed := Element(frame.it, Append(frame.inside, Unclosed(above)), Some(end), Done);
    tags := [StartTag(frame.it)] + Tags(frame.inside) + OpenTags(above);
  }

  /** A silent run can be read as a coherent root forest plus open frames. */
  lemma {:induction false} SilentReads(events: seq<Event>) returns (root: Forest, frames: seq<Frame>)
    requires Run(Initial, events).problems == []
    ensures Reads(root, frames, Run(Initial, events).stack, events)
  {
    hide Reads, Step;
    if events == [] {
      root, frames := Done, [];
      NothingRead();
    } else {
      var before, e := events[..|events| - 1], events[|events| - 1];
      var p := Run(Initial, before);
      FaultsStay(p, e);
      root, frames := SilentReads(before);
      assert events == before + [e];
      root, frames := ReadOne(root, frames, p, before, e);
    }
  }

  lemma NothingRead()
    ensures Reads(Done, [], Initial.stack, [])
  {
  }

  lemma ReadOne(root: Forest, frames: seq<Frame>, p: Parser, events: seq<Event>, e: Event)
    returns (root': Forest, frames': seq<Frame>)
    requires Reads(root, frames, p.stack, events) && Step(p, e).problems == []
    ensures Reads(root', frames', Step(p, e).stack, events + [e])
  {
    hide Reads, IsOptional, IsVoid;
    if IsIgnored(e) {
      PutReads(root, frames, p.stack, events, Ignored(e, Done));
      root', frames' := Put(root, frames, Ignored(e, Done)).0, Put(root, frames, Ignored(e, Done)).1;
      assert Tags(Ignored(e, Done)) == [e];
    } else if e.StartTag? {
      PushReads(root, frames, p.stack, events, e.tag);
      root', frames' := root, frames + [Frame(e.tag, Done)];
    } else {
      var depth := FindOpen(p.stack, e.tag.name);
      if depth >= 0 {
        NoneStillOpen(p.stack[depth + 1..], e.tag);
        root', frames' := CloseReads(root, frames, p.stack, events, depth, e.tag);
      } else {
        PutReads(root, frames, p.stack, events, Stray(e.tag, Done));
        root', frames' := Put(root, frames, Stray(e.tag, Done)).0, Put(root, frames, Stray(e.tag, Done)).1;
        assert Tags(Stray(e.tag, Done)) == [e];
      }
    }
  }

  lemma SilentIsCoherent(events: seq<Event>) returns (f: Forest)
    requires Report(events) == []
    ensures Coherent(f, []) && Tags(f) == events
  {
    hide Run, Opens, OpenTags, GoodFrames, Coherent, Settled, Tags, Append, Unclosed, NeverClosedIn, IsOptional;
    ReportIsFound(events);
    var root, frames := SilentReads(events);
    NoneNeverClosed(Run(Initial, events).stack);
    UnclosedFacts(frames, []);
    AppendFacts(root, Unclosed(frames), []);
    f := Append(root, Unclosed(frames));
  }

  lemma CoherentIsSilent(f: Forest)
    requires Coherent(f, [])
    ensures Report(Tags(f)) == []
  {
    hide Run, Coherent, Tags, Spine, NeverClosedIn, AllOptional;
    CoherentRun(f, Initial);
    assert [] + Spine(f) == Spine(f);
    SpineIsOptional(f, []);
    AllOptionalSilent(Spine(f), Tag("", 0));
    ReportIsFound(Tags(f));
  }

  /** `check_html` is silent about a tag sequence exactly when the sequence is the tags of a
      coherent forest. */
  lemma SilentIffCoherent(events: seq<Event>)
    ensures Report(events) == [] <==> exists f :: Coherent(f, []) && Tags(f) == events
  {
    hide Report, Coherent, Tags;
    if Report(events) == [] {
      var f := SilentIsCoherent(events);
    }
    if f :| Coherent(f, []) && Tags(f) == events {
      CoherentIsSilent(f);
    }
  }
}
