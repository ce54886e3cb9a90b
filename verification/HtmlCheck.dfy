/** The structural check of a page: a stack machine over start and end tags. */
module HtmlCheck {
  import opened Ordering

  const VOID_ELEMENTS: set<string> := {
    "area", "base", "br", "col", "embed", "hr", "img", "input", "link", "meta", "param", "source", "track", "wbr"
  }

  const OPTIONAL_END: set<string> := {
    "body", "colgroup", "dd", "dt", "head", "html", "li", "optgroup", "option", "p", "rp", "rt",
    "tbody", "td", "tfoot", "th", "thead", "tr"
  }

  predicate IsVoid(tag: string) { tag in VOID_ELEMENTS }

  predicate IsOptional(tag: string) { tag in OPTIONAL_END }

  /** Tags whose end tag may not be left out. */
  predicate IsRequired(tag: string) { !IsVoid(tag) && !IsOptional(tag) }

  /** A tag and the line it stands on. */
  datatype Tag = Tag(name: string, line: int)

  /** What the HTML tokenizer reports. */
  datatype Event = StartTag(tag: Tag) | EndTag(tag: Tag) | StartEndTag(tag: Tag)

  datatype Problem =
    | StillOpen(open: Tag, closer: Tag)
    | ClosesNothing(end: Tag)
    | NeverClosed(open: Tag)

  datatype Match = Match(open: Tag, end: Tag)

  /** The open elements and the faults found; `matched` records which end tag closed which element. */
  datatype Parser = Parser(stack: seq<Tag>, problems: seq<Problem>, matched: seq<Match>)

  const Initial := Parser([], [], [])

  // ----- one tag at a time -----

  /** The innermost open element called `name`, or -1. */
  function FindOpen(stack: seq<Tag>, name: string): (depth: int)
    ensures -1 <= depth < |stack|
    ensures depth >= 0 ==> stack[depth].name == name
    ensures forall i | depth < i < |stack| :: stack[i].name != name
  {
    if stack == [] then -1
    else if stack[|stack| - 1].name == name then |stack| - 1
    else FindOpen(stack[..|stack| - 1], name)
  }

  /** The tags whose end tag is required, in order. */
  function RequiredOf(tags: seq<Tag>): seq<Tag> {
    if tags == [] then []
    else RequiredOf(tags[..|tags| - 1]) + (if IsRequired(tags[|tags| - 1].name) then [tags[|tags| - 1]] else [])
  }

  /** A fault for each element of `opens` that `</closer>` closes without its own end tag.
      Nothing on the stack is void, so "not optional" and "required" agree there. */
  function StillOpenIn(opens: seq<Tag>, closer: Tag): seq<Problem> {
    if opens == [] then []
    else StillOpenIn(opens[..|opens| - 1], closer)
         + (if IsOptional(opens[|opens| - 1].name) then [] else [StillOpen(opens[|opens| - 1], closer)])
  }

  function NeverClosedIn(opens: seq<Tag>): seq<Problem> {
    if opens == [] then []
    else NeverClosedIn(opens[..|opens| - 1])
         + (if IsOptional(opens[|opens| - 1].name) then [] else [NeverClosed(opens[|opens| - 1])])
  }

  function OnEnd(p: Parser, tag: Tag): Parser {
    var depth := FindOpen(p.stack, tag.name);
    if depth >= 0 then
      Parser(p.stack[..depth],
             p.problems + StillOpenIn(p.stack[depth + 1..], tag),
             p.matched + [Match(p.stack[depth], tag)])
    else if IsOptional(tag.name) then p
    else p.(problems := p.problems + [ClosesNothing(tag)])
  }

  function Step(p: Parser, e: Event): Parser {
    match e
    case StartEndTag(_) => p
    case StartTag(tag) => if IsVoid(tag.name) then p else p.(stack := p.stack + [tag])
    case EndTag(tag) => if IsVoid(tag.name) then p else OnEnd(p, tag)
  }

  function Run(p: Parser, events: seq<Event>): Parser {
    if events == [] then p else Step(Run(p, events[..|events| - 1]), events[|events| - 1])
  }

  function Finish(p: Parser): seq<Problem> { p.problems + NeverClosedIn(p.stack) }

  /** The faults in the order they are found. */
  function Found(events: seq<Event>): seq<Problem> { Finish(Run(Initial, events)) }

  // ----- the order of the report -----

  function Decimal(n: nat): string {
    if n < 10 then ['0' + n as char] else Decimal(n / 10) + ['0' + (n % 10) as char]
  }

  function LineText(line: int): string { if line < 0 then "-" + Decimal(-line) else Decimal(line) }

  function LineOf(q: Problem): int { if q.ClosesNothing? then q.end.line else q.open.line }

  function Message(q: Problem): string {
    match q
    case StillOpen(open, closer) =>
      "<" + open.name + "> opened on line " + LineText(open.line) + " is still open where </" + closer.name
      + "> closes on line " + LineText(closer.line) + "."
    case ClosesNothing(end) => "</" + end.name + "> on line " + LineText(end.line) + " closes nothing that is open."
    case NeverClosed(open) => "<" + open.name + "> opened on line " + LineText(open.line) + " is never closed."
  }

  predicate Before(a: Problem, b: Problem) {
    LineOf(a) < LineOf(b) || (LineOf(a) == LineOf(b) && TextLeq(Message(a), Message(b)))
  }

  lemma BeforeOrders()
    ensures Orders(Before)
  {
    hide Message, LineOf;
    forall a, b ensures Before(a, b) || Before(b, a) { TextTotal(Message(a), Message(b)); }
    forall a, b, c | Before(a, b) && Before(b, c) ensures Before(a, c) {
      if LineOf(a) == LineOf(b) == LineOf(c) { TextTransitive(Message(a), Message(b), Message(c)); }
    }
  }

  /** The report: the faults by line, and by message on one line. */
  function Report(events: seq<Event>): seq<Problem> { Sorted(Found(events), Before) }

  /** Sorting neither adds nor loses a fault. */
  lemma ReportIsFound(events: seq<Event>)
    ensures multiset(Report(events)) == multiset(Found(events)) && |Report(events)| == |Found(events)|
    ensures Report(events) == [] <==> Found(events) == []
    ensures Ordered(Report(events), Before)
  {
    BeforeOrders();
    SortedIsOrdered(Found(events), Before);
  }

  /** Down the report the line numbers never fall: those of the element, or of the stray end tag. */
  lemma ReportByLine(events: seq<Event>, i: nat, j: nat)
    requires i < j < |Report(events)|
    ensures var a, b := Report(events)[i], Report(events)[j];
            && (if a.ClosesNothing? then a.end.line else a.open.line)
               <= (if b.ClosesNothing? then b.end.line else b.open.line)
            && (LineOf(a) == LineOf(b) ==> TextLeq(Message(a), Message(b)))
  {
    hide Report, Message;
    ReportIsFound(events);
    assert Before(Report(events)[i], Report(events)[j]);
  }

  // ----- the parser object -----

  class StructureParser {
    var problems: seq<Problem>
    var stack: seq<Tag>
    ghost var matched: seq<Match>

    ghost function State(): Parser
      reads this
    {
      Parser(stack, problems, matched)
    }

    constructor ()
      ensures State() == Initial
    {
      problems, stack, matched := [], [], [];
    }

    method HandleStartTag(tag: Tag)
      modifies this
      ensures State() == Step(old(State()), StartTag(tag))
    {
      if IsVoid(tag.name) { return; }
      stack := stack + [tag];
    }

    method HandleEndTag(tag: Tag)
      modifies this
      ensures State() == Step(old(State()), EndTag(tag))
    {
      if IsVoid(tag.name) { return; }
      for depth := |stack| downto 0
        invariant stack == old(stack) && problems == old(problems) && matched == old(matched)
        invariant forall i | depth <= i < |stack| :: stack[i].name != tag.name
      {
        if stack[depth].name == tag.name {
          assert depth == FindOpen(stack, tag.name);
          var above := stack[depth + 1..];
          for i := 0 to |above|
            invariant stack == old(stack) && matched == old(matched)
            invariant problems == old(problems) + StillOpenIn(above[..i], tag)
          {
            assert above[..i + 1][..i] == above[..i];
            if !IsOptional(above[i].name) {
              problems := problems + [StillOpen(above[i], tag)];
            }
          }
          assert above[..|above|] == above;
          matched := matched + [Match(stack[depth], tag)];
          stack := stack[..depth];
          return;
        }
      }
      if !IsOptional(tag.name) {
        problems := problems + [ClosesNothing(tag)];
      }
    }

    method FinishParse() returns (report: seq<Problem>)
      modifies this`problems
      ensures problems == Finish(old(State()))
      ensures report == Sorted(problems, Before)
    {
      for i := 0 to |stack|
        invariant stack == old(stack)
        invariant problems == old(problems) + NeverClosedIn(stack[..i])
      {
        assert stack[..i + 1][..i] == stack[..i];
        if !IsOptional(stack[i].name) {
          problems := problems + [NeverClosed(stack[i])];
        }
      }
      assert stack[..|stack|] == stack;
      return Sorted(problems, Before);
    }
  }

  /** `events` are the tags read before the tokenizer ended, or raised: a document it cannot finish
      is not reported on. */
  method CheckHtml(events: seq<Event>, raised: bool) returns (report: seq<Problem>)
    ensures report == if raised then [] else Report(events)
  {
    var parser := new StructureParser();
    for i := 0 to |events|
      invariant fresh(parser)
      invariant parser.State() == Run(Initial, events[..i])
    {
      assert events[..i + 1][..i] == events[..i];
      match events[i]
      case StartTag(tag) => parser.HandleStartTag(tag);
      case EndTag(tag) => parser.HandleEndTag(tag);
      case StartEndTag(_) =>
    }
    assert events[..|events|] == events;
    if raised { return []; }
    report := parser.FinishParse();
  }
}
