/** The dashboard's event stream: the server prints frames, the browser parses them out of
    chunks cut anywhere. JSON is left abstract as a decoder from a payload to the `type` it
    carries, `None` for a payload that does not parse or has no type. */
module EventStream {
  import opened Text

  type Decoder = string -> Option<string>

  const DATA := "data: "
  const KEEPALIVE := ": keepalive"

  /** Event types found, and the partial frame left over. */
  datatype Parsed = Parsed(types: seq<string>, rest: string)

  /** A blank line ends at `k`: two newlines stand there. */
  predicate BlankAt(s: string, k: int) { 0 <= k && k + 2 <= |s| && s[k] == s[k + 1] == '\n' }

  /** `s.indexOf("\n\n")`. */
  function FrameEnd(s: string): (end: int)
    ensures -1 <= end
    ensures end >= 0 ==> BlankAt(s, end)
    ensures forall k | BlankAt(s, k) :: 0 <= end <= k
  {
    if |s| < 2 then -1
    else if BlankAt(s, 0) then 0
    else
      var r := FrameEnd(s[1..]);
      assert forall k | BlankAt(s, k) :: k > 0 && BlankAt(s[1..], k - 1);
      if r < 0 then -1 else r + 1
  }

  predicate StartsWith(s: string, prefix: string) { |prefix| <= |s| && s[..|prefix|] == prefix }

  /** The type carried by a `data:` line. */
  function Payload(line: string, decode: Decoder): Option<string>
    requires StartsWith(line, DATA)
  {
    decode(line[|DATA|..])
  }

  /** What one line of a frame contributes. */
  function LineTypes(line: string, decode: Decoder): seq<string> {
    if StartsWith(line, DATA) && Payload(line, decode).Some? then [Payload(line, decode).value] else []
  }

  function FrameTypes(lines: seq<string>, decode: Decoder): seq<string> {
    if lines == [] then []
    else FrameTypes(lines[..|lines| - 1], decode) + LineTypes(lines[|lines| - 1], decode)
  }

  /** A line yields a type exactly when it reads `data: ` and something that decodes to that type. */
  lemma LineMeans(line: string, kind: string, decode: Decoder)
    ensures LineTypes(line, decode) == [kind] <==> exists text :: line == "data: " + text && decode(text) == Some(kind)
    ensures |LineTypes(line, decode)| <= 1
  {
    if LineTypes(line, decode) == [kind] {
      assert line == "data: " + line[6..];
    }
    if text :| line == "data: " + text && decode(text) == Some(kind) {
      assert line[6..] == text;
    }
  }

  /** The lines of a frame contribute one after another. */
  lemma {:induction false} FrameTypesInOrder(a: seq<string>, b: seq<string>, line: string, decode: Decoder)
    ensures FrameTypes(a + b, decode) == FrameTypes(a, decode) + FrameTypes(b, decode)
    ensures FrameTypes([line], decode) == LineTypes(line, decode)
  {
    hide LineTypes;
    assert [line][..0] == [] && FrameTypes([line][..0], decode) == [];
    assert [] + LineTypes(line, decode) == LineTypes(line, decode);
    if b == [] {
      assert a + b == a;
    } else {
      var n := |b| - 1;
      assert (a + b)[..|a + b| - 1] == a + b[..n];
      FrameTypesInOrder(a, b[..n], line, decode);
    }
  }

  /** Parsing a whole buffer at once. */
  function Parse(s: string, decode: Decoder): Parsed
    decreases |s|
  {
    var end := FrameEnd(s);
    if end < 0 then Parsed([], s)
    else
      var tail := Parse(s[end + 2..], decode);
      Parsed(FrameTypes(Split(s[..end], '\n'), decode) + tail.types, tail.rest)
  }

  lemma ParseFirst(s: string, decode: Decoder)
    requires FrameEnd(s) >= 0
    ensures var end := FrameEnd(s);
            var tail := Parse(s[end + 2..], decode);
            Parse(s, decode) == Parsed(FrameTypes(Split(s[..end], '\n'), decode) + tail.types, tail.rest)
  {
    hide FrameEnd, FrameTypes, Split;
  }

  lemma ParseNone(s: string, decode: Decoder)
    requires FrameEnd(s) < 0
    ensures Parse(s, decode) == Parsed([], s)
  {
  }

  /** The inner loop, over the lines of one frame; a malformed payload is skipped. */
  method ParseFrame(frame: string, decode: Decoder) returns (types: seq<string>)
    ensures types == FrameTypes(Split(frame, '\n'), decode)
  {
    hide Split, StartsWith;
    types := [];
    var lines := Split(frame, '\n');
    for i := 0 to |lines|
      invariant types == FrameTypes(lines[..i], decode)
    {
      assert lines[..i + 1][..i] == lines[..i];
      var line := lines[i];
      if !StartsWith(line, DATA) { continue; }
      var parsed := Payload(line, decode);
      if parsed.Some? { types := types + [parsed.value]; }
    }
    assert lines[..|lines|] == lines;
  }

  method ParseFrames(buffer: string, decode: Decoder) returns (types: seq<string>, rest: string)
    ensures Parsed(types, rest) == Parse(buffer, decode)
    ensures FrameEnd(rest) < 0
  {
    hide Parse, FrameEnd, Split, FrameTypes;
    types, rest := [], buffer;
    while true
      invariant Parse(buffer, decode)
             == Parsed(types + Parse(rest, decode).types, Parse(rest, decode).rest)
      decreases |rest|
    {
      var end := FrameEnd(rest);
      if end < 0 { ParseNone(rest, decode); break; }
      ParseFirst(rest, decode);
      var found := ParseFrame(rest[..end], decode);
      ghost var later := Parse(rest[end + 2..], decode).types;
      assert types + (found + later) == (types + found) + later;
      rest := rest[end + 2..];
      types := types + found;
    }
  }

  // ----- chunk invariance -----

  lemma FrameEndPrefix(a: string, b: string)
    requires FrameEnd(a) >= 0
    ensures FrameEnd(a + b) == FrameEnd(a)
  {
    hide FrameEnd;
    var end, s := FrameEnd(a), a + b;
    assert BlankAt(s, end);
    assert forall k | BlankAt(s, k) && k < end :: BlankAt(a, k);
  }

  /** Parsing more text continues from the remainder of what was parsed before. */
  lemma {:induction false} ParseAppend(a: string, b: string, decode: Decoder)
    ensures var p := Parse(a, decode);
            var q := Parse(p.rest + b, decode);
            Parse(a + b, decode) == Parsed(p.types + q.types, q.rest)
    decreases |a|
  {
    hide Parse, FrameEnd, FrameTypes, Split;
    var end := FrameEnd(a);
    if end < 0 {
      ParseNone(a, decode);
    } else {
      FrameEndPrefix(a, b);
      ParseFirst(a, decode);
      ParseFirst(a + b, decode);
      ParseAppend(a[end + 2..], b, decode);
      assert (a + b)[end + 2..] == a[end + 2..] + b;
      assert (a + b)[..end] == a[..end];
    }
  }

  function Concat(chunks: seq<string>): string {
    if chunks == [] then "" else Concat(chunks[..|chunks| - 1]) + chunks[|chunks| - 1]
  }

  /** The subscriber's read loop: each chunk is added to the remainder and parsed. */
  function Feed(chunks: seq<string>, decode: Decoder): Parsed {
    if chunks == [] then Parsed([], "")
    else
      var before := Feed(chunks[..|chunks| - 1], decode);
      var now := Parse(before.rest + chunks[|chunks| - 1], decode);
      Parsed(before.types + now.types, now.rest)
  }

  method ReadChunks(chunks: seq<string>, decode: Decoder) returns (delivered: seq<string>, buffer: string)
    ensures Parsed(delivered, buffer) == Parse(Concat(chunks), decode)
  {
    delivered, buffer := [], "";
    for i := 0 to |chunks|
      invariant Parsed(delivered, buffer) == Feed(chunks[..i], decode)
    {
      assert chunks[..i + 1][..i] == chunks[..i];
      buffer := buffer + chunks[i];
      var types, rest := ParseFrames(buffer, decode);
      buffer := rest;
      delivered := delivered + types;
    }
    assert chunks[..|chunks|] == chunks;
    ChunkInvariance(chunks, decode);
  }

  /** However the stream is cut, the subscriber sees the events and remainder of one parse. */
  lemma {:induction false} ChunkInvariance(chunks: seq<string>, decode: Decoder)
    ensures Feed(chunks, decode) == Parse(Concat(chunks), decode)
  {
    hide Parse;
    if chunks == [] {
      ParseEmpty(decode);
    } else {
      ChunkInvariance(chunks[..|chunks| - 1], decode);
      ParseAppend(Concat(chunks[..|chunks| - 1]), chunks[|chunks| - 1], decode);
    }
  }

  lemma ParseEmpty(decode: Decoder)
    ensures Parse("", decode) == Parsed([], "")
  {
  }

  // ----- the server's frames -----

  datatype Event = Event(kind: string, at: int)

  datatype Sent = Frame(event: Event) | Keepalive

  /** `format_sse`, and the comment frame sent when nothing happens. */
  function Wire(sent: Sent, print_: Event -> string): string {
    match sent
    case Frame(event) => DATA + print_(event) + "\n\n"
    case Keepalive => KEEPALIVE + "\n\n"
  }

  function Stream(sent: seq<Sent>, print_: Event -> string): string {
    if sent == [] then "" else Stream(sent[..|sent| - 1], print_) + Wire(sent[|sent| - 1], print_)
  }

  /** What the subscriber hears of one frame: an event without a type is dropped. */
  function KindOf(sent: Sent): seq<string> {
    match sent
    case Frame(e) => if e.kind == "" then [] else [e.kind]
    case Keepalive => []
  }

  function KindsOf(sent: seq<Sent>): seq<string> {
    if sent == [] then [] else KindsOf(sent[..|sent| - 1]) + KindOf(sent[|sent| - 1])
  }

  /** On what was sent, the JSON printer emits no raw newline and the parser reads the type back. */
  ghost predicate Faithful(sent: seq<Sent>, print_: Event -> string, decode: Decoder) {
    forall x <- sent :: FaithfulOn(x, print_, decode)
  }

  ghost predicate FaithfulOn(x: Sent, print_: Event -> string, decode: Decoder) {
    x.Frame? ==> '\n' !in print_(x.event)
                 && decode(print_(x.event)) == if x.event.kind == "" then None else Some(x.event.kind)
  }

  lemma WireText(e: Event, print_: Event -> string)
    ensures Wire(Frame(e), print_) == "data: " + print_(e) + "\n\n" && Wire(Keepalive, print_) == ": keepalive\n\n"
  {
  }

  lemma OneLineEnd(line: string)
    requires '\n' !in line && line != ""
    ensures FrameEnd(line + "\n\n") == |line|
  {
    hide FrameEnd;
    var s, n := line + "\n\n", |line|;
    assert BlankAt(s, n);
    assert forall k | 0 <= k < n :: s[k] == line[k] && line[k] in line;
  }

  lemma OneLineTypes(line: string, decode: Decoder)
    requires '\n' !in line
    ensures FrameTypes(Split(line, '\n'), decode) == LineTypes(line, decode)
  {
    hide LineTypes;
    SplitWithoutSeparator(line, '\n');
    assert [line][..0] == [];
    assert FrameTypes([line], decode) == [] + LineTypes(line, decode);
  }

  /** A frame whose body is one line parses to that line's types and nothing is left. */
  lemma OneLineFrame(line: string, decode: Decoder)
    requires '\n' !in line && line != ""
    ensures Parse(line + "\n\n", decode) == Parsed(LineTypes(line, decode), "")
  {
    hide LineTypes, Parse, FrameEnd, FrameTypes, Split;
    var s := line + "\n\n";
    OneLineEnd(line);
    ParseFirst(s, decode);
    assert s[..|line|] == line && s[|line| + 2..] == "";
    OneLineTypes(line, decode);
    ParseEmpty(decode);
  }

  lemma KeepaliveIsNoData(decode: Decoder)
    ensures '\n' !in KEEPALIVE && LineTypes(KEEPALIVE, decode) == []
  {
    assert KEEPALIVE[0] != DATA[0];
  }

  lemma DataLine(payload: string, decode: Decoder)
    requires '\n' !in payload
    ensures '\n' !in DATA + payload
    ensures LineTypes(DATA + payload, decode) == if decode(payload).Some? then [decode(payload).value] else []
  {
    assert (DATA + payload)[|DATA|..] == payload;
  }

  lemma WireParses(sent: Sent, print_: Event -> string, decode: Decoder)
    requires FaithfulOn(sent, print_, decode)
    ensures Parse(Wire(sent, print_), decode) == Parsed(KindOf(sent), "")
  {
    hide Parse, LineTypes;
    match sent
    case Keepalive =>
      KeepaliveIsNoData(decode);
      OneLineFrame(KEEPALIVE, decode);
    case Frame(e) =>
      DataLine(print_(e), decode);
      OneLineFrame(DATA + print_(e), decode);
  }

  /** A stream of frames and keepalives parses to exactly the types sent, in order. */
  lemma {:induction false} StreamParses(sent: seq<Sent>, print_: Event -> string, decode: Decoder)
    requires Faithful(sent, print_, decode)
    ensures Parse(Stream(sent, print_), decode) == Parsed(KindsOf(sent), "")
  {
    hide Parse, Wire;
    if sent == [] {
      ParseEmpty(decode);
    } else {
      var before, last := sent[..|sent| - 1], sent[|sent| - 1];
      assert last in sent && forall x <- before :: x in sent;
      StreamParses(before, print_, decode);
      ParseAppend(Stream(before, print_), Wire(last, print_), decode);
      WireParses(last, print_, decode);
      assert "" + Wire(last, print_) == Wire(last, print_);
    }
  }

  /** Delivery: every way of cutting the server's stream delivers exactly the kinds sent. */
  lemma StreamDelivered(sent: seq<Sent>, chunks: seq<string>, print_: Event -> string, decode: Decoder)
    requires Faithful(sent, print_, decode) && Concat(chunks) == Stream(sent, print_)
    ensures Feed(chunks, decode) == Parsed(KindsOf(sent), "")
  {
    ChunkInvariance(chunks, decode);
    StreamParses(sent, print_, decode);
  }

  /** A stream cut off early delivers a prefix of the kinds sent: none out of order, none twice. */
  lemma CutStreamDeliversPrefix(sent: seq<Sent>, k: nat, print_: Event -> string, decode: Decoder)
    requires Faithful(sent, print_, decode) && k <= |Stream(sent, print_)|
    ensures Parse(Stream(sent, print_)[..k], decode).types <= KindsOf(sent)
  {
    hide Parse;
    var s := Stream(sent, print_);
    StreamParses(sent, print_, decode);
    ParseAppend(s[..k], s[k..], decode);
    assert s == s[..k] + s[k..];
  }

  /** The newline assumption is needed: a payload with a blank line ends its frame early. */
  lemma RawBlankLineSplits(a: string, b: string, decode: Decoder)
    requires '\n' !in a
    ensures Parse(DATA + a + "\n\n" + b + "\n\n", decode).types
         == LineTypes(DATA + a, decode) + Parse(b + "\n\n", decode).types
  {
    hide Parse, LineTypes;
    DataLine(a, decode);
    OneLineFrame(DATA + a, decode);
    ParseAppend(DATA + a + "\n\n", b + "\n\n", decode);
    assert DATA + a + "\n\n" + (b + "\n\n") == DATA + a + "\n\n" + b + "\n\n";
    assert "" + (b + "\n\n") == b + "\n\n";
  }
}
