/**
 * One SRT entry (main.py's Subtitle) as a value: the per-segment parser and
 * printer, the whole-file parser and printer, and the duration.
 */
module Srt {
  import opened Results
  import opened Text
  import Clock

  /** The four fields of a Subtitle at one moment. Times are kept as text. */
  datatype Entry = Entry(idx: string, start: string, end: string, content: string)

  /** The IndexError Subtitle.__init__ raises on a segment of the wrong shape. */
  datatype SrtError = MalformedSegment

  /**
   * Subtitle(segment): the first line is the index, the first and third
   * whitespace tokens of the second line are the times, and the remaining
   * lines, joined by newlines, are the content.
   */
  function ParseSegment(segment: string): Result<Entry, SrtError>
  {
    var lines := Split(Strip(segment), '\n');
    if |lines| < 2 then Err(MalformedSegment)
    else
      var tokens := Words(lines[1]);
      if |tokens| < 3 then Err(MalformedSegment)
      else Ok(Entry(lines[0], tokens[0], tokens[2], Join(lines[2..], "\n")))
  }

  /** A segment that is a single line once stripped has no time line: split_segment[1] fails. */
  lemma ParseSegmentOneLine(segment: string)
    requires '\n' !in Strip(segment)
    ensures ParseSegment(segment) == Err(MalformedSegment)
  {
    SplitNone(Strip(segment), '\n');
  }

  /**
   * A segment with an index line and a second line: rejected exactly when
   * the second line has fewer than three tokens (times.split()[2] fails);
   * otherwise the index is the first line, the times are the first and
   * third tokens of the second, and the content is what follows the second
   * line's break ("\n".join(split_segment[2:])).
   */
  lemma ParseSegmentTimeLine(segment: string, idx: string, line: string, rest: string)
    requires Strip(segment) == idx + "\n" + line + rest
    requires '\n' !in idx && '\n' !in line && (rest == [] || rest[0] == '\n')
    ensures ParseSegment(segment).Err? <==> |Words(line)| < 3
    ensures ParseSegment(segment).Ok? ==>
      ParseSegment(segment).value.idx == idx &&
      ParseSegment(segment).value.start == Words(line)[0] &&
      ParseSegment(segment).value.end == Words(line)[2] &&
      ParseSegment(segment).value.content == (if rest == [] then [] else rest[1..])
  {
    var tail := SplitTwoLines(idx, line, rest);
    assert Split(Strip(segment), '\n')[2..] == tail;
  }

  /** The lines of an index line, a second line and the rest; the later lines join back to the rest. */
  lemma SplitTwoLines(idx: string, line: string, rest: string) returns (tail: seq<string>)
    requires '\n' !in idx && '\n' !in line && (rest == [] || rest[0] == '\n')
    ensures Split(idx + "\n" + line + rest, '\n') == [idx, line] + tail
    ensures Join(tail, "\n") == (if rest == [] then [] else rest[1..])
  {
    assert idx + "\n" + line + rest == idx + ['\n'] + (line + rest);
    SplitAt(idx, '\n', line + rest);
    if rest == [] {
      assert line + rest == line;
      SplitNone(line, '\n');
      tail := [];
    } else {
      assert line + rest == line + ['\n'] + rest[1..];
      SplitAt(line, '\n', rest[1..]);
      tail := Split(rest[1..], '\n');
    }
  }

  /** Subtitle.__str__: "\n{idx}\n{start} --> {end}\n{content}\n". */
  function Render(e: Entry): string
  {
    "\n" + Block(e) + "\n"
  }

  /** The rendered entry without its surrounding newlines. */
  function Block(e: Entry): string
  {
    Head(e) + "\n" + e.content
  }

  /** The index line and the time line. */
  function Head(e: Entry): string
  {
    e.idx + "\n" + TimeLine(e)
  }

  /** The second line of a rendered entry. */
  function TimeLine(e: Entry): string
  {
    e.start + " --> " + e.end
  }

  /** What strip() leaves of a rendered entry: the trailing newline of an empty content goes too. */
  function Stripped(e: Entry): string
  {
    if e.content == [] then Head(e) else Block(e)
  }

  /**
   * An entry that survives printing and re-parsing: index and times are
   * single tokens, and the content, which may be empty, does not end with
   * whitespace (strip() would remove it).
   */
  predicate Printable(e: Entry)
  {
    e.idx != [] && NoSpace(e.idx) &&
    e.start != [] && NoSpace(e.start) &&
    e.end != [] && NoSpace(e.end) &&
    (e.content == [] || !IsSpace(e.content[|e.content| - 1]))
  }

  /** Parsing a printed segment gives back the entry. */
  lemma ParseRender(e: Entry)
    requires Printable(e)
    ensures ParseSegment(Block(e)) == Ok(e)
    ensures ParseSegment(Strip(Render(e))) == Ok(e)
  {
    StrippedShape(e);
    StripPad(Block(e));
    ParseStripped(e);
  }

  /** The stripped rendering parses back to the entry. */
  lemma ParseStripped(e: Entry)
    requires Printable(e)
    ensures ParseSegment(Stripped(e)) == Ok(e)
  {
    StrippedShape(e);
    StripFixed(Stripped(e));
    var tail := StrippedLines(e);
    ParseLines(Stripped(e), e.idx, e.start, e.end, tail, e.content);
  }

  /** The lines of the stripped rendering: index, time line, then the content lines. */
  lemma StrippedLines(e: Entry) returns (tail: seq<string>)
    requires Printable(e)
    ensures Split(Stripped(e), '\n') == [e.idx, TimeLine(e)] + tail
    ensures Join(tail, "\n") == e.content
  {
    if e.content == [] {
      HeadShape(e);
      tail := [];
    } else {
      BlockLines(e);
      tail := Split(e.content, '\n');
    }
  }

  /** A stripped text whose lines are an index, a time line and the content lines. */
  lemma ParseLines(x: string, idx: string, start: string, end: string, tail: seq<string>, content: string)
    requires Strip(x) == x && Split(x, '\n') == [idx, start + " --> " + end] + tail
    requires start != [] && NoSpace(start) && end != [] && NoSpace(end)
    requires Join(tail, "\n") == content
    ensures ParseSegment(x) == Ok(Entry(idx, start, end, content))
  {
    var lines := Split(x, '\n');
    assert lines[2..] == tail;
    WordsOfTimeLine(start, end);
  }

  lemma NoSpaceNoNewline(s: string)
    requires NoSpace(s)
    ensures '\n' !in s
  {
    assert forall i :: 0 <= i < |s| ==> !IsSpace(s[i]);
  }

  lemma TimeLineNoNewline(e: Entry)
    requires NoSpace(e.start) && NoSpace(e.end)
    ensures '\n' !in TimeLine(e)
  {
    NoSpaceNoNewline(e.start);
    NoSpaceNoNewline(e.end);
    assert TimeLine(e) == e.start + (" --> " + e.end);
  }

  /** The two head lines: no surrounding whitespace, no blank line, split into index and time line. */
  lemma HeadShape(e: Entry)
    requires Printable(e)
    ensures Head(e) != [] && !IsSpace(Head(e)[0]) && !IsSpace(Head(e)[|Head(e)| - 1])
    ensures NoBlankLine(Head(e))
    ensures Split(Head(e), '\n') == [e.idx, TimeLine(e)]
  {
    NoSpaceNoNewline(e.idx);
    TimeLineNoNewline(e);
    assert Head(e) == e.idx + ['\n'] + TimeLine(e);
    SplitAt(e.idx, '\n', TimeLine(e));
    SplitNone(TimeLine(e), '\n');
    NoBlankLineWithoutNewline(e.idx);
    NoBlankLineWithoutNewline(TimeLine(e));
    assert NoBlankLine("\n");
    NoBlankLineConcat(e.idx, "\n");
    NoBlankLineConcat(e.idx + "\n", TimeLine(e));
  }

  /** What strip() makes of a block. */
  lemma StrippedShape(e: Entry)
    requires Printable(e)
    ensures Stripped(e) != [] && !IsSpace(Stripped(e)[0]) && !IsSpace(Stripped(e)[|Stripped(e)| - 1])
    ensures Strip(Block(e)) == Stripped(e)
  {
    var h := Head(e);
    HeadShape(e);
    if e.content == [] {
      assert Block(e) == h + ['\n'];
      assert Block(e)[0] == h[0];
      TrimLeftFixed(Block(e));
      TrimRightSpace(h, '\n');
      TrimRightFixed(h);
    } else {
      assert Block(e)[0] == h[0];
      StripFixed(Block(e));
    }
  }

  /** The lines of a block with a content. */
  lemma BlockLines(e: Entry)
    requires Printable(e) && e.content != []
    ensures Split(Block(e), '\n') == [e.idx, TimeLine(e)] + Split(e.content, '\n')
  {
    NoSpaceNoNewline(e.idx);
    TimeLineNoNewline(e);
    assert Block(e) == e.idx + ['\n'] + (TimeLine(e) + ['\n'] + e.content);
    SplitAt(e.idx, '\n', TimeLine(e) + ['\n'] + e.content);
    SplitAt(TimeLine(e), '\n', e.content);
  }

  /** parse_to_subtitles: split on "\n\n", drop blank pieces, parse each stripped piece. */
  function ParseFile(text: string): Result<seq<Entry>, SrtError>
  {
    ParsePieces(SplitOnBlankLine(text))
  }

  function ParsePieces(pieces: seq<string>): Result<seq<Entry>, SrtError>
  {
    if pieces == [] then Ok([])
    else if Strip(pieces[0]) == [] then ParsePieces(pieces[1..])
    else match ParseSegment(Strip(pieces[0]))
      case Err(err) => Err(err)
      case Ok(e) =>
        match ParsePieces(pieces[1..])
        case Err(err) => Err(err)
        case Ok(es) => Ok([e] + es)
  }

  /** The rendered entries, each by __str__. */
  function RenderAll(es: seq<Entry>): (r: seq<string>)
    ensures |r| == |es|
  {
    if es == [] then [] else [Render(es[0])] + RenderAll(es[1..])
  }

  /** The text the drivers write: "\n\n".join(str(s) for s in subtitles). */
  function RenderFile(es: seq<Entry>): string
  {
    Join(RenderAll(es), "\n\n")
  }

  /**
   * An entry whose printed form also survives the file's split on "\n\n":
   * its content holds no blank line and does not open with a newline.
   */
  predicate FilePrintable(e: Entry)
  {
    Printable(e) && NoBlankLine(e.content) && (e.content == [] || e.content[0] != '\n')
  }

  predicate AllPrintable(es: seq<Entry>)
  {
    forall i :: 0 <= i < |es| ==> FilePrintable(es[i])
  }

  /** The entries of two results one after the other; the first error wins. */
  function Chain(x: Result<seq<Entry>, SrtError>, y: Result<seq<Entry>, SrtError>): Result<seq<Entry>, SrtError>
  {
    match x
    case Err(_) => x
    case Ok(a) =>
      match y
      case Err(_) => y
      case Ok(b) => Ok(a + b)
  }

  /** Parsing a list of pieces parses its two halves one after the other. */
  lemma {:induction false} ParsePiecesAppend(p: seq<string>, q: seq<string>)
    ensures ParsePieces(p + q) == Chain(ParsePieces(p), ParsePieces(q))
    decreases |p|
  {
    if p == [] {
      assert p + q == q;
      ChainEmpty(ParsePieces(q));
    } else {
      assert (p + q)[0] == p[0] && (p + q)[1..] == p[1..] + q;
      ParsePiecesAppend(p[1..], q);
      var x, y := ParsePieces(p[1..]), ParsePieces(q);
      if Strip(p[0]) != [] && ParseSegment(Strip(p[0])).Ok? && x.Ok? && y.Ok? {
        var e := ParseSegment(Strip(p[0])).value;
        assert [e] + (x.value + y.value) == ([e] + x.value) + y.value;
      }
    }
  }

  lemma ChainEmpty(y: Result<seq<Entry>, SrtError>)
    ensures Chain(Ok([]), y) == y
  {
    if y.Ok? {
      assert [] + y.value == y.value;
    }
  }

  /** A "\n\n" after a text that does not end with a newline separates what the two sides parse to. */
  lemma ParseFileAppend(a: string, b: string)
    requires a == [] || a[|a| - 1] != '\n'
    ensures ParseFile(a + "\n\n" + b) == Chain(ParseFile(a), ParseFile(b))
  {
    SplitOnBlankLineAppend(a, b);
    ParsePiecesAppend(SplitOnBlankLine(a), SplitOnBlankLine(b));
  }

  lemma ParseFileEmpty()
    ensures ParseFile("") == Ok([])
  {
    assert SplitOnBlankLine("") == [""];
    assert Strip("") == [];
    assert ParsePieces([""]) == ParsePieces([""][1..]);
  }

  /** A single newline in front of a text that does not start with one only joins its first piece. */
  lemma ParseFileLeadingNewline(s: string)
    requires s == [] || s[0] != '\n'
    ensures ParseFile("\n" + s) == ParseFile(s)
  {
    var ps := SplitOnBlankLine(s);
    assert "\n" + s == ['\n'] + s;
    SplitOnBlankLineChar('\n', s);
    StripSpaceFront('\n', ps[0]);
    ParsePiecesHead(ps, "\n" + ps[0]);
  }

  /** Only the stripped form of a piece matters to the parser. */
  lemma ParsePiecesHead(ps: seq<string>, p: string)
    requires ps != [] && Strip(p) == Strip(ps[0])
    ensures ParsePieces([p] + ps[1..]) == ParsePieces(ps)
  {
    var q := [p] + ps[1..];
    assert q != [] && q[0] == p && q[1..] == ps[1..];
    var s := Strip(p);
    if s != [] {
      var h := ParseSegment(s);
      assert ParsePieces(q) == match h case Err(err) => Err(err) case Ok(e) =>
        match ParsePieces(ps[1..]) case Err(err) => Err(err) case Ok(es) => Ok([e] + es);
    }
  }

  /** A newline in front of a printed file, which starts with one newline, is dropped. */
  lemma ParseFileNewlines(r: string)
    requires |r| >= 2 && r[0] == '\n' && r[1] != '\n'
    ensures ParseFile("\n" + r) == ParseFile(r)
  {
    var t := r[1..];
    assert "\n" + r == "" + "\n\n" + t;
    ParseFileAppend("", t);
    ParseFileEmpty();
    ChainEmpty(ParseFile(t));
    assert r == "\n" + t;
    ParseFileLeadingNewline(t);
  }

  /** The stripped rendering with a newline in front is one piece, which parses to the entry. */
  lemma ParseSingle(e: Entry)
    requires FilePrintable(e)
    ensures ParseFile("\n" + Stripped(e)) == Ok([e])
  {
    var x := Stripped(e);
    StrippedPlain(e);
    SplitOnBlankLineNone("\n" + x);
    StrippedShape(e);
    assert "\n" + x == ['\n'] + x;
    StripSpaceFront('\n', x);
    StripFixed(x);
    ParseStripped(e);
    ParsePiecesOne("\n" + x, e);
  }

  /** A list of one non-blank piece parses to what its stripped form parses to. */
  lemma ParsePiecesOne(p: string, e: Entry)
    requires Strip(p) != [] && ParseSegment(Strip(p)) == Ok(e)
    ensures ParsePieces([p]) == Ok([e])
  {
    assert [p][1..] == [];
    assert [e] + [] == [e];
  }

  /** With a newline in front, the stripped rendering still has no blank line. */
  lemma StrippedPlain(e: Entry)
    requires FilePrintable(e)
    ensures NoBlankLine("\n" + Stripped(e))
  {
    StrippedNoBlank(e);
    StrippedShape(e);
    NewlineFront(Stripped(e));
  }

  /** The stripped rendering holds no blank line. */
  lemma StrippedNoBlank(e: Entry)
    requires FilePrintable(e)
    ensures NoBlankLine(Stripped(e))
  {
    HeadShape(e);
    if e.content != [] {
      assert NoBlankLine("\n");
      NoBlankLineConcat(Head(e), "\n");
      NoBlankLineConcat(Head(e) + "\n", e.content);
    }
  }

  lemma NewlineFront(x: string)
    requires NoBlankLine(x) && x != [] && x[0] != '\n'
    ensures NoBlankLine("\n" + x)
  {
    assert NoBlankLine("\n");
    NoBlankLineConcat("\n", x);
  }

  /** A printed entry is its stripped rendering between newlines; one more when the content is empty. */
  lemma RenderStripped(e: Entry)
    ensures e.content == [] ==> Render(e) == "\n" + Stripped(e) + "\n\n"
    ensures e.content != [] ==> Render(e) == "\n" + Stripped(e) + "\n"
  {
    if e.content == [] {
      assert Block(e) == Head(e) + "\n";
    }
  }

  /** A printed entry alone. */
  lemma RenderParses(e: Entry)
    requires FilePrintable(e)
    ensures ParseFile(Render(e)) == Ok([e])
  {
    RenderStripped(e);
    ParseSingle(e);
    StrippedPlain(e);
    StrippedShape(e);
    if e.content == [] {
      ParseWide(Stripped(e), e);
    } else {
      ParseNarrow(Stripped(e), e);
    }
  }

  /** Two trailing newlines after a one-entry text form an empty last piece. */
  lemma ParseWide(x: string, e: Entry)
    requires ParseFile("\n" + x) == Ok([e]) && x != [] && x[|x| - 1] != '\n'
    ensures ParseFile("\n" + x + "\n\n") == Ok([e])
  {
    var a := "\n" + x;
    assert a + "\n\n" + "" == a + "\n\n";
    ParseFileAppend(a, "");
    ParseFileEmpty();
    assert [e] + [] == [e];
  }

  /** One trailing newline after a one-entry text is stripped away. */
  lemma ParseNarrow(x: string, e: Entry)
    requires ParseFile("\n" + x) == Ok([e]) && NoBlankLine("\n" + x)
    requires x != [] && !IsSpace(x[0]) && !IsSpace(x[|x| - 1])
    ensures ParseFile("\n" + x + "\n") == Ok([e])
  {
    var a := "\n" + x;
    assert NoBlankLine("\n");
    NoBlankLineConcat(a, "\n");
    SplitOnBlankLineNone(a + "\n");
    SplitOnBlankLineNone(a);
    StripPad(x);
    StripSpaceFront('\n', x);
    ParsePiecesHead([a], a + "\n");
  }

  /** A printed entry followed by "\n\n" and the printed rest of the file. */
  lemma RenderParsesBefore(e: Entry, r: string)
    requires FilePrintable(e) && |r| >= 2 && r[0] == '\n' && r[1] != '\n'
    ensures ParseFile(Render(e) + "\n\n" + r) == Chain(Ok([e]), ParseFile(r))
  {
    RenderStripped(e);
    ParseSingle(e);
    StrippedShape(e);
    if e.content == [] {
      ParseWideBefore(Stripped(e), e, r);
    } else {
      ParseNarrowBefore(Stripped(e), e, r);
    }
  }

  /** An entry printed with an empty content, then the rest of the file. */
  lemma ParseWideBefore(x: string, e: Entry, r: string)
    requires ParseFile("\n" + x) == Ok([e]) && x != [] && x[|x| - 1] != '\n'
    requires |r| >= 2 && r[0] == '\n' && r[1] != '\n'
    ensures ParseFile("\n" + x + "\n\n" + "\n\n" + r) == Chain(Ok([e]), ParseFile(r))
  {
    var a := "\n" + x;
    assert a + "\n\n" + "\n\n" + r == a + "\n\n" + ("" + "\n\n" + r);
    ParseFileAppend(a, "" + "\n\n" + r);
    ParseFileAppend("", r);
    ParseFileEmpty();
    ChainEmpty(ParseFile(r));
  }

  /** An entry printed with a content, then the rest of the file. */
  lemma ParseNarrowBefore(x: string, e: Entry, r: string)
    requires ParseFile("\n" + x) == Ok([e]) && x != [] && x[|x| - 1] != '\n'
    requires |r| >= 2 && r[0] == '\n' && r[1] != '\n'
    ensures ParseFile("\n" + x + "\n" + "\n\n" + r) == Chain(Ok([e]), ParseFile(r))
  {
    var a := "\n" + x;
    Regroup(a, r);
    ParseFileAppend(a, "\n" + r);
    ParseFileNewlines(r);
  }

  lemma Regroup(a: string, r: string)
    ensures a + "\n" + "\n\n" + r == a + "\n\n" + ("\n" + r)
  {
    assert "\n" + "\n\n" == "\n\n" + "\n";
  }

  /** A printed file starts with one newline and then the first index. */
  lemma RenderFileStart(es: seq<Entry>)
    requires es != [] && Printable(es[0])
    ensures |RenderFile(es)| >= 2 && RenderFile(es)[0] == '\n' && !IsSpace(RenderFile(es)[1])
  {
    var r := Render(es[0]);
    assert RenderAll(es) == [r] + RenderAll(es[1..]);
    if |es| > 1 {
      JoinCons(r, RenderAll(es[1..]), "\n\n");
    }
    assert r[1] == es[0].idx[0];
  }

  /** Rendering a list of entries and parsing the text gives the list back. */
  lemma {:induction false} ParseRenderFile(es: seq<Entry>)
    requires AllPrintable(es)
    ensures ParseFile(RenderFile(es)) == Ok(es)
    decreases |es|
  {
    if es == [] {
      assert RenderFile(es) == "";
      ParseFileEmpty();
    } else if |es| == 1 {
      RenderFileOne(es);
      RenderParses(es[0]);
    } else {
      var rest := es[1..];
      AllPrintableTail(es);
      RenderFileCons(es);
      ParseRenderFile(rest);
      RenderFileStart(rest);
      RenderParsesBefore(es[0], RenderFile(rest));
      ChainCons(es);
    }
  }

  lemma RenderFileOne(es: seq<Entry>)
    requires |es| == 1
    ensures RenderFile(es) == Render(es[0]) && [es[0]] == es
  {
    assert RenderAll(es) == [Render(es[0])];
  }

  lemma AllPrintableTail(es: seq<Entry>)
    requires AllPrintable(es) && es != []
    ensures FilePrintable(es[0]) && AllPrintable(es[1..])
  {
    assert forall i :: 0 <= i < |es| - 1 ==> es[1..][i] == es[i + 1];
  }

  /** The printed file of two or more entries: the first, "\n\n", the rest. */
  lemma RenderFileCons(es: seq<Entry>)
    requires |es| >= 2
    ensures RenderFile(es) == Render(es[0]) + "\n\n" + RenderFile(es[1..])
  {
    assert RenderAll(es) == [Render(es[0])] + RenderAll(es[1..]);
    JoinCons(Render(es[0]), RenderAll(es[1..]), "\n\n");
  }

  lemma ChainCons(es: seq<Entry>)
    requires es != []
    ensures Chain(Ok([es[0]]), Ok(es[1..])) == Ok(es)
  {
    assert [es[0]] + es[1..] == es;
  }

  /**
   * Subtitle.length(): end minus start, both read as HH:MM:SS,mmm. None
   * stands for the ValueError strptime raises on any other shape.
   */
  function Duration(e: Entry): (d: Option<int>)
    ensures d.Some? <==> Clock.Parse(e.start, ',').Some? && Clock.Parse(e.end, ',').Some?
    ensures d.Some? ==> -(Clock.MsPerDay as int) < d.value < Clock.MsPerDay
  {
    match (Clock.Parse(e.start, ','), Clock.Parse(e.end, ','))
    case (Some(s), Some(t)) => Some(t - s)
    case _ => None
  }

  /** The duration of an entry written with SRT times is the difference of the two instants. */
  lemma DurationOfFormatted(idx: string, a: Clock.Ms, b: Clock.Ms, content: string)
    ensures Duration(Entry(idx, Clock.Format(a, ','), Clock.Format(b, ','), content)) == Some(b - a)
  {
  }

  /** The example of the test suite: 00:05:14,192 to 00:05:19,934 lasts 5.742 seconds. */
  lemma DurationExample()
    ensures Duration(Entry("1", "00:05:14,192", "00:05:19,934", "a\nb")) == Some(5742)
  {
    assert Clock.Parse("00:05:14,192", ',') == Some(314192);
    assert Clock.Parse("00:05:19,934", ',') == Some(319934);
  }
}

