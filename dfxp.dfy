/**
 * The DFXP side of merge-dfxp.py: one caption per line,
 * <p begin="HH:MM:SS.mmm" end="HH:MM:SS.mmm">text</p>, read with a fixed
 * regular expression and written back inside fixed document boilerplate.
 * Times are milliseconds since midnight.
 */
module Dfxp {
  import opened Results
  import opened Text
  import Clock

  /** A merge-dfxp.py Subtitle; these are never updated after construction. */
  datatype Cue = Cue(start: Clock.Ms, end: Clock.Ms, content: string)

  /**
   * NoMatch: the line does not match the pattern (re.match gives None and
   * .groups() raises). BadTime: a time matched the pattern but strptime
   * rejects it (a separator other than '.', or an hour, minute or second out
   * of range).
   */
  datatype DfxpError = NoMatch | BadTime

  const Open: string := "<p begin=\""
  const Mid: string := "\" end=\""
  const Close: string := "\">"
  const EndTag: string := "</p>"

  /** Where the caption text starts: the fixed part of the pattern is 43 characters. */
  const TextStart: nat := 43

  /** \d{2}:\d{2}:\d{2}.\d{3} -- the dot is the regex wildcard, which excludes a newline. */
  predicate TimeShape(t: string)
  {
    Clock.HasShape(t) && t[8] != '\n'
  }

  /** The 43-character head of the pattern, up to the opening of the caption text. */
  predicate HeadMatches(line: string)
  {
    |line| >= TextStart &&
    line[..10] == Open && TimeShape(line[10..22]) &&
    line[22..29] == Mid && TimeShape(line[29..41]) &&
    line[41..43] == Close
  }

  /** (.+)</p> can end the caption text at q: at least one character, no newline, then </p>. */
  predicate ClosesAt(rest: string, q: int)
  {
    1 <= q && q + 4 <= |rest| && rest[q..q + 4] == EndTag && '\n' !in rest[..q]
  }

  /**
   * The greedy (.+): the caption text runs to the LAST place where it can be
   * followed by </p> without crossing a newline.
   */
  function TextEnd(rest: string): (p: Option<nat>)
    ensures p.Some? ==> ClosesAt(rest, p.value)
    ensures p.Some? ==> forall q :: p.value < q ==> !ClosesAt(rest, q)
    ensures p.None? <==> forall q :: !ClosesAt(rest, q)
  {
    LastCloseAtOrBelow(rest, |rest|)
  }

  function LastCloseAtOrBelow(rest: string, q: nat): (p: Option<nat>)
    requires forall k :: q < k ==> !ClosesAt(rest, k)
    ensures p.Some? ==> p.value <= q && ClosesAt(rest, p.value)
    ensures p.Some? ==> forall k :: p.value < k ==> !ClosesAt(rest, k)
    ensures p.None? <==> forall k :: !ClosesAt(rest, k)
  {
    if q == 0 then None
    else if ClosesAt(rest, q) then Some(q)
    else LastCloseAtOrBelow(rest, q - 1)
  }

  /** Subtitle(entry=line): match the pattern at the start of the line, then read both times. */
  function ParseLine(line: string): Result<Cue, DfxpError>
  {
    if !HeadMatches(line) then Err(NoMatch)
    else
      var rest := line[TextStart..];
      match TextEnd(rest)
      case None => Err(NoMatch)
      case Some(p) =>
        match (Clock.Parse(line[10..22], '.'), Clock.Parse(line[29..41], '.'))
        case (Some(s), Some(e)) => Ok(Cue(s, e, rest[..p]))
        case _ => Err(BadTime)
  }

  /** Subtitle.__str__: both times to the millisecond, then the text inside <p>...</p>. */
  function Render(c: Cue): string
  {
    Open + Clock.Format(c.start, '.') + Mid + Clock.Format(c.end, '.') + Close + c.content + EndTag
  }

  /** A cue __str__ can print on one line and the pattern can read back. */
  predicate Printable(c: Cue)
  {
    c.content != [] && '\n' !in c.content
  }

  /** What a successful parse reads: a printable cue whose rendering starts the line. */
  lemma ParseLineRenders(line: string)
    requires ParseLine(line).Ok?
    ensures Printable(ParseLine(line).value)
    ensures StartsWith(line, Render(ParseLine(line).value))
  {
    var c := ParseLine(line).value;
    var rest := line[TextStart..];
    var p := TextEnd(rest).value;
    assert c.content == rest[..p];
    HeadOf(line);
    StartsWithParts(line, TextStart, p, line[..TextStart], c.content, EndTag);
  }

  /** A line that begins with a, then b, then c, starts with a + b + c. */
  lemma StartsWithParts(line: string, n: nat, p: nat, a: string, b: string, c: string)
    requires n + p + |c| <= |line|
    requires a == line[..n] && b == line[n..][..p] && c == line[n..][p..p + |c|]
    ensures StartsWith(line, a + b + c)
  {
    var r := a + b + c;
    forall k | 0 <= k < |r| ensures r[k] == line[k] {
      if k >= n + p {
        assert r[k] == c[k - n - p];
      } else if k >= n {
        assert r[k] == b[k - n];
      }
    }
  }

  /** The head of a matched line is the printed form of its two times. */
  lemma HeadOf(line: string)
    requires HeadMatches(line)
    requires Clock.Parse(line[10..22], '.').Some? && Clock.Parse(line[29..41], '.').Some?
    ensures line[..TextStart] ==
      Open + Clock.Format(Clock.Parse(line[10..22], '.').value, '.') + Mid +
      Clock.Format(Clock.Parse(line[29..41], '.').value, '.') + Close
  {
    Clock.FormatParse(line[10..22], '.');
    Clock.FormatParse(line[29..41], '.');
    assert line[..TextStart] == line[..10] + line[10..22] + line[22..29] + line[29..41] + line[41..43];
  }

  /** Printing a cue and parsing the line gives the cue back. */
  lemma ParseRender(c: Cue)
    requires Printable(c)
    ensures ParseLine(Render(c)) == Ok(c)
  {
    var line := Render(c);
    var s, e := Clock.Format(c.start, '.'), Clock.Format(c.end, '.');
    FormatNoNewline(c.start);
    FormatNoNewline(c.end);
    var rest := c.content + EndTag;
    SeqAssoc(Open + s + Mid + e + Close, c.content, EndTag);
    Layout(Open, s, Mid, e, Close, rest);
    assert line[TextStart..] == rest;
    assert rest[..|c.content|] == c.content && rest[|c.content|..|c.content| + 4] == EndTag;
    assert ClosesAt(rest, |c.content|);
  }

  /** Where the five fixed-width parts of a cue line's head sit. */
  lemma Layout(o: string, s: string, m: string, e: string, k: string, rest: string)
    requires |o| == 10 && |s| == 12 && |m| == 7 && |e| == 12 && |k| == 2
    ensures var line := o + s + m + e + k + rest;
      line[..10] == o && line[10..22] == s && line[22..29] == m &&
      line[29..41] == e && line[41..43] == k && line[43..] == rest
  {
    var head := o + s + m + e + k;
    var line := head + rest;
    assert line[..43] == head && line[43..] == rest;
    assert head[..10] == o && head[10..22] == s && head[22..29] == m && head[29..41] == e && head[41..43] == k;
  }

  lemma FormatNoNewline(ms: Clock.Ms)
    ensures TimeShape(Clock.Format(ms, '.')) && '\n' !in Clock.Format(ms, '.')
  {
    var t := Clock.Format(ms, '.');
    forall k | 0 <= k < |t| ensures t[k] != '\n' {
      assert k == 2 || k == 5 || k == 8 || Clock.IsDigit(t[k]);
    }
  }

  /** A rendered line has no line break. */
  lemma RenderNoNewline(c: Cue)
    requires Printable(c)
    ensures '\n' !in Render(c)
  {
    FormatNoNewline(c.start);
    FormatNoNewline(c.end);
  }

  /**
   * The newline that ends a line read from a file changes neither the filter
   * nor the parse, so lines can be taken without their terminators.
   */
  lemma ParseLineIgnoresNewline(line: string)
    requires '\n' !in line
    ensures ParseLine(line + "\n") == ParseLine(line)
    ensures IsCueLine(line + "\n") <==> IsCueLine(line)
  {
    var l := line + "\n";
    assert |line| >= 8 ==> l[..8] == line[..8];
    assert |line| == 7 ==> l[7] == '\n';
    if |line| >= TextStart {
      assert l[..10] == line[..10] && l[10..22] == line[10..22] && l[22..29] == line[22..29];
      assert l[29..41] == line[29..41] && l[41..43] == line[41..43];
      var r, r' := line[TextStart..], l[TextStart..];
      assert r' == r + "\n";
      forall q ensures ClosesAt(r', q) <==> ClosesAt(r, q) {
        if 1 <= q && q + 4 <= |r| {
          assert r'[q..q + 4] == r[q..q + 4] && r'[..q] == r[..q];
        } else if 1 <= q && q + 4 == |r'| {
          assert r'[q + 3] == '\n';
          assert r'[q..q + 4][3] == '\n' && EndTag[3] == '>';
        }
      }
      TextEndSame(r, r');
      if TextEnd(r).Some? {
        var p := TextEnd(r).value;
        assert r'[..p] == r[..p];
      }
    } else if |l| >= TextStart {
      assert l[42] == '\n';
      assert !HeadMatches(l);
    }
  }

  /** TextEnd depends only on where the caption text can end. */
  lemma TextEndSame(r1: string, r2: string)
    requires forall q :: ClosesAt(r1, q) <==> ClosesAt(r2, q)
    ensures TextEnd(r1) == TextEnd(r2)
  {
  }

  /** The line filter: line.startswith("<p begin"). */
  predicate IsCueLine(line: string)
  {
    StartsWith(line, "<p begin")
  }

  /**
   * create_subtitles_from_file over the file's lines: every line starting with
   * <p begin is parsed in order; the first line that fails stops the reading.
   */
  function ReadCues(lines: seq<string>): Result<seq<Cue>, DfxpError>
  {
    if lines == [] then Ok([])
    else
      var last := lines[|lines| - 1];
      match ReadCues(lines[..|lines| - 1])
      case Err(err) => Err(err)
      case Ok(cues) =>
        if !IsCueLine(last) then Ok(cues)
        else match ParseLine(last)
          case Err(err) => Err(err)
          case Ok(c) => Ok(cues + [c])
  }

  /** The loop of create_subtitles_from_file. */
  method CreateSubtitlesFromLines(lines: seq<string>) returns (r: Result<seq<Cue>, DfxpError>)
    ensures r == ReadCues(lines)
  {
    var subtitles: seq<Cue> := [];
    for k := 0 to |lines|
      invariant ReadCues(lines[..k]) == Ok(subtitles)
    {
      assert lines[..k + 1][..k] == lines[..k];
      if IsCueLine(lines[k]) {
        var c := ParseLine(lines[k]);
        if c.Err? {
          assert lines[..k + 1][..k] == lines[..k];
          ReadCuesStops(lines, k);
          return Err(c.error);
        }
        subtitles := subtitles + [c.value];
      }
    }
    assert lines[..|lines|] == lines;
    return Ok(subtitles);
  }

  /** Once a line fails, the lines after it do not change the outcome. */
  lemma {:induction false} ReadCuesStops(lines: seq<string>, k: nat)
    requires k < |lines| && ReadCues(lines[..k + 1]).Err?
    ensures ReadCues(lines) == ReadCues(lines[..k + 1])
    decreases |lines| - k
  {
    if k + 1 < |lines| {
      assert lines[..|lines| - 1][..k + 1] == lines[..k + 1];
      ReadCuesStops(lines[..|lines| - 1], k);
    } else {
      assert lines[..k + 1] == lines;
    }
  }

  const XmlDeclaration: string := "<?xml version=\"1.0\"" + " encoding=\"UTF-8\"?>"
  const TtNamespace: string := "http://www.w3.org/2006/10/ttaf1"
  const TtOpen: string :=
    "<tt xml:lang='en' xmlns='" + TtNamespace + "' xmlns:tts='" + TtNamespace + "#style'>"
  const BodyOpen: string := "<body>"
  const CaptionsOpen: string := "<div xml:id=\"captions\">"

  /** starting_boilerplate */
  const Header: string :=
    XmlDeclaration + "\n" + TtOpen + "\n" + BodyOpen + "\n" + CaptionsOpen + "\n"

  /** ending_boilerplate: the three closing tags, one per line, the last without a newline. */
  const Footer: string := FootLines[0] + "\n" + FootLines[1] + "\n" + FootLines[2]

  /** Each line followed by a newline, all concatenated. */
  function Lined(lines: seq<string>): string
  {
    if lines == [] then "" else lines[0] + "\n" + Lined(lines[1..])
  }

  /** The rendered cues, one per line. */
  function Renders(cues: seq<Cue>): (r: seq<string>)
    ensures |r| == |cues| && forall k :: 0 <= k < |cues| ==> r[k] == Render(cues[k])
  {
    seq(|cues|, k requires 0 <= k < |cues| => Render(cues[k]))
  }

  /** create_file_from_subtitles: the text written to the file. */
  function Document(cues: seq<Cue>): string
  {
    Header + Lined(Renders(cues)) + Footer
  }

  /** The lines of a text, as iterating over the open file yields them (without their newlines). */
  function DocumentLines(text: string): seq<string>
  {
    Split(text, '\n')
  }

  const HeadLines: seq<string> := [XmlDeclaration, TtOpen, BodyOpen, CaptionsOpen]

  const FootLines: seq<string> := ["</div>", "</body>", "</tt>"]

  /** Reading back a written document of printable cues gives the cues. */
  lemma ReadWritten(cues: seq<Cue>)
    requires forall k :: 0 <= k < |cues| ==> Printable(cues[k])
    ensures ReadCues(DocumentLines(Document(cues))) == Ok(cues)
  {
    var body := Renders(cues);
    forall k | 0 <= k < |body| ensures '\n' !in body[k] {
      RenderNoNewline(cues[k]);
    }
    BoilerplateIsNotCues();
    HeaderLines();
    SplitFooter();
    SeqAssoc(Header, Lined(body), Footer);
    SplitFramed(HeadLines, body, Footer, FootLines);
    ReadBody(cues, HeadLines);
    ReadSkipAll(HeadLines + body, FootLines);
  }

  /** No boilerplate line starts with <p begin or holds a newline. */
  lemma BoilerplateIsNotCues()
    ensures forall k :: 0 <= k < |HeadLines| ==> !IsCueLine(HeadLines[k]) && '\n' !in HeadLines[k]
    ensures forall k :: 0 <= k < |FootLines| ==> !IsCueLine(FootLines[k])
  {
    XmlDeclarationIsPlain();
    TtOpenIsPlain();
    BodyOpenIsPlain();
    CaptionsOpenIsPlain();
    forall k | 0 <= k < |FootLines| ensures !IsCueLine(FootLines[k]) {
      NotCueLine(FootLines[k]);
    }
  }

  lemma TtOpenIsPlain()
    ensures !IsCueLine(TtOpen) && '\n' !in TtOpen
  {
    NotCueLine(TtOpen);
    NamespacePlain();
    assert '\n' !in "<tt xml:lang='en' xmlns='";
    assert '\n' !in "' xmlns:tts='" && '\n' !in "#style'>";
  }

  lemma NamespacePlain()
    ensures '\n' !in TtNamespace
  {
  }

  lemma XmlDeclarationIsPlain()
    ensures !IsCueLine(XmlDeclaration) && '\n' !in XmlDeclaration
  {
    NotCueLine(XmlDeclaration);
    assert '\n' !in "<?xml version=\"1.0\"";
    assert '\n' !in " encoding=\"UTF-8\"?>";
  }

  lemma BodyOpenIsPlain()
    ensures !IsCueLine(BodyOpen) && '\n' !in BodyOpen
  {
    NotCueLine(BodyOpen);
  }

  lemma CaptionsOpenIsPlain()
    ensures !IsCueLine(CaptionsOpen) && '\n' !in CaptionsOpen
  {
    NotCueLine(CaptionsOpen);
  }

  lemma NotCueLine(l: string)
    requires |l| >= 2 && l[1] != 'p'
    ensures !IsCueLine(l)
  {
  }

  lemma LinedCons(line: string, lines: seq<string>)
    ensures Lined([line] + lines) == line + "\n" + Lined(lines)
  {
    assert ([line] + lines)[1..] == lines;
  }

  /** Lines without newlines, each written with one, split back into the same lines. */
  lemma {:induction false} SplitLined(lines: seq<string>, rest: string)
    requires forall k :: 0 <= k < |lines| ==> '\n' !in lines[k]
    ensures Split(Lined(lines) + rest, '\n') == lines + Split(rest, '\n')
    decreases |lines|
  {
    if lines == [] {
      assert Lined(lines) + rest == rest;
    } else {
      var h, t := lines[0], lines[1..];
      var tail := Lined(t) + rest;
      assert '\n' !in h;
      forall k | 0 <= k < |t| ensures '\n' !in t[k] { assert t[k] == lines[k + 1]; }
      SplitLined(t, rest);
      assert lines == [h] + t;
      LinedSplitHead(h, t, rest);
      SplitAt(h, '\n', tail);
      var sr, st := Split(rest, '\n'), Split(tail, '\n');
      assert Split(Lined(lines) + rest, '\n') == [h] + st;
      assert st == t + sr;
      SeqAssoc([h], t, sr);
    }
  }

  lemma SeqAssoc<T>(a: seq<T>, b: seq<T>, c: seq<T>)
    ensures a + (b + c) == (a + b) + c
  {
  }

  lemma LinedSplitHead(h: string, t: seq<string>, rest: string)
    ensures Lined([h] + t) + rest == h + ['\n'] + (Lined(t) + rest)
  {
    LinedCons(h, t);
  }

  lemma HeaderLines()
    ensures Header == Lined(HeadLines)
  {
    LinedCons(CaptionsOpen, []);
    LinedCons(BodyOpen, [CaptionsOpen]);
    LinedCons(TtOpen, [BodyOpen, CaptionsOpen]);
    LinedCons(XmlDeclaration, [TtOpen, BodyOpen, CaptionsOpen]);
  }

  /** The footer splits into its three lines. */
  lemma SplitFooter()
    ensures Split(Footer, '\n') == FootLines
  {
    FootPlain();
    SplitThree(FootLines[0], FootLines[1], FootLines[2]);
    assert FootLines == [FootLines[0], FootLines[1], FootLines[2]];
  }

  lemma FootPlain()
    ensures '\n' !in FootLines[0] && '\n' !in FootLines[1] && '\n' !in FootLines[2]
  {
  }

  /** Three lines joined by newlines split back into them. */
  lemma SplitThree(a: string, b: string, c: string)
    requires '\n' !in a && '\n' !in b && '\n' !in c
    ensures Split(a + "\n" + b + "\n" + c, '\n') == [a, b, c]
  {
    SplitNone(c, '\n');
    SplitAt(b, '\n', c);
    assert a + "\n" + b + "\n" + c == a + ['\n'] + (b + ['\n'] + c);
    SplitAt(a, '\n', b + ['\n'] + c);
  }

  /** Header lines, then body lines, each with its newline, then a tail: the split gives them back. */
  lemma SplitFramed(head: seq<string>, body: seq<string>, tail: string, foot: seq<string>)
    requires forall k :: 0 <= k < |head| ==> '\n' !in head[k]
    requires forall k :: 0 <= k < |body| ==> '\n' !in body[k]
    requires Split(tail, '\n') == foot
    ensures Split(Lined(head) + (Lined(body) + tail), '\n') == head + body + foot
  {
    SplitLined(body, tail);
    SplitLined(head, Lined(body) + tail);
    SeqAssoc(head, body, foot);
  }

  /** The header lines read as nothing, then each rendered line reads as its cue. */
  lemma {:induction false} ReadBody(cues: seq<Cue>, head: seq<string>)
    requires forall k :: 0 <= k < |cues| ==> Printable(cues[k])
    requires forall k :: 0 <= k < |head| ==> !IsCueLine(head[k])
    ensures ReadCues(head + Renders(cues)) == Ok(cues)
    decreases |cues|
  {
    if cues == [] {
      ReadPlain(head);
      assert head + Renders(cues) == head;
    } else {
      var n := |cues| - 1;
      var prefix, c := cues[..n], cues[n];
      ReadBody(prefix, head);
      BodyStep(head, cues);
    }
  }

  lemma BodyStep(head: seq<string>, cues: seq<Cue>)
    requires cues != [] && Printable(cues[|cues| - 1])
    requires ReadCues(head + Renders(cues[..|cues| - 1])) == Ok(cues[..|cues| - 1])
    ensures ReadCues(head + Renders(cues)) == Ok(cues)
  {
    var n := |cues| - 1;
    var prefix, c := cues[..n], cues[n];
    RendersSnoc(cues);
    var lines := head + Renders(prefix);
    SeqAssoc(head, Renders(prefix), [Render(c)]);
    ReadRendered(lines, prefix, c);
    var all := head + Renders(cues);
    assert all == lines + [Render(c)];
    SnocParts(cues);
  }

  lemma SnocParts<T>(s: seq<T>)
    requires s != []
    ensures s[..|s| - 1] + [s[|s| - 1]] == s
  {
  }

  /** Lines none of which is a cue line read as no cues. */
  lemma ReadPlain(lines: seq<string>)
    requires forall k :: 0 <= k < |lines| ==> !IsCueLine(lines[k])
    ensures ReadCues(lines) == Ok([])
  {
    ReadSkipAll([], lines);
    assert [] + lines == lines;
  }

  lemma RendersSnoc(cues: seq<Cue>)
    requires cues != []
    ensures Renders(cues) == Renders(cues[..|cues| - 1]) + [Render(cues[|cues| - 1])]
  {
  }

  /** A rendered line after lines that read well adds its cue. */
  lemma ReadRendered(lines: seq<string>, cues: seq<Cue>, c: Cue)
    requires ReadCues(lines) == Ok(cues) && Printable(c)
    ensures ReadCues(lines + [Render(c)]) == Ok(cues + [c])
  {
    var all := lines + [Render(c)];
    assert all[..|all| - 1] == lines && all[|all| - 1] == Render(c);
    ParseRender(c);
    assert Render(c)[..8] == "<p begin";
  }

  /** Lines that are not cue lines, appended at the end, change nothing. */
  lemma {:induction false} ReadSkipAll(lines: seq<string>, tail: seq<string>)
    requires forall k :: 0 <= k < |tail| ==> !IsCueLine(tail[k])
    ensures ReadCues(lines + tail) == ReadCues(lines)
    decreases |tail|
  {
    if tail != [] {
      var n := |tail| - 1;
      ReadSkipAll(lines, tail[..n]);
      assert (lines + tail)[..|lines + tail| - 1] == lines + tail[..n];
      assert (lines + tail)[|lines + tail| - 1] == tail[n];
    } else {
      assert lines + tail == lines;
    }
  }
}
