/**
 * The handful of Python 2 string operations the subtitle scripts rely on,
 * written out for byte strings (modelled as seq<char>).
 */
module Text {

  /** Whitespace as Python 2's str.strip() and str.split() see it. */
  predicate IsSpace(c: char) {
    c == ' ' || c == '\t' || c == '\n' || c == '\r' || c == '\U{000B}' || c == '\U{000C}'
  }

  predicate NoSpace(s: string) {
    forall i :: 0 <= i < |s| ==> !IsSpace(s[i])
  }

  predicate AllSpace(s: string) {
    forall i :: 0 <= i < |s| ==> IsSpace(s[i])
  }

  /** str.startswith(prefix) */
  predicate StartsWith(s: string, prefix: string) {
    |prefix| <= |s| && s[..|prefix|] == prefix
  }

  /** The leading whitespace of s removed. */
  function TrimLeft(s: string): (r: string)
    ensures |r| <= |s| && r == s[|s| - |r|..]
    ensures r == [] || !IsSpace(r[0])
    ensures AllSpace(s[..|s| - |r|])
  {
    if s != [] && IsSpace(s[0]) then TrimLeft(s[1..]) else s
  }

  /** The trailing whitespace of s removed. */
  function TrimRight(s: string): (r: string)
    ensures |r| <= |s| && r == s[..|r|]
    ensures r == [] || !IsSpace(r[|r| - 1])
    ensures AllSpace(s[|r|..])
  {
    if s != [] && IsSpace(s[|s| - 1]) then TrimRight(s[..|s| - 1]) else s
  }

  /**
   * str.strip(): no whitespace at either end, blank exactly when s is all
   * whitespace; StripInfix says it is s with only whitespace cut away.
   */
  function Strip(s: string): (r: string)
    ensures r == [] || (!IsSpace(r[0]) && !IsSpace(r[|r| - 1]))
    ensures r == [] <==> AllSpace(s)
  {
    var t := TrimLeft(s);
    var r := TrimRight(t);
    StripEnds(s, t, r);
    r
  }

  /** The two trims together leave no whitespace at either end, and nothing only when s is blank. */
  lemma StripEnds(s: string, t: string, r: string)
    requires t == TrimLeft(s) && r == TrimRight(t)
    ensures r == [] || (!IsSpace(r[0]) && !IsSpace(r[|r| - 1]))
    ensures r == [] <==> AllSpace(s)
  {
    var k := |s| - |t|;
    assert r != [] ==> r[0] == t[0];
    if r == [] {
      assert t[|r|..] == t;
      assert s[..k] == s;
    }
    assert t != [] ==> t[0] == s[k];
  }

  /** Whitespace in front of a text does not change what it strips to. */
  lemma StripSpaceFront(x: char, t: string)
    requires IsSpace(x)
    ensures Strip([x] + t) == Strip(t)
  {
    TrimLeftSpace(x, t);
  }

  /** Newlines around a text do not change what it strips to. */
  lemma StripPad(x: string)
    ensures Strip("\n" + x + "\n") == Strip(x)
  {
    assert "\n" + x + "\n" == ['\n'] + (x + ['\n']);
    TrimLeftSpace('\n', x + ['\n']);
    if AllSpace(x) {
      TrimLeftBlank(x + ['\n']);
      TrimLeftBlank(x);
    } else {
      TrimLeftAppend(x, ['\n']);
      TrimRightSpace(TrimLeft(x), '\n');
    }
  }

  /** A blank text trims to nothing. */
  lemma TrimLeftBlank(s: string)
    requires AllSpace(s)
    ensures TrimLeft(s) == []
  {
  }

  /** Once a non-space character is met, what follows is kept as it is. */
  lemma {:induction false} TrimLeftAppend(x: string, y: string)
    requires !AllSpace(x)
    ensures TrimLeft(x + y) == TrimLeft(x) + y
    decreases |x|
  {
    assert (x + y)[0] == x[0];
    if IsSpace(x[0]) {
      assert (x + y)[1..] == x[1..] + y;
      assert !AllSpace(x[1..]) by {
        var k :| 0 <= k < |x| && !IsSpace(x[k]);
        assert x[1..][k - 1] == x[k];
      }
      TrimLeftAppend(x[1..], y);
    }
  }

  /** strip() keeps one stretch of s and cuts away only whitespace before and after it. */
  lemma StripInfix(s: string)
    ensures exists a ::
              0 <= a && a + |Strip(s)| <= |s| && Strip(s) == s[a..a + |Strip(s)|] &&
              AllSpace(s[..a]) && AllSpace(s[a + |Strip(s)|..])
  {
    var t := TrimLeft(s);
    var r := TrimRight(t);
    var k := |s| - |t|;
    assert Strip(s) == r;
    assert t == s[k..] && r == t[..|r|];
    assert r == s[k..k + |r|];
    assert s[k + |r|..] == t[|r|..];
    assert AllSpace(s[..k]) && AllSpace(s[k + |r|..]);
  }

  /** A string already free of surrounding whitespace strips to itself. */
  lemma StripFixed(s: string)
    requires s == [] || (!IsSpace(s[0]) && !IsSpace(s[|s| - 1]))
    ensures Strip(s) == s
  {
  }

  /** Whitespace in front is trimmed away. */
  lemma TrimLeftSpace(x: char, t: string)
    requires IsSpace(x)
    ensures TrimLeft([x] + t) == TrimLeft(t)
  {
    assert ([x] + t)[1..] == t;
  }

  /** Whitespace at the end is trimmed away. */
  lemma TrimRightSpace(t: string, x: char)
    requires IsSpace(x)
    ensures TrimRight(t + [x]) == TrimRight(t)
  {
    assert (t + [x])[..|t|] == t;
  }

  /** A string that starts with a non-space character is kept whole by TrimLeft. */
  lemma TrimLeftFixed(s: string)
    requires s != [] && !IsSpace(s[0])
    ensures TrimLeft(s) == s
  {
  }

  /** A string that ends with a non-space character is kept whole by TrimRight. */
  lemma TrimRightFixed(s: string)
    requires s != [] && !IsSpace(s[|s| - 1])
    ensures TrimRight(s) == s
  {
  }

  /** sep.join(parts) */
  function Join(parts: seq<string>, sep: string): string
  {
    if |parts| == 0 then ""
    else if |parts| == 1 then parts[0]
    else parts[0] + sep + Join(parts[1..], sep)
  }

  lemma JoinCons(p: string, parts: seq<string>, sep: string)
    requires |parts| >= 1
    ensures Join([p] + parts, sep) == p + sep + Join(parts, sep)
  {
    assert ([p] + parts)[1..] == parts;
  }

  /** Extending the first part by one character extends the joined string. */
  lemma JoinConsHead(x: char, parts: seq<string>, sep: string)
    requires |parts| >= 1
    ensures Join([[x] + parts[0]] + parts[1..], sep) == [x] + Join(parts, sep)
  {
    if |parts| > 1 {
      JoinCons([x] + parts[0], parts[1..], sep);
      assert parts == [parts[0]] + parts[1..];
      JoinCons(parts[0], parts[1..], sep);
    }
  }

  /** s.split(c) for a one-character separator: nothing is lost and no part holds c. */
  function Split(s: string, c: char): (r: seq<string>)
    ensures |r| >= 1
    ensures forall i :: 0 <= i < |r| ==> c !in r[i]
    ensures Join(r, [c]) == s
    decreases |s|
  {
    if s == [] then [""]
    else
      var rest := Split(s[1..], c);
      if s[0] == c then
        JoinCons("", rest, [c]);
        [""] + rest
      else
        JoinConsHead(s[0], rest, [c]);
        [[s[0]] + rest[0]] + rest[1..]
  }

  /** Splitting at the first occurrence of c. */
  lemma {:induction false} SplitAt(a: string, c: char, b: string)
    requires c !in a
    ensures Split(a + [c] + b, c) == [a] + Split(b, c)
    decreases |a|
  {
    if a == [] {
      assert a + [c] + b == [c] + b;
      SplitSep(b, c);
    } else {
      assert a + [c] + b == [a[0]] + (a[1..] + [c] + b);
      SplitAt(a[1..], c, b);
      SplitCons(a[0], a[1..] + [c] + b, c);
      assert [a[0]] + a[1..] == a;
    }
  }

  /** A separator in front starts with an empty part. */
  lemma SplitSep(t: string, c: char)
    ensures Split([c] + t, c) == [""] + Split(t, c)
  {
    assert ([c] + t)[1..] == t;
  }

  /** Another character in front joins the first part. */
  lemma SplitCons(x: char, t: string, c: char)
    requires x != c
    ensures Split([x] + t, c) == [[x] + Split(t, c)[0]] + Split(t, c)[1..]
  {
    assert ([x] + t)[1..] == t;
  }

  /** Splitting a part that holds no separator. */
  lemma SplitNone(a: string, c: char)
    requires c !in a
    ensures Split(a, c) == [a]
    decreases |a|
  {
    if a != [] {
      SplitNone(a[1..], c);
      assert [a[0]] + a[1..] == a;
    }
  }

  /** The longest prefix of s without whitespace. */
  function WordPrefix(s: string): (w: string)
    ensures |w| <= |s| && w == s[..|w|] && NoSpace(w)
    ensures |w| == |s| || IsSpace(s[|w|])
  {
    if s == [] || IsSpace(s[0]) then "" else [s[0]] + WordPrefix(s[1..])
  }

  /** s.split() with no argument: the maximal runs of non-whitespace, in order. */
  function Words(s: string): (r: seq<string>)
    ensures forall i :: 0 <= i < |r| ==> r[i] != [] && NoSpace(r[i])
    decreases |s|
  {
    if s == [] then []
    else if IsSpace(s[0]) then Words(s[1..])
    else
      var w := WordPrefix(s);
      [w] + Words(s[|w|..])
  }

  /** A word followed by whitespace or by nothing is the first token. */
  lemma WordsCons(a: string, rest: string)
    requires a != [] && NoSpace(a)
    requires rest == [] || IsSpace(rest[0])
    ensures Words(a + rest) == [a] + Words(rest)
  {
    var s := a + rest;
    var w := WordPrefix(s);
    assert forall j :: 0 <= j < |a| ==> s[j] == a[j];
    assert rest != [] ==> s[|a|] == rest[0];
    assert w == a;
    assert s[|a|..] == rest;
  }

  /** The tokens of "<start> --> <end>". */
  lemma WordsOfTimeLine(start: string, end: string)
    requires start != [] && NoSpace(start)
    requires end != [] && NoSpace(end)
    ensures Words(start + " --> " + end) == [start, "-->", end]
  {
    assert NoSpace("-->");
    WordsOfThree(start, "-->", end);
    assert start + " --> " + end == start + ([' '] + ("-->" + ([' '] + end)));
  }

  /** Three words separated by single spaces. */
  lemma WordsOfThree(a: string, b: string, c: string)
    requires a != [] && NoSpace(a) && b != [] && NoSpace(b) && c != [] && NoSpace(c)
    ensures Words(a + ([' '] + (b + ([' '] + c)))) == [a, b, c]
  {
    var tail := [' '] + c;
    WordsCons(c, "");
    assert c + "" == c;
    WordsSkip(' ', c);
    WordsCons(b, tail);
    WordsSkip(' ', b + tail);
    WordsCons(a, [' '] + (b + tail));
  }

  /** Leading whitespace yields no token. */
  lemma WordsSkip(x: char, t: string)
    requires IsSpace(x)
    ensures Words([x] + t) == Words(t)
  {
    assert ([x] + t)[1..] == t;
  }

  /** s.replace(target, replacement) for single characters. */
  function Replace(s: string, target: char, replacement: char): (r: string)
    ensures |r| == |s|
    ensures forall i :: 0 <= i < |s| ==> r[i] == if s[i] == target then replacement else s[i]
  {
    if s == [] then ""
    else [if s[0] == target then replacement else s[0]] + Replace(s[1..], target, replacement)
  }

  /** The number of occurrences of c in s. */
  function Count(s: string, c: char): nat
  {
    if s == [] then 0 else (if s[0] == c then 1 else 0) + Count(s[1..], c)
  }

  lemma {:induction false} CountAppend(a: string, b: string, c: char)
    ensures Count(a + b, c) == Count(a, c) + Count(b, c)
  {
    if a == [] {
      assert a + b == b;
    } else {
      assert (a + b)[1..] == a[1..] + b;
      CountAppend(a[1..], b, c);
    }
  }

  lemma {:induction false} CountAbsent(s: string, c: char)
    requires c !in s
    ensures Count(s, c) == 0
  {
    if s != [] {
      CountAbsent(s[1..], c);
    }
  }

  /** A blank line: two consecutive newlines starting at position p. */
  predicate BlankLineAt(s: string, p: int) {
    0 <= p && p + 1 < |s| && s[p] == '\n' && s[p + 1] == '\n'
  }

  predicate NoBlankLine(s: string) {
    forall p :: 0 <= p < |s| ==> !BlankLineAt(s, p)
  }

  /**
   * s.split("\n\n"): nothing is lost, no part holds a blank line, and every
   * cut is the leftmost one (no part but the last ends with a newline that
   * could have started the cut earlier).
   */
  function SplitOnBlankLine(s: string): (r: seq<string>)
    ensures |r| >= 1
    ensures Join(r, "\n\n") == s
    ensures forall k :: 0 <= k < |r| ==> NoBlankLine(r[k])
    ensures forall k :: 0 <= k < |r| - 1 ==> r[k] == [] || r[k][|r[k]| - 1] != '\n'
    decreases |s|
  {
    if |s| < 2 then [s]
    else if s[0] == '\n' && s[1] == '\n' then
      var rest := SplitOnBlankLine(s[2..]);
      JoinCons("", rest, "\n\n");
      assert s == "\n\n" + s[2..];
      [""] + rest
    else
      var rest := SplitOnBlankLine(s[1..]);
      JoinConsHead(s[0], rest, "\n\n");
      ConsPart(s, rest);
      [[s[0]] + rest[0]] + rest[1..]
  }

  /** The part a character joins in front keeps both properties of a part. */
  lemma ConsPart(s: string, rest: seq<string>)
    requires |s| >= 2 && !(s[0] == '\n' && s[1] == '\n')
    requires |rest| >= 1 && Join(rest, "\n\n") == s[1..] && NoBlankLine(rest[0])
    requires |rest| > 1 ==> rest[0] == [] || rest[0][|rest[0]| - 1] != '\n'
    ensures NoBlankLine([s[0]] + rest[0])
    ensures |rest| > 1 ==> ([s[0]] + rest[0])[|rest[0]|] != '\n'
  {
    var p := rest[0];
    if |rest| > 1 {
      JoinCons(p, rest[1..], "\n\n");
      assert rest == [p] + rest[1..];
    }
    assert |p| <= |s[1..]| && p == s[1..][..|p|] by {
      if |rest| > 1 {
        assert s[1..] == p + "\n\n" + Join(rest[1..], "\n\n");
      }
    }
    if p != [] {
      assert p[0] == s[1];
    } else if |rest| > 1 {
      assert s[1..] == "\n\n" + Join(rest[1..], "\n\n");
      assert s[1] == '\n';
    }
    assert NoBlankLine([s[0]]);
    NoBlankLineConcat([s[0]], p);
  }

  /**
   * A "\n\n" after a text that does not end with a newline is a cut of its
   * own: the parts of the whole are the parts of the two sides.
   */
  lemma {:induction false} SplitOnBlankLineAppend(a: string, b: string)
    requires a == [] || a[|a| - 1] != '\n'
    ensures SplitOnBlankLine(a + "\n\n" + b) == SplitOnBlankLine(a) + SplitOnBlankLine(b)
    decreases |a|
  {
    if a == [] {
      assert a + "\n\n" + b == "\n\n" + b;
      SplitOnBlankLineCut(b);
    } else if |a| >= 2 && a[0] == '\n' && a[1] == '\n' {
      var t := a[2..];
      assert a == "\n\n" + t;
      SplitOnBlankLineAppend(t, b);
      AppendAfterCut(t, b);
    } else {
      var t := a[1..];
      assert a == [a[0]] + t;
      SplitOnBlankLineAppend(t, b);
      AppendAfterChar(a[0], t, b);
    }
  }

  lemma AppendAfterCut(t: string, b: string)
    requires SplitOnBlankLine(t + "\n\n" + b) == SplitOnBlankLine(t) + SplitOnBlankLine(b)
    ensures SplitOnBlankLine("\n\n" + t + "\n\n" + b) == SplitOnBlankLine("\n\n" + t) + SplitOnBlankLine(b)
  {
    assert "\n\n" + t + "\n\n" + b == "\n\n" + (t + "\n\n" + b);
    SplitOnBlankLineCut(t);
    SplitOnBlankLineCut(t + "\n\n" + b);
    PartsAssoc([""], SplitOnBlankLine(t), SplitOnBlankLine(b));
  }

  lemma PartsAssoc(x: seq<string>, y: seq<string>, z: seq<string>)
    ensures x + (y + z) == (x + y) + z
  {
  }

  lemma AppendAfterChar(x: char, t: string, b: string)
    requires x != '\n' || (t != [] && t[0] != '\n')
    requires SplitOnBlankLine(t + "\n\n" + b) == SplitOnBlankLine(t) + SplitOnBlankLine(b)
    ensures SplitOnBlankLine([x] + t + "\n\n" + b) == SplitOnBlankLine([x] + t) + SplitOnBlankLine(b)
  {
    assert [x] + t + "\n\n" + b == [x] + (t + "\n\n" + b);
    assert (t + "\n\n" + b)[0] == if t == [] then '\n' else t[0];
    var l, r := SplitOnBlankLine(t), SplitOnBlankLine(b);
    SplitOnBlankLineChar(x, t);
    SplitOnBlankLineChar(x, t + "\n\n" + b);
    PartsCons([x] + l[0], l, r);
  }

  /** Replacing the first part before appending, or after: the same parts. */
  lemma PartsCons(p: string, l: seq<string>, r: seq<string>)
    requires l != []
    ensures [p] + (l + r)[1..] == ([p] + l[1..]) + r
  {
    assert (l + r)[1..] == l[1..] + r;
  }

  /** A "\n\n" in front is cut off as an empty part. */
  lemma SplitOnBlankLineCut(t: string)
    ensures SplitOnBlankLine("\n\n" + t) == [""] + SplitOnBlankLine(t)
  {
    assert ("\n\n" + t)[2..] == t;
  }

  /** Any other character in front joins the first part. */
  lemma SplitOnBlankLineChar(x: char, t: string)
    requires !(x == '\n' && t != [] && t[0] == '\n')
    ensures SplitOnBlankLine([x] + t) == [[x] + SplitOnBlankLine(t)[0]] + SplitOnBlankLine(t)[1..]
  {
    assert ([x] + t)[1..] == t;
    if t == [] {
      assert SplitOnBlankLine(t) == [""];
    }
  }

  /** A string with no blank line is not cut at all. */
  lemma SplitOnBlankLineNone(a: string)
    requires NoBlankLine(a)
    ensures SplitOnBlankLine(a) == [a]
    decreases |a|
  {
    if |a| >= 2 {
      assert !BlankLineAt(a, 0);
      forall p | 0 <= p < |a| - 1 ensures !BlankLineAt(a[1..], p) {
        assert !BlankLineAt(a, p + 1);
      }
      SplitOnBlankLineNone(a[1..]);
      assert [a[0]] + a[1..] == a;
    }
  }

  /** Concatenation creates a blank line only where a newline meets a newline. */
  lemma NoBlankLineConcat(a: string, b: string)
    requires NoBlankLine(a) && NoBlankLine(b)
    requires a == [] || b == [] || a[|a| - 1] != '\n' || b[0] != '\n'
    ensures NoBlankLine(a + b)
  {
    var s := a + b;
    forall p | 0 <= p < |s| ensures !BlankLineAt(s, p) {
      if BlankLineAt(s, p) {
        if p + 1 < |a| {
          assert BlankLineAt(a, p);
        } else if p >= |a| {
          assert BlankLineAt(b, p - |a|);
        }
      }
    }
  }

  lemma NoBlankLineWithoutNewline(a: string)
    requires '\n' !in a
    ensures NoBlankLine(a)
  {
    forall p | 0 <= p < |a| ensures !BlankLineAt(a, p) {
      assert a[p] in a;
    }
  }
}
