/** Text as a sequence of Unicode scalar values, cut into lines at '\n' the way the
    standard library does it: terminators stay attached to their line. */
module Text {
  import opened Seqs

  // ----- whitespace -----

  /** The characters with the Unicode White_Space property. */
  predicate IsSpace(c: char) {
    var u := c as int;
    9 <= u <= 13 || u == 32 || u == 0x85 || u == 0xA0 || u == 0x1680 || 0x2000 <= u <= 0x200A
    || u == 0x2028 || u == 0x2029 || u == 0x202F || u == 0x205F || u == 0x3000
  }

  /** Tab to carriage return, the blank, and the blanks beyond ASCII. */
  lemma SpacesAre(c: char)
    ensures IsSpace(c) <==>
      c as int in {0x09, 0x0A, 0x0B, 0x0C, 0x0D, 0x20, 0x85, 0xA0, 0x1680, 0x2000, 0x2001, 0x2002, 0x2003, 0x2004, 0x2005,
                   0x2006, 0x2007, 0x2008, 0x2009, 0x200A, 0x2028, 0x2029, 0x202F, 0x205F, 0x3000}
  {
  }

  predicate AllSpace(s: string) {
    forall i :: 0 <= i < |s| ==> IsSpace(s[i])
  }

  function TrimStart(s: string): string {
    if s != "" && IsSpace(s[0]) then TrimStart(s[1..]) else s
  }

  function TrimEnd(s: string): string {
    if s != "" && IsSpace(s[|s| - 1]) then TrimEnd(s[..|s| - 1]) else s
  }

  function Trim(s: string): string {
    TrimStart(TrimEnd(s))
  }

  /** A line on which only whitespace is written. */
  predicate Blank(s: string) {
    Trim(s) == ""
  }

  lemma {:induction false} TrimStartParts(s: string) returns (k: nat)
    ensures k <= |s| && AllSpace(s[..k]) && TrimStart(s) == s[k..]
    ensures k == |s| || !IsSpace(s[k])
  {
    if s != "" && IsSpace(s[0]) {
      var j := TrimStartParts(s[1..]);
      k := j + 1;
      assert s[..k] == [s[0]] + s[1..][..j];
    } else {
      k := 0;
    }
  }

  lemma {:induction false} TrimEndParts(s: string)
    ensures TrimEnd(s) <= s && AllSpace(s[|TrimEnd(s)|..])
    ensures TrimEnd(s) == "" || !IsSpace(TrimEnd(s)[|TrimEnd(s)| - 1])
  {
    if s != "" && IsSpace(s[|s| - 1]) {
      TrimEndParts(s[..|s| - 1]);
      var n := |TrimEnd(s)|;
      assert s[n..] == s[..|s| - 1][n..] + [s[|s| - 1]];
    }
  }

  lemma {:induction false} TrimEndUnique(core: string, spaces: string)
    requires core == "" || !IsSpace(core[|core| - 1])
    requires AllSpace(spaces)
    ensures TrimEnd(core + spaces) == core
    decreases |spaces|
  {
    if spaces == "" {
      assert core + spaces == core;
    } else {
      assert (core + spaces)[..|core + spaces| - 1] == core + spaces[..|spaces| - 1];
      TrimEndUnique(core, spaces[..|spaces| - 1]);
    }
  }

  lemma {:induction false} TrimStartUnique(spaces: string, core: string)
    requires core == "" || !IsSpace(core[0])
    requires AllSpace(spaces)
    ensures TrimStart(spaces + core) == core
    decreases |spaces|
  {
    if spaces == "" {
      assert spaces + core == core;
    } else {
      assert (spaces + core)[1..] == spaces[1..] + core;
      TrimStartUnique(spaces[1..], core);
    }
  }

  lemma BlankIsAllSpace(s: string)
    ensures Blank(s) <==> AllSpace(s)
  {
    TrimEndParts(s);
    var e := TrimEnd(s);
    var k := TrimStartParts(e);
    if k < |e| {
      assert s[k] == e[k];
    } else {
      assert s == e + s[|e|..] && e[..k] == e;
    }
  }

  lemma NotBlank(s: string, i: nat)
    requires i < |s| && !IsSpace(s[i])
    ensures !Blank(s)
  {
    BlankIsAllSpace(s);
  }

  // ----- lines -----

  predicate NoNewline(s: string) {
    '\n' !in s
  }

  predicate Terminated(l: string) {
    l != "" && l[|l| - 1] == '\n'
  }

  /** A line as it stands in a text. */
  function WithBreak(l: string): string {
    l + "\n"
  }

  /** The lines with a line break between two. */
  function JoinLines(ls: seq<string>): string {
    if ls == [] then "" else if |ls| == 1 then ls[0] else ls[0] + "\n" + JoinLines(ls[1..])
  }

  /** The text with a line break at its end. */
  function Ended(l: string): string {
    if Terminated(l) then l else l + "\n"
  }

  /** A text that is empty or ends in a line break. */
  predicate Whole(content: string) {
    content == "" || Terminated(content)
  }

  /** A non-empty run with '\n' nowhere but possibly at its end. */
  predicate IsLine(l: string) {
    l != "" && NoNewline(l[..|l| - 1])
  }

  /** Every line ends in a line break. */
  predicate FinishedLines(ls: seq<string>) {
    forall i :: 0 <= i < |ls| ==> IsLine(ls[i]) && Terminated(ls[i])
  }

  /** The lines with text put behind the last one. */
  function JoinedLast(ls: seq<string>, x: string): seq<string>
    requires ls != []
  {
    ls[..|ls| - 1] + [ls[|ls| - 1] + x]
  }

  /** Lines as cut out of one text: only the last one may lack its '\n'. */
  predicate WellFormed(ls: seq<string>) {
    (forall i :: 0 <= i < |ls| ==> IsLine(ls[i])) &&
    (forall i :: 0 <= i < |ls| - 1 ==> Terminated(ls[i]))
  }

  /** The length of the first line of s, its terminator included. */
  function FirstLineLength(s: string): (n: nat)
    requires s != ""
    ensures 0 < n <= |s| && IsLine(s[..n])
    ensures n < |s| ==> Terminated(s[..n])
  {
    if s[0] == '\n' || |s| == 1 then 1
    else
      var n := 1 + FirstLineLength(s[1..]);
      assert s[..n][..n - 1] == [s[0]] + s[1..][..n - 1][..n - 2];
      n
  }

  function SplitInclusive(s: string): (ls: seq<string>)
    decreases |s|
  {
    if s == "" then [] else
      var n := FirstLineLength(s);
      [s[..n]] + SplitInclusive(s[n..])
  }

  lemma {:induction false} SplitIsWellFormed(s: string)
    ensures WellFormed(SplitInclusive(s))
    ensures SplitInclusive(s) == [] <==> s == ""
    decreases |s|
  {
    if s != "" {
      var n := FirstLineLength(s);
      SplitIsWellFormed(s[n..]);
    }
  }

  /** Cutting into lines loses nothing. */
  lemma {:induction false} SplitThenFlatten(s: string)
    ensures Flatten(SplitInclusive(s)) == s
    decreases |s|
  {
    if s != "" {
      var n := FirstLineLength(s);
      SplitThenFlatten(s[n..]);
      assert SplitInclusive(s)[1..] == SplitInclusive(s[n..]);
    }
  }

  lemma {:induction false} FirstLineLengthOf(l: string, rest: string)
    requires IsLine(l) && (Terminated(l) || rest == "")
    ensures FirstLineLength(l + rest) == |l|
  {
    var s := l + rest;
    if |l| > 1 {
      assert l[0] in l[..|l| - 1];
      assert l[1..][..|l| - 2] == l[..|l| - 1][1..];
      assert s[1..] == l[1..] + rest;
      FirstLineLengthOf(l[1..], rest);
    }
  }

  /** Well-formed lines are exactly what their concatenation is cut into. */
  lemma {:induction false} FlattenThenSplit(ls: seq<string>)
    requires WellFormed(ls)
    ensures SplitInclusive(Flatten(ls)) == ls
  {
    if ls != [] {
      var l, rest := ls[0], Flatten(ls[1..]);
      assert WellFormed(ls[1..]);
      if |ls| == 1 { assert ls[1..] == []; }
      FirstLineLengthOf(l, rest);
      assert (l + rest)[..|l|] == l && (l + rest)[|l|..] == rest;
      FlattenThenSplit(ls[1..]);
    }
  }

  lemma {:induction false} SubseqWellFormed(xs: seq<string>, ys: seq<string>)
    requires Subseq(xs, ys) && WellFormed(ys)
    ensures WellFormed(xs)
    decreases |ys|
  {
    if xs != [] {
      assert WellFormed(ys[1..]);
      if xs[0] == ys[0] && Subseq(xs[1..], ys[1..]) {
        SubseqWellFormed(xs[1..], ys[1..]);
        assert xs == [xs[0]] + xs[1..];
        if |xs| > 1 {
          assert |ys| > 1;
        }
      } else {
        SubseqWellFormed(xs, ys[1..]);
      }
    }
  }

  lemma SplitFirst(l: string, rest: string)
    requires IsLine(l) && (Terminated(l) || rest == "")
    ensures SplitInclusive(l + rest) == [l] + SplitInclusive(rest)
  {
    FirstLineLengthOf(l, rest);
    assert (l + rest)[..|l|] == l && (l + rest)[|l|..] == rest;
  }

  lemma FirstLineOff(a: string) returns (l: string, rest: string)
    requires Terminated(a)
    ensures a == l + rest && IsLine(l) && Terminated(l) && (rest == "" || Terminated(rest))
  {
    var n := FirstLineLength(a);
    l, rest := a[..n], a[n..];
    LineEndsWithin(a);
  }

  lemma SplitAppendStep(l: string, rest: string, b: string)
    requires IsLine(l) && Terminated(l)
    requires SplitInclusive(rest + b) == SplitInclusive(rest) + SplitInclusive(b)
    ensures SplitInclusive(l + rest + b) == SplitInclusive(l + rest) + SplitInclusive(b)
  {
    hide *;
    SplitFirst(l, rest + b);
    SplitFirst(l, rest);
    assert l + (rest + b) == l + rest + b;
  }

  /** Behind a complete line a text is cut as if it stood alone. */
  lemma {:induction false} SplitAppend(a: string, b: string)
    requires a == "" || Terminated(a)
    ensures SplitInclusive(a + b) == SplitInclusive(a) + SplitInclusive(b)
    decreases |a|
  {
    hide *;
    if a == "" {
      assert a + b == b;
      SplitEmpty();
    } else {
      var l, rest := FirstLineOff(a);
      LineNotEmpty(l);
      SplitAppend(rest, b);
      SplitAppendStep(l, rest, b);
    }
  }

  lemma SplitEmpty()
    ensures SplitInclusive("") == []
  {
  }

  lemma LineNotEmpty(l: string)
    requires IsLine(l)
    ensures l != ""
  {
  }

  lemma LineEndsWithin(a: string)
    requires Terminated(a)
    ensures Terminated(a[..FirstLineLength(a)])
    ensures a[FirstLineLength(a)..] == "" || Terminated(a[FirstLineLength(a)..])
  {
    var n := FirstLineLength(a);
    if n == |a| {
      assert a[..n] == a;
    }
  }

  lemma WholeOf(content: string)
    ensures Whole(content) <==> (content == "" || Terminated(content))
  {
  }

  lemma LastAndInit(lines: seq<string>)
    requires lines != []
    ensures lines == lines[..|lines| - 1] + [lines[|lines| - 1]]
    ensures Flatten(lines) == Flatten(lines[..|lines| - 1]) + lines[|lines| - 1]
  {
    var a, l := lines[..|lines| - 1], lines[|lines| - 1];
    assert lines == a + [l];
    FlattenAppend(a, [l]);
    FlattenOne(l);
  }

  /** Text put behind an unfinished last line lengthens that line. */
  lemma SplitJoined(content: string, x: string)
    requires !Whole(content) && IsLine(x)
    ensures SplitInclusive(content) != []
    ensures SplitInclusive(content + x) == JoinedLast(SplitInclusive(content), x)
  {
    hide Flatten, SplitInclusive, Whole;
    var lines := SplitInclusive(content);
    SplitIsWellFormed(content);
    SplitThenFlatten(content);
    WholeOf(content);
    LastAndInit(lines);
    var a, l := lines[..|lines| - 1], lines[|lines| - 1];
    LastUnfinished(content, Flatten(a), l);
    JoinedIsLine(l, x);
    var out := a + [l + x];
    FlattenAppend(a, [l + x]);
    FlattenOne(l + x);
    assert Flatten(out) == content + x;
    FlattenThenSplit(out);
  }

  lemma LastUnfinished(content: string, before: string, l: string)
    requires content == before + l && l != "" && !Terminated(content)
    ensures !Terminated(l)
  {
  }

  lemma JoinedIsLine(l: string, x: string)
    requires IsLine(l) && !Terminated(l) && IsLine(x)
    ensures IsLine(l + x)
  {
    assert (l + x)[..|l + x| - 1] == l + x[..|x| - 1];
    assert l == l[..|l| - 1] + [l[|l| - 1]];
  }

  lemma UnfinishedLast(content: string)
    requires !Whole(content)
    ensures var lines := SplitInclusive(content); lines != [] && !Terminated(lines[|lines| - 1])
  {
    hide *;
    var lines := SplitInclusive(content);
    assert IsLine("\n") by { BreakIsLine(); }
    SplitJoined(content, "\n");
    SplitIsWellFormed(content);
    SplitThenFlatten(content);
    LastAndInit(lines);
    WellFormedLine(lines, |lines| - 1);
    LineNotEmpty(lines[|lines| - 1]);
    WholeOf(content);
    LastUnfinished(content, Flatten(lines[..|lines| - 1]), lines[|lines| - 1]);
  }

  lemma BreakIsLine()
    ensures IsLine("\n") && Terminated("\n")
  {
    assert "\n"[..0] == "";
  }

  lemma WellFormedLine(lines: seq<string>, i: nat)
    requires WellFormed(lines) && i < |lines|
    ensures IsLine(lines[i])
  {
  }

  /** One line as `str::lines` yields it: without "\n" or "\r\n". */
  function StripEol(l: string): string {
    if !Terminated(l) then l
    else
      var m := l[..|l| - 1];
      if m != "" && m[|m| - 1] == '\r' then m[..|m| - 1] else m
  }

  /** A line break is taken off, and one carriage return before it; nothing else. */
  lemma EolTakenOff(l: string)
    ensures StripEol(l + "\r\n") == l
    ensures l == "" || l[|l| - 1] != '\r' ==> StripEol(l + "\n") == l
    ensures l == "" || l[|l| - 1] != '\n' ==> StripEol(l) == l
  {
    assert (l + "\r\n")[..|l| + 1] == l + "\r" && (l + "\r")[..|l|] == l;
    assert (l + "\n")[..|l|] == l;
  }

  function Lines(s: string): seq<string> {
    Map(StripEol, SplitInclusive(s))
  }

  // ----- UTF-8 sizes -----

  /** The number of bytes of c in UTF-8 (section 3 of RFC 3629). */
  function Utf8Size(c: char): nat {
    var u := c as int;
    if u < 0x80 then 1 else if u < 0x800 then 2 else if u < 0x1_0000 then 3 else 4
  }

  function ByteLen(s: string): nat {
    if s == "" then 0 else Utf8Size(s[0]) + ByteLen(s[1..])
  }

  lemma {:induction false} ByteLenAppend(a: string, b: string)
    ensures ByteLen(a + b) == ByteLen(a) + ByteLen(b)
  {
    if a == "" {
      assert a + b == b;
    } else {
      assert (a + b)[1..] == a[1..] + b;
      ByteLenAppend(a[1..], b);
    }
  }
}
