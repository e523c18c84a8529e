/** Words and numerals as the Rust standard library cuts and reads them. */
module Words {
  import opened Seqs
  import opened Text

  // ----- words -----

  predicate NotBlankChar(c: char) {
    !IsSpace(c)
  }

  predicate IsWord(w: string) {
    w != "" && HasNone(IsSpace, w)
  }

  predicate AreWords(ws: seq<string>) {
    forall i :: 0 <= i < |ws| ==> IsWord(ws[i])
  }

  /** `str::split_whitespace`. */
  function SplitWhitespace(s: string): (ws: seq<string>)
    decreases |s|
  {
    var k := FirstIndex(NotBlankChar, s);
    if k == |s| then []
    else
      var n := FirstIndex(IsSpace, s[k..]);
      [s[k..k + n]] + SplitWhitespace(s[k + n..])
  }

  function Join(ws: seq<string>): string {
    if ws == [] then "" else if |ws| == 1 then ws[0] else ws[0] + " " + Join(ws[1..])
  }

  lemma SplitAtWord(s: string, k: nat, n: nat)
    requires k == FirstIndex(NotBlankChar, s) < |s| && n == FirstIndex(IsSpace, s[k..])
    ensures SplitWhitespace(s) == [s[k..k + n]] + SplitWhitespace(s[k + n..])
  {
    hide FirstIndex, HasNone, NotBlankChar, IsSpace;
  }

  lemma SplitNoWord(s: string)
    requires FirstIndex(NotBlankChar, s) == |s|
    ensures SplitWhitespace(s) == []
  {
    hide FirstIndex, HasNone, NotBlankChar, IsSpace;
  }

  lemma FoundWord(s: string, k: nat, n: nat)
    requires k == FirstIndex(NotBlankChar, s) < |s| && n == FirstIndex(IsSpace, s[k..])
    ensures 0 < n && k + n <= |s| && IsWord(s[k..k + n])
  {
    assert s[k..k + n] == s[k..][..n];
  }

  lemma AreWordsCons(w: string, ws: seq<string>)
    requires IsWord(w) && AreWords(ws)
    ensures AreWords([w] + ws)
  {
  }

  lemma {:induction false} SplitGivesWords(s: string)
    ensures AreWords(SplitWhitespace(s))
    decreases |s|
  {
    hide SplitWhitespace, FirstIndex, HasNone, IsWord, AreWords;
    var k := FirstIndex(NotBlankChar, s);
    if k < |s| {
      var n := FirstIndex(IsSpace, s[k..]);
      FoundWord(s, k, n);
      SplitGivesWords(s[k + n..]);
      SplitAtWord(s, k, n);
      AreWordsCons(s[k..k + n], SplitWhitespace(s[k + n..]));
    } else {
      SplitNoWord(s);
      NoWords();
    }
  }

  lemma NoWords()
    ensures AreWords([])
  {
  }

  lemma ShiftedSlices(c: char, s: string, k: nat, n: nat)
    requires k <= |s| && k + n <= |s|
    ensures ([c] + s)[1 + k..] == s[k..] && ([c] + s)[1 + k..1 + k + n] == s[k..k + n]
    ensures ([c] + s)[1 + k + n..] == s[k + n..]
  {
  }

  lemma WordFirst(w: string, rest: string)
    requires IsWord(w) && (rest == "" || IsSpace(rest[0]))
    ensures SplitWhitespace(w + rest) == [w] + SplitWhitespace(rest)
  {
    hide SplitWhitespace, FirstIndex;
    assert !IsSpace(w[0]);
    FirstIndexOf(NotBlankChar, "", w + rest);
    assert "" + (w + rest) == w + rest;
    assert (w + rest)[0..] == w + rest;
    FirstIndexOf(IsSpace, w, rest);
    SplitAtWord(w + rest, 0, |w|);
    assert (w + rest)[0..0 + |w|] == w && (w + rest)[0 + |w|..] == rest;
  }

  lemma SpaceFirst(c: char, s: string)
    requires IsSpace(c)
    ensures SplitWhitespace([c] + s) == SplitWhitespace(s)
  {
    hide FirstIndex, SplitWhitespace;
    assert HasNone(NotBlankChar, [c]);
    FirstIndexSkip(NotBlankChar, [c], s);
    var k := FirstIndex(NotBlankChar, s);
    if k < |s| {
      ShiftedSlices(c, s, k, FirstIndex(IsSpace, s[k..]));
      SplitAtWord(s, k, FirstIndex(IsSpace, s[k..]));
      SplitAtWord([c] + s, 1 + k, FirstIndex(IsSpace, s[k..]));
    } else {
      SplitNoWord(s);
      SplitNoWord([c] + s);
    }
  }

  lemma {:induction false} OnlySpace(s: string)
    requires AllSpace(s)
    ensures SplitWhitespace(s) == []
  {
    hide SplitWhitespace;
    if s == "" {
      SplitNothing();
    } else {
      OnlySpace(s[1..]);
      SpaceFirst(s[0], s[1..]);
      assert s == [s[0]] + s[1..];
    }
  }

  lemma SplitNothing()
    ensures SplitWhitespace("") == []
  {
  }

  /** Words put together with single blanks, and blank space behind them, split into those words. */
  lemma {:induction false} SplitJoin(ws: seq<string>, tail: string)
    requires AreWords(ws) && AllSpace(tail)
    ensures SplitWhitespace(Join(ws) + tail) == ws
  {
    hide SplitWhitespace;
    if ws == [] {
      assert Join(ws) + tail == tail;
      OnlySpace(tail);
    } else if |ws| == 1 {
      OnlySpace(tail);
      WordFirst(ws[0], tail);
      assert ws == [ws[0]];
    } else {
      SplitJoin(ws[1..], tail);
      var rest := Join(ws[1..]) + tail;
      SpaceFirst(' ', rest);
      WordFirst(ws[0], [' '] + rest);
      assert Join(ws) + tail == ws[0] + ([' '] + rest);
    }
  }

  lemma WordHasNoNewline(w: string)
    requires IsWord(w)
    ensures NoNewline(w)
  {
    forall i | 0 <= i < |w| ensures w[i] != '\n' {
      assert !IsSpace(w[i]);
    }
  }

  // ----- lower case -----

  function Lower(c: char): char {
    if 'A' <= c <= 'Z' then (c as int + 32) as char else c
  }

  /** `str::to_ascii_lowercase`. */
  function AsciiLower(s: string): string {
    Map(Lower, s)
  }

  // ----- splitting at one character -----

  function Is(c: char): char -> bool {
    x => x == c
  }

  /** `str::split_once` with a character. */
  function SplitOnce(s: string, c: char): Option<(string, string)> {
    var n := FirstIndex(Is(c), s);
    if n == |s| then None else Some((s[..n], s[n + 1..]))
  }

  /** `str::rsplit_once` with a character. */
  function RSplitOnce(s: string, c: char): Option<(string, string)> {
    if s == "" then None
    else if s[|s| - 1] == c then Some((s[..|s| - 1], ""))
    else
      match RSplitOnce(s[..|s| - 1], c)
      case None => None
      case Some(parts) => Some((parts.0, parts.1 + [s[|s| - 1]]))
  }

  lemma SplitOnceOf(a: string, c: char, b: string)
    requires c !in a
    ensures SplitOnce(a + [c] + b, c) == Some((a, b))
  {
    hide FirstIndex;
    FirstIndexOf(Is(c), a, [c] + b);
    assert a + ([c] + b) == a + [c] + b;
    assert (a + [c] + b)[..|a|] == a && (a + [c] + b)[|a| + 1..] == b;
  }

  lemma {:induction false} RSplitOnceOf(a: string, c: char, b: string)
    requires c !in b
    ensures RSplitOnce(a + [c] + b, c) == Some((a, b))
    decreases |b|
  {
    var s := a + [c] + b;
    if b == "" {
      assert s[..|s| - 1] == a;
    } else {
      assert s[..|s| - 1] == a + [c] + b[..|b| - 1];
      RSplitOnceOf(a, c, b[..|b| - 1]);
      assert b[..|b| - 1] + [b[|b| - 1]] == b;
    }
  }

  lemma {:induction false} RSplitOnceParts(s: string, c: char)
    requires RSplitOnce(s, c).Some?
    ensures var parts := RSplitOnce(s, c).value; s == parts.0 + [c] + parts.1
  {
    var n := |s| - 1;
    if s[n] != c {
      RSplitOnceParts(s[..n], c);
      assert s == s[..n] + [s[n]];
    } else {
      assert s == s[..n] + [c] + "";
    }
  }

  // ----- numerals -----

  function Digit(n: nat): char
    requires n < 10
  {
    '0' + n as char
  }

  predicate IsDigit(c: char) {
    '0' <= c <= '9'
  }

  predicate AllDigits(s: string) {
    forall i :: 0 <= i < |s| ==> IsDigit(s[i])
  }

  function NatText(n: nat): string {
    if n < 10 then [Digit(n)] else NatText(n / 10) + [Digit(n % 10)]
  }

  function Value(s: string): nat
    requires AllDigits(s)
  {
    if s == "" then 0 else 10 * Value(s[..|s| - 1]) + (s[|s| - 1] as int - '0' as int)
  }

  /** `str::parse` for an unsigned type with the given number of values: an optional plus sign
      and decimal digits. */
  function ParseUnsigned(s: string, values: nat): (r: Option<nat>)
    ensures r.Some? ==> r.value < values
  {
    var digits := if s != "" && s[0] == '+' then s[1..] else s;
    if digits == "" || !AllDigits(digits) then None
    else if Value(digits) < values then Some(Value(digits)) else None
  }

  predicate IsNumeral(s: string, n: nat) {
    s != "" && AllDigits(s) && Value(s) == n
  }

  /** Only decimal numerals are read, with a plus sign or without. */
  lemma ParsedExactly(s: string, values: nat, n: nat)
    ensures ParseUnsigned(s, values) == Some(n) <==>
      n < values && (IsNumeral(s, n) || (s != "" && s[0] == '+' && IsNumeral(s[1..], n)))
  {
    hide Value;
    if s != "" && s[0] == '+' { assert !IsDigit(s[0]); }
  }

  lemma DigitIsDigit(n: nat)
    requires n < 10
    ensures IsDigit(Digit(n)) && Digit(n) as int - '0' as int == n
  {
  }

  lemma {:induction false} NatTextValue(n: nat)
    ensures NatText(n) != "" && AllDigits(NatText(n)) && Value(NatText(n)) == n
  {
    if n < 10 {
      DigitIsDigit(n);
      assert Value("") == 0;
      assert NatText(n)[..0] == "";
    } else {
      NatTextValue(n / 10);
      DigitIsDigit(n % 10);
      assert NatText(n)[..|NatText(n)| - 1] == NatText(n / 10);
    }
  }

  lemma ParseNatText(n: nat, values: nat)
    requires n < values
    ensures ParseUnsigned(NatText(n), values) == Some(n)
  {
    hide NatText, Value;
    NatTextValue(n);
    assert IsDigit(NatText(n)[0]);
  }

  lemma NatTextIsWord(n: nat)
    ensures IsWord(NatText(n))
  {
    hide NatText, Value;
    NatTextValue(n);
    forall i | 0 <= i < |NatText(n)| ensures !IsSpace(NatText(n)[i]) {
      assert IsDigit(NatText(n)[i]);
    }
  }
}
