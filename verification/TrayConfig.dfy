/** `_toml_upsert` of the tray: setting a single value in a TOML text without touching the rest
    of it. */
module TrayConfig {
  import opened Seqs
  import opened Text

  // ----- lines as Python sees them -----

  /** `str.isspace`, which is also what `\s` matches. */
  predicate IsPySpace(c: char) {
    IsSpace(c) || 0x1C <= c as int <= 0x1F
  }

  /** Beside what Unicode calls white space, the four separators of ASCII. */
  lemma PySpacesAre(c: char)
    ensures IsPySpace(c) <==>
      c as int in {0x09, 0x0A, 0x0B, 0x0C, 0x0D, 0x1C, 0x1D, 0x1E, 0x1F, 0x20, 0x85, 0xA0, 0x1680, 0x2000, 0x2001, 0x2002,
                   0x2003, 0x2004, 0x2005, 0x2006, 0x2007, 0x2008, 0x2009, 0x200A, 0x2028, 0x2029, 0x202F, 0x205F, 0x3000}
  {
  }

  predicate IsKeyChar(c: char) {
    'A' <= c <= 'Z' || 'a' <= c <= 'z' || '0' <= c <= '9' || c == '_' || c == '-'
  }

  /** The letters and digits of ASCII, underscore and hyphen. */
  lemma KeyCharsAre(c: char)
    ensures IsKeyChar(c) <==>
      65 <= c as int <= 90 || 97 <= c as int <= 122 || 48 <= c as int <= 57 || c as int == 95 || c as int == 45
  {
    assert '_' as int == 95 && '-' as int == 45;
  }

  predicate NotSpace(c: char) {
    !IsPySpace(c)
  }

  predicate NotKeyChar(c: char) {
    !IsKeyChar(c)
  }

  function StripEnd(s: string): string {
    if s != "" && IsPySpace(s[|s| - 1]) then StripEnd(s[..|s| - 1]) else s
  }

  /** `str.strip`. */
  function Strip(s: string): string {
    StripEnd(s[FirstIndex(NotSpace, s)..])
  }

  /** The indentation of a line. */
  function Indent(l: string): (n: nat)
    ensures n <= |l|
  {
    FirstIndex(NotSpace, l)
  }

  /** Where the run of key characters behind the indentation ends. */
  function KeyEnd(l: string): (n: nat)
    ensures Indent(l) <= n <= |l|
  {
    Indent(l) + FirstIndex(NotKeyChar, l[Indent(l)..])
  }

  function KeyOf(l: string): string {
    l[Indent(l)..KeyEnd(l)]
  }

  /** The line matches the assignment pattern: blank space, a key, blank space, an equals sign. */
  predicate IsAssignment(l: string) {
    var rest := l[KeyEnd(l)..];
    var e := FirstIndex(NotSpace, rest);
    KeyOf(l) != "" && e < |rest| && rest[e] == '='
  }

  predicate Assigns(l: string, key: string) {
    IsAssignment(l) && KeyOf(l) == key
  }

  predicate IsHeaderLine(l: string) {
    var s := Strip(l);
    "[" <= s && s[|s| - 1] == ']'
  }

  // ----- one setting -----

  /** A value to set, at the top level or in a named section. */
  datatype Setting = Setting(section: Option<string>, key: string, value: string)

  predicate IsKey(k: string) {
    k != "" && forall i :: 0 <= i < |k| ==> IsKeyChar(k[i])
  }

  /** What the tray sets: a bare key and a value without a line end. */
  predicate ValidSetting(s: Setting) {
    IsKey(s.key) && NoNewline(s.value) && (s.section.Some? ==> NoNewline(s.section.value))
  }

  function SettingText(key: string, value: string): string {
    key + " = " + value + "\n"
  }

  function HeaderText(section: string): string {
    "[" + section + "]"
  }

  predicate IsSectionHeader(section: string, l: string) {
    Strip(l) == HeaderText(section)
  }

  function HeaderOf(section: string): string -> bool {
    l => IsSectionHeader(section, l)
  }

  function AssignmentOf(key: string): string -> bool {
    l => Assigns(l, key)
  }

  /** The index of the first header line, or the number of lines. */
  function TopEnd(lines: seq<string>): (n: nat)
    ensures n <= |lines|
  {
    FirstIndex(IsHeaderLine, lines)
  }

  function HeaderIndex(lines: seq<string>, section: string): (n: nat)
    ensures n <= |lines|
  {
    FirstIndex(HeaderOf(section), lines)
  }

  predicate HasSection(lines: seq<string>, section: Option<string>) {
    section.None? || HeaderIndex(lines, section.value) < |lines|
  }

  /** The lines that are searched: up to the first header, or from the section's header to the
      end of the text. */
  function RangeStart(lines: seq<string>, section: Option<string>): (n: nat)
    requires HasSection(lines, section)
    ensures n <= |lines|
  {
    if section.None? then 0 else HeaderIndex(lines, section.value) + 1
  }

  function RangeEnd(lines: seq<string>, section: Option<string>): (n: nat)
    requires HasSection(lines, section)
    ensures RangeStart(lines, section) <= n <= |lines|
  {
    if section.None? then TopEnd(lines) else |lines|
  }

  /** The first line of the range that assigns the key, or the end of the range. */
  function KeyIndex(lines: seq<string>, section: Option<string>, key: string): (n: nat)
    requires HasSection(lines, section)
    ensures RangeStart(lines, section) <= n <= RangeEnd(lines, section)
    ensures n < RangeEnd(lines, section) ==> Assigns(lines[n], key)
  {
    var from, to := RangeStart(lines, section), RangeEnd(lines, section);
    from + FirstIndex(AssignmentOf(key), lines[from..to])
  }

  /** The setting as it is written over a line, whose indentation stays. */
  function Rewritten(l: string, key: string, value: string): string {
    l[..Indent(l)] + SettingText(key, value)
  }

  function Separator(content: string): string {
    if content == "" || Terminated(content) then "" else "\n"
  }

  /** `_toml_upsert`. */
  function Upsert(content: string, s: Setting): string {
    var lines := SplitInclusive(content);
    if !HasSection(lines, s.section) then
      content + Separator(content) + "\n" + HeaderText(s.section.value) + "\n" + SettingText(s.key, s.value)
    else
      var i, end := KeyIndex(lines, s.section, s.key), RangeEnd(lines, s.section);
      if i < end then Flatten(lines[i := Rewritten(lines[i], s.key, s.value)])
      else Flatten(lines[..end] + [SettingText(s.key, s.value)] + lines[end..])
  }

  // ----- the loops of `_toml_upsert` -----

  lemma StoppedAt(p: string -> bool, ls: seq<string>, i: nat)
    requires i <= |ls| && HasNone(p, ls[..i]) && (i < |ls| ==> p(ls[i]))
    ensures FirstIndex(p, ls) == i
  {
    hide FirstIndex;
    FirstIndexOf(p, ls[..i], ls[i..]);
    assert ls[..i] + ls[i..] == ls;
  }

  lemma {:induction false} HasNoneNext(p: string -> bool, ls: seq<string>, i: nat)
    requires i < |ls| && HasNone(p, ls[..i]) && !p(ls[i])
    ensures HasNone(p, ls[..i + 1])
  {
  }

  lemma HasNoneEmpty(p: string -> bool, ls: seq<string>)
    ensures HasNone(p, ls[..0])
  {
  }

  /** The shape of all three searches: stop at the first line with the property. */
  method FindLine(p: string -> bool, lines: seq<string>) returns (index: nat)
    ensures index == FirstIndex(p, lines)
  {
    hide FirstIndex, HasNone;
    index := 0;
    HasNoneEmpty(p, lines);
    while index < |lines| && !p(lines[index])
      invariant index <= |lines| && HasNone(p, lines[..index])
    {
      HasNoneNext(p, lines, index);
      index := index + 1;
    }
    StoppedAt(p, lines, index);
  }

  method UpsertLoop(content: string, s: Setting) returns (out: string)
    ensures out == Upsert(content, s)
  {
    hide Strip, Assigns, Flatten, SplitInclusive, Rewritten, IsHeaderLine, IsSectionHeader, SettingText, FirstIndex,
      HasNone;
    var lines := SplitInclusive(content);
    var start, end := 0, |lines|;
    if s.section.Some? {
      var index := FindLine(HeaderOf(s.section.value), lines);
      if index == |lines| {
        return content + Separator(content) + "\n" + HeaderText(s.section.value) + "\n" + SettingText(s.key, s.value);
      }
      start := index + 1;
    } else {
      end := FindLine(IsHeaderLine, lines);
    }
    var offset := FindLine(AssignmentOf(s.key), lines[start..end]);
    var index := start + offset;
    if index < end {
      lines := lines[index := Rewritten(lines[index], s.key, s.value)];
    } else {
      lines := lines[..end] + [SettingText(s.key, s.value)] + lines[end..];
    }
    out := Flatten(lines);
  }

  // ----- what kinds of lines there are -----

  lemma {:induction false} StripEndPrefix(s: string)
    ensures StripEnd(s) <= s
  {
    if s != "" && IsPySpace(s[|s| - 1]) { StripEndPrefix(s[..|s| - 1]); }
  }

  lemma HeaderStartsWithBracket(l: string)
    requires IsHeaderLine(l)
    ensures Indent(l) < |l| && l[Indent(l)] == '['
  {
    StripEndPrefix(l[Indent(l)..]);
  }

  lemma AssignmentStartsWithKey(l: string)
    requires IsAssignment(l)
    ensures Indent(l) < |l| && IsKeyChar(l[Indent(l)])
  {
    var rest := l[Indent(l)..];
    var n := FirstIndex(NotKeyChar, rest);
    assert !NotKeyChar(rest[..n][0]);
  }

  lemma AssignmentIsNoHeader(l: string)
    requires IsAssignment(l)
    ensures !IsHeaderLine(l)
  {
    hide *;
    AssignmentStartsWithKey(l);
    if IsHeaderLine(l) {
      HeaderStartsWithBracket(l);
      BracketIsNoKeyChar();
    }
  }

  lemma BracketIsNoKeyChar()
    ensures !IsKeyChar('[')
  {
  }

  lemma SectionHeaderIsHeader(section: string, l: string)
    requires IsSectionHeader(section, l)
    ensures IsHeaderLine(l)
  {
  }

  /** Blank space and a setting read as an assignment of its key, indented by that space. */
  lemma SettingReads(ind: string, key: string, value: string)
    requires HasNone(NotSpace, ind) && IsKey(key)
    ensures Indent(ind + SettingText(key, value)) == |ind|
    ensures Assigns(ind + SettingText(key, value), key)
  {
    hide FirstIndex, Assigns, AssignsFrom, HasNone;
    var l, tail := ind + SettingText(key, value), " = " + value + "\n";
    KeyStarts(key, tail);
    FirstIndexOf(NotSpace, ind, SettingText(key, value));
    assert l[|ind|..] == SettingText(key, value) == key + tail;
    KeyAt(l, |ind|);
    FirstIndexOf(NotKeyChar, key, tail);
    assert (key + tail)[..|key|] == key && (key + tail)[|key|..] == tail;
    AssignsFromAt(key + tail, key, |key|);
    EqualsBehindSpace(value);
  }

  lemma KeyStarts(key: string, tail: string)
    requires IsKey(key) && tail != "" && tail[0] == ' '
    ensures key != "" && NotSpace((key + tail)[0]) && HasNone(NotKeyChar, key) && NotKeyChar(tail[0])
  {
    assert IsKeyChar(key[0]) && (key + tail)[0] == key[0];
  }

  lemma EqualsBehindSpace(value: string)
    ensures EqualsFirst(" = " + value + "\n")
  {
    hide FirstIndex;
    var tail := " = " + value + "\n";
    FirstIndexOf(NotSpace, " ", tail[1..]);
    assert " " + tail[1..] == tail;
  }

  // ----- a setting that is in place -----

  /** The line carries the setting, whatever its indentation. */
  predicate Carries(l: string, s: Setting) {
    l == Rewritten(l, s.key, s.value)
  }

  /** The first assignment of the key in the searched range carries the value. */
  predicate Settled(lines: seq<string>, s: Setting) {
    HasSection(lines, s.section) &&
    var i := KeyIndex(lines, s.section, s.key);
    i < RangeEnd(lines, s.section) && Carries(lines[i], s)
  }

  /** The searched range of s starts at h. */
  predicate StartsAt(lines: seq<string>, s: Setting, h: nat) {
    h <= |lines| &&
    if s.section.None? then h == 0
    else h > 0 && IsSectionHeader(s.section.value, lines[h - 1]) && HasNone(HeaderOf(s.section.value), lines[..h - 1])
  }

  /** The line at k lies in a range of s that starts at h, and no line in between assigns the key. */
  predicate FirstAt(lines: seq<string>, s: Setting, h: nat, k: nat) {
    StartsAt(lines, s, h) && h <= k < |lines| && HasNone(AssignmentOf(s.key), lines[h..k]) &&
    (s.section.None? ==> HasNone(IsHeaderLine, lines[..k]))
  }

  lemma StartIs(lines: seq<string>, s: Setting, h: nat)
    requires StartsAt(lines, s, h)
    ensures HasSection(lines, s.section) && RangeStart(lines, s.section) == h
  {
    hide FirstIndex, HasNone, IsSectionHeader;
    if s.section.Some? {
      StoppedAt(HeaderOf(s.section.value), lines, h - 1);
    }
  }

  lemma TopEndBeyond(lines: seq<string>, k: nat)
    requires k < |lines| && HasNone(IsHeaderLine, lines[..k]) && !IsHeaderLine(lines[k])
    ensures k < TopEnd(lines)
  {
    hide IsHeaderLine;
    FirstIndexSkip(IsHeaderLine, lines[..k], lines[k..]);
    assert lines[..k] + lines[k..] == lines;
  }

  lemma SliceStep(p: string -> bool, lines: seq<string>, h: nat, k: nat, to: nat)
    requires h <= k < to <= |lines| && HasNone(p, lines[h..k]) && p(lines[k])
    ensures h + FirstIndex(p, lines[h..to]) == k
  {
    hide FirstIndex, HasNone;
    assert lines[h..to][..k - h] == lines[h..k];
    StoppedAt(p, lines[h..to], k - h);
  }

  /** A first assignment is where the search stops. */
  lemma FoundAt(lines: seq<string>, s: Setting, h: nat, k: nat)
    requires FirstAt(lines, s, h, k) && Assigns(lines[k], s.key)
    ensures HasSection(lines, s.section) && RangeStart(lines, s.section) == h
    ensures KeyIndex(lines, s.section, s.key) == k < RangeEnd(lines, s.section)
  {
    hide FirstIndex, HasNone, IsSectionHeader, IsAssignment, IsHeaderLine, TopEnd, RangeStart;
    StartIs(lines, s, h);
    if s.section.None? {
      AssignmentIsNoHeader(lines[k]);
      TopEndBeyond(lines, k);
    }
    SliceStep(AssignmentOf(s.key), lines, h, k, RangeEnd(lines, s.section));
  }

  /** Where the search of a key in place stops. */
  lemma FoundIs(lines: seq<string>, s: Setting) returns (h: nat, k: nat)
    requires HasSection(lines, s.section)
    requires KeyIndex(lines, s.section, s.key) < RangeEnd(lines, s.section)
    ensures h == RangeStart(lines, s.section) && k == KeyIndex(lines, s.section, s.key)
    ensures FirstAt(lines, s, h, k) && Assigns(lines[k], s.key)
  {
    hide FirstIndex, HasNone, IsHeaderLine, Assigns;
    h, k := RangeStart(lines, s.section), KeyIndex(lines, s.section, s.key);
    var to := RangeEnd(lines, s.section);
    assert lines[h..to][..k - h] == lines[h..k];
    if s.section.None? {
      HasNoneShorter(IsHeaderLine, lines, k, to);
    }
  }

  lemma HasNoneShorter(p: string -> bool, lines: seq<string>, k: nat, to: nat)
    requires k <= to <= |lines| && HasNone(p, lines[..to])
    ensures HasNone(p, lines[..k])
  {
    forall i | 0 <= i < k ensures !p(lines[..k][i]) {
      assert lines[..k][i] == lines[..to][i];
    }
  }

  lemma CarryingLine(l: string, s: Setting)
    requires ValidSetting(s) && Carries(l, s)
    ensures Assigns(l, s.key) && !IsHeaderLine(l)
  {
    hide FirstIndex, IsAssignment, IsHeaderLine, SettingText, IsKey;
    SettingReads(l[..Indent(l)], s.key, s.value);
    AssignmentIsNoHeader(l);
  }

  /** Writing a setting over a line, or on a new one, makes a line that carries it. */
  lemma RewrittenCarries(l: string, s: Setting)
    requires ValidSetting(s)
    ensures Carries(Rewritten(l, s.key, s.value), s)
  {
    hide FirstIndex, Assigns, IsHeaderLine, SettingText, IsKey;
    var ind := l[..Indent(l)];
    SettingReads(ind, s.key, s.value);
    assert (ind + SettingText(s.key, s.value))[..|ind|] == ind;
  }

  lemma BlankThenSetting(ind: string, s: Setting)
    requires ValidSetting(s) && HasNone(NotSpace, ind)
    ensures Carries(ind + SettingText(s.key, s.value), s)
  {
    hide FirstIndex, Assigns, IsHeaderLine, SettingText, IsKey;
    SettingReads(ind, s.key, s.value);
    assert (ind + SettingText(s.key, s.value))[..|ind|] == ind;
  }

  lemma SettledAt(lines: seq<string>, s: Setting, h: nat, k: nat)
    requires ValidSetting(s) && FirstAt(lines, s, h, k) && Carries(lines[k], s)
    ensures Settled(lines, s)
  {
    hide *;
    AtIndex(lines, s, h, k);
    CarryingLine(lines[k], s);
    FoundAt(lines, s, h, k);
    SettledUnfolded(lines, s);
  }

  lemma AtIndex(lines: seq<string>, s: Setting, h: nat, k: nat)
    requires FirstAt(lines, s, h, k)
    ensures k < |lines|
  {
  }

  lemma SettledUnfolded(lines: seq<string>, s: Setting)
    ensures Settled(lines, s) <==>
      (HasSection(lines, s.section) && KeyIndex(lines, s.section, s.key) < RangeEnd(lines, s.section)
       && Carries(lines[KeyIndex(lines, s.section, s.key)], s))
  {
    hide HasSection, KeyIndex, RangeEnd, Carries;
  }

  // ----- the edit on lines -----

  function Inserted(lines: seq<string>, p: nat, l: string): seq<string>
    requires p <= |lines|
  {
    lines[..p] + [l] + lines[p..]
  }

  /** The new lines of a section that was missing. */
  function SectionLines(section: string): seq<string> {
    ["\n", HeaderText(section) + "\n"]
  }

  /** `_toml_upsert` on a list of complete lines. */
  function UpsertLines(lines: seq<string>, s: Setting): seq<string> {
    if !HasSection(lines, s.section) then
      lines + SectionLines(s.section.value) + [SettingText(s.key, s.value)]
    else
      var i, end := KeyIndex(lines, s.section, s.key), RangeEnd(lines, s.section);
      if i < end then lines[i := Rewritten(lines[i], s.key, s.value)]
      else Inserted(lines, end, SettingText(s.key, s.value))
  }

  lemma KeyHasNoNewline(key: string)
    requires IsKey(key)
    ensures NoNewline(key)
  {
  }

  lemma SettingTextIsLine(ind: string, s: Setting)
    requires ValidSetting(s) && NoNewline(ind)
    ensures IsLine(ind + SettingText(s.key, s.value)) && Terminated(ind + SettingText(s.key, s.value))
  {
    KeyHasNoNewline(s.key);
    var l := ind + SettingText(s.key, s.value);
    assert l[..|l| - 1] == ind + s.key + " = " + s.value;
  }

  lemma IndentHasNoNewline(l: string)
    requires IsLine(l) && IsAssignment(l)
    ensures NoNewline(l[..Indent(l)])
  {
    hide IsAssignment, FirstIndex;
    AssignmentStartsWithKey(l);
    assert l[..Indent(l)] == l[..|l| - 1][..Indent(l)];
  }

  lemma RewrittenIsLine(l: string, s: Setting)
    requires ValidSetting(s) && IsLine(l) && IsAssignment(l)
    ensures IsLine(Rewritten(l, s.key, s.value)) && Terminated(Rewritten(l, s.key, s.value))
  {
    hide *;
    IndentHasNoNewline(l);
    SettingTextIsLine(l[..Indent(l)], s);
    RewrittenIs(l, s);
  }

  lemma RewrittenIs(l: string, s: Setting)
    ensures Rewritten(l, s.key, s.value) == l[..Indent(l)] + SettingText(s.key, s.value)
  {
  }

  lemma SectionLinesComplete(section: string)
    requires NoNewline(section)
    ensures FinishedLines(SectionLines(section))
  {
    var l := HeaderText(section) + "\n";
    assert l[..|l| - 1] == "[" + section + "]";
    assert "\n"[..0] == "";
  }

  lemma CompleteAppend(a: seq<string>, b: seq<string>)
    requires FinishedLines(a) && FinishedLines(b)
    ensures FinishedLines(a + b)
  {
  }

  lemma CompleteOne(l: string)
    requires IsLine(l) && Terminated(l)
    ensures FinishedLines([l])
  {
  }

  lemma CompleteSlices(a: seq<string>, p: nat)
    requires FinishedLines(a) && p <= |a|
    ensures FinishedLines(a[..p]) && FinishedLines(a[p..])
  {
  }

  lemma CompleteUpdated(a: seq<string>, i: nat, l: string)
    requires FinishedLines(a) && i < |a| && IsLine(l) && Terminated(l)
    ensures FinishedLines(a[i := l])
  {
  }

  lemma CompleteLineAt(a: seq<string>, i: nat)
    requires FinishedLines(a) && i < |a|
    ensures IsLine(a[i]) && Terminated(a[i])
  {
  }

  lemma SettingLineComplete(s: Setting)
    requires ValidSetting(s)
    ensures FinishedLines([SettingText(s.key, s.value)])
  {
    hide *;
    NothingIsOneLine();
    SettingTextIsLine("", s);
    assert "" + SettingText(s.key, s.value) == SettingText(s.key, s.value);
    CompleteOne(SettingText(s.key, s.value));
  }

  lemma NothingIsOneLine()
    ensures NoNewline("") && HasNone(NotSpace, "")
  {
  }

  lemma ValidSection(s: Setting)
    requires ValidSetting(s) && s.section.Some?
    ensures NoNewline(s.section.value)
  {
  }

  // The three cases of the edit, one fact each.

  lemma MissingCase(lines: seq<string>, s: Setting)
    requires !HasSection(lines, s.section)
    ensures s.section.Some?
    ensures UpsertLines(lines, s) == lines + SectionLines(s.section.value) + [SettingText(s.key, s.value)]
  {
  }

  lemma PresentCase(lines: seq<string>, s: Setting)
    requires HasSection(lines, s.section) && KeyIndex(lines, s.section, s.key) < RangeEnd(lines, s.section)
    ensures UpsertLines(lines, s) ==
      lines[KeyIndex(lines, s.section, s.key) := Rewritten(lines[KeyIndex(lines, s.section, s.key)], s.key, s.value)]
  {
  }

  lemma AbsentCase(lines: seq<string>, s: Setting)
    requires HasSection(lines, s.section) && KeyIndex(lines, s.section, s.key) == RangeEnd(lines, s.section)
    ensures UpsertLines(lines, s) == Inserted(lines, RangeEnd(lines, s.section), SettingText(s.key, s.value))
  {
  }

  lemma AssignsIsAssignment(l: string, key: string)
    requires Assigns(l, key)
    ensures IsAssignment(l)
  {
  }

  lemma UpsertedComplete(lines: seq<string>, s: Setting)
    requires FinishedLines(lines) && ValidSetting(s)
    ensures FinishedLines(UpsertLines(lines, s))
  {
    hide *;
    SettingLineComplete(s);
    if !HasSection(lines, s.section) {
      MissingCase(lines, s);
      ValidSection(s);
      SectionLinesComplete(s.section.value);
      CompleteAppend(lines, SectionLines(s.section.value));
      CompleteAppend(lines + SectionLines(s.section.value), [SettingText(s.key, s.value)]);
    } else {
      var i, end := KeyIndex(lines, s.section, s.key), RangeEnd(lines, s.section);
      if i < end {
        PresentCase(lines, s);
        AssignsIsAssignment(lines[i], s.key);
        CompleteLineAt(lines, i);
        RewrittenIsLine(lines[i], s);
        CompleteUpdated(lines, i, Rewritten(lines[i], s.key, s.value));
      } else {
        AbsentCase(lines, s);
        CompleteSlices(lines, end);
        CompleteAppend(lines[..end], [SettingText(s.key, s.value)]);
        CompleteAppend(lines[..end] + [SettingText(s.key, s.value)], lines[end..]);
        InsertedIs(lines, end, SettingText(s.key, s.value));
      }
    }
  }

  lemma InsertedIs(lines: seq<string>, p: nat, l: string)
    requires p <= |lines|
    ensures Inserted(lines, p, l) == lines[..p] + [l] + lines[p..]
  {
  }

  lemma {:induction false} WholeMeansComplete(content: string)
    requires Whole(content)
    ensures FinishedLines(SplitInclusive(content))
    decreases |content|
  {
    hide *;
    if content == "" {
      SplitEmpty();
      CompleteNone();
    } else {
      WholeNotEmpty(content);
      var l, rest := FirstLineOff(content);
      LineNotEmpty(l);
      WholeOf(rest);
      WholeMeansComplete(rest);
      SplitFirst(l, rest);
      CompleteOne(l);
      CompleteAppend([l], SplitInclusive(rest));
    }
  }

  lemma CompleteNone()
    ensures FinishedLines([])
  {
  }

  lemma WholeNotEmpty(content: string)
    requires Whole(content) && content != ""
    ensures Terminated(content)
  {
  }

  lemma CompleteIsWellFormed(lines: seq<string>)
    requires FinishedLines(lines)
    ensures WellFormed(lines)
  {
  }

  lemma {:induction false} CompleteMeansWhole(lines: seq<string>)
    requires FinishedLines(lines)
    ensures Whole(Flatten(lines))
    ensures lines != [] ==> Flatten(lines) != ""
  {
    if lines != [] {
      CompleteMeansWhole(lines[1..]);
    }
  }

  lemma SplitOfFlatten(lines: seq<string>)
    requires FinishedLines(lines)
    ensures SplitInclusive(Flatten(lines)) == lines && Whole(Flatten(lines))
  {
    hide *;
    CompleteIsWellFormed(lines);
    FlattenThenSplit(lines);
    CompleteMeansWhole(lines);
  }

  lemma MissingText(content: string, s: Setting)
    requires Whole(content) && !HasSection(SplitInclusive(content), s.section)
    ensures s.section.Some?
    ensures Upsert(content, s) ==
      content + "\n" + (HeaderText(s.section.value) + "\n") + SettingText(s.key, s.value)
  {
    hide SplitInclusive, HeaderText, SettingText, HeaderIndex;
    WholeOf(content);
    assert content + "" == content;
    assert content + "\n" + HeaderText(s.section.value) + "\n" == content + "\n" + (HeaderText(s.section.value) + "\n");
  }

  lemma FlattenSection(lines: seq<string>, h: string, t: string)
    ensures Flatten(lines + ["\n", h] + [t]) == Flatten(lines) + "\n" + h + t
  {
    hide *;
    FlattenAppend(lines + ["\n", h], [t]);
    FlattenAppend(lines, ["\n", h]);
    FlattenAppend(["\n"], [h]);
    FlattenOne(t);
    FlattenOne("\n");
    FlattenOne(h);
    assert ["\n"] + [h] == ["\n", h];
    assert Flatten(lines) + ("\n" + h) == Flatten(lines) + "\n" + h;
  }

  lemma MissingIsFlattened(content: string, lines: seq<string>, s: Setting)
    requires Whole(content) && lines == SplitInclusive(content) && !HasSection(lines, s.section)
    ensures Upsert(content, s) == Flatten(UpsertLines(lines, s))
  {
    hide *;
    MissingText(content, s);
    SplitThenFlatten(content);
    FlattenSection(lines, HeaderText(s.section.value) + "\n", SettingText(s.key, s.value));
    MissingCase(lines, s);
    SectionLinesAre(s.section.value);
  }

  lemma SectionLinesAre(section: string)
    ensures SectionLines(section) == ["\n", HeaderText(section) + "\n"]
  {
  }

  lemma OtherIsFlattened(content: string, s: Setting)
    requires HasSection(SplitInclusive(content), s.section)
    ensures Upsert(content, s) == Flatten(UpsertLines(SplitInclusive(content), s))
  {
    hide SplitInclusive, Flatten, HasSection, KeyIndex, RangeEnd;
  }

  /** On a whole text the edit acts line by line, and leaves a whole text. */
  lemma UpsertByLines(content: string, s: Setting)
    requires Whole(content) && ValidSetting(s)
    ensures Whole(Upsert(content, s))
    ensures SplitInclusive(Upsert(content, s)) == UpsertLines(SplitInclusive(content), s)
  {
    hide *;
    var lines := SplitInclusive(content);
    WholeMeansComplete(content);
    UpsertedComplete(lines, s);
    SplitOfFlatten(UpsertLines(lines, s));
    if !HasSection(lines, s.section) {
      MissingIsFlattened(content, lines, s);
    } else {
      OtherIsFlattened(content, s);
    }
  }

  // ----- one edit settles its own setting -----

  /** Where the search for an absent key ends up, as a place for a new line. */
  lemma AbsentRange(lines: seq<string>, s: Setting) returns (h: nat, end: nat)
    requires HasSection(lines, s.section) && KeyIndex(lines, s.section, s.key) == RangeEnd(lines, s.section)
    ensures h == RangeStart(lines, s.section) && end == RangeEnd(lines, s.section) && h <= end <= |lines|
    ensures StartsAt(lines, s, h) && HasNone(AssignmentOf(s.key), lines[h..end])
    ensures s.section.None? ==> HasNone(IsHeaderLine, lines[..end])
  {
    hide IsHeaderLine, IsSectionHeader, Assigns, HasNone;
    h, end := RangeStart(lines, s.section), RangeEnd(lines, s.section);
    assert lines[h..end][..end - h] == lines[h..end];
  }

  /** Edits behind the range start leave it where it is. */
  lemma StartStays(lines: seq<string>, after: seq<string>, s: Setting, h: nat)
    requires StartsAt(lines, s, h) && h <= |after| && after[..h] == lines[..h]
    ensures StartsAt(after, s, h)
  {
    hide HasNone, IsSectionHeader;
    if s.section.Some? {
      assert after[..h][h - 1] == lines[..h][h - 1];
      assert after[..h][..h - 1] == after[..h - 1];
      assert lines[..h][..h - 1] == lines[..h - 1];
    }
  }

  lemma FirstAtSplice(lines: seq<string>, after: seq<string>, s: Setting, h: nat, k: nat)
    requires StartsAt(lines, s, h) && h <= k <= |lines| && k < |after| && after[..k] == lines[..k]
    requires HasNone(AssignmentOf(s.key), lines[h..k])
    requires s.section.None? ==> HasNone(IsHeaderLine, lines[..k])
    ensures FirstAt(after, s, h, k)
  {
    hide HasNone, StartsAt;
    assert after[..k][..h] == after[..h] && lines[..k][..h] == lines[..h];
    assert after[..k][h..] == after[h..k] && lines[..k][h..] == lines[h..k];
    StartStays(lines, after, s, h);
  }

  lemma FirstAtParts(lines: seq<string>, s: Setting, h: nat, k: nat)
    requires FirstAt(lines, s, h, k)
    ensures StartsAt(lines, s, h) && h <= k < |lines| && HasNone(AssignmentOf(s.key), lines[h..k])
    ensures s.section.None? ==> HasNone(IsHeaderLine, lines[..k])
  {
  }

  lemma PresentSettles(lines: seq<string>, s: Setting)
    requires ValidSetting(s) && HasSection(lines, s.section)
    requires KeyIndex(lines, s.section, s.key) < RangeEnd(lines, s.section)
    ensures Settled(UpsertLines(lines, s), s)
  {
    hide *;
    var h, k := FoundIs(lines, s);
    FirstAtParts(lines, s, h, k);
    PresentCase(lines, s);
    var l := Rewritten(lines[k], s.key, s.value);
    var out := lines[k := l];
    assert out[..k] == lines[..k];
    FirstAtSplice(lines, out, s, h, k);
    RewrittenCarries(lines[k], s);
    SettledAt(out, s, h, k);
  }

  lemma InsertedAt(lines: seq<string>, p: nat, l: string)
    requires p <= |lines|
    ensures |Inserted(lines, p, l)| == |lines| + 1
    ensures Inserted(lines, p, l)[p] == l && Inserted(lines, p, l)[..p] == lines[..p]
  {
  }

  lemma AbsentSettles(lines: seq<string>, s: Setting)
    requires ValidSetting(s) && HasSection(lines, s.section)
    requires KeyIndex(lines, s.section, s.key) == RangeEnd(lines, s.section)
    ensures Settled(UpsertLines(lines, s), s)
  {
    hide *;
    var h, end := AbsentRange(lines, s);
    AbsentCase(lines, s);
    var l := SettingText(s.key, s.value);
    InsertedAt(lines, end, l);
    FirstAtSplice(lines, Inserted(lines, end, l), s, h, end);
    NothingIsOneLine();
    BlankThenSetting("", s);
    assert "" + l == l;
    SettledAt(Inserted(lines, end, l), s, h, end);
  }

  lemma {:induction false} StripEndOf(core: string, spaces: string)
    requires core != "" && !IsPySpace(core[|core| - 1]) && HasNone(NotSpace, spaces)
    ensures StripEnd(core + spaces) == core
    decreases |spaces|
  {
    if spaces == "" {
      assert core + spaces == core;
    } else {
      assert (core + spaces)[..|core + spaces| - 1] == core + spaces[..|spaces| - 1];
      StripEndOf(core, spaces[..|spaces| - 1]);
    }
  }

  lemma HeaderLineReads(section: string)
    ensures IsSectionHeader(section, HeaderText(section) + "\n")
  {
    var h := HeaderText(section);
    assert h[|h| - 1] == ']';
    StripEndOf(h, "\n");
    FirstIndexOf(NotSpace, "", h + "\n");
    assert "" + (h + "\n") == h + "\n";
  }

  lemma NewSectionStarts(lines: seq<string>, s: Setting, t: string)
    requires s.section.Some? && !HasSection(lines, s.section)
    ensures FirstAt(lines + SectionLines(s.section.value) + [t], s, |lines| + 2, |lines| + 2)
  {
    hide IsSectionHeader, HeaderText;
    var section := s.section.value;
    var out := lines + SectionLines(section) + [t];
    HeaderLineReads(section);
    assert lines[..|lines|] == lines;
    BreakIsNoHeader(section);
    assert out[..|lines| + 1] == lines + ["\n"];
    assert out[|lines| + 1] == HeaderText(section) + "\n";
  }

  lemma BreakIsNoHeader(section: string)
    ensures !IsSectionHeader(section, "\n") && !IsHeaderLine("\n") && !IsAssignment("\n")
  {
    FirstIndexOf(NotSpace, "\n", "");
    assert "\n" + "" == "\n";
    StripNothing();
  }

  lemma StripNothing()
    ensures StripEnd("") == ""
  {
  }

  lemma MissingSettles(lines: seq<string>, s: Setting)
    requires ValidSetting(s) && !HasSection(lines, s.section)
    ensures Settled(UpsertLines(lines, s), s)
  {
    hide *;
    MissingCase(lines, s);
    var l := SettingText(s.key, s.value);
    NewSectionStarts(lines, s, l);
    var out := lines + SectionLines(s.section.value) + [l];
    SectionLinesAre(s.section.value);
    assert out[|lines| + 2] == l;
    NothingIsOneLine();
    BlankThenSetting("", s);
    assert "" + l == l;
    SettledAt(out, s, |lines| + 2, |lines| + 2);
  }

  /** After one edit the first assignment of the key in the searched range carries the value. */
  lemma UpsertSettles(lines: seq<string>, s: Setting)
    requires ValidSetting(s)
    ensures Settled(UpsertLines(lines, s), s)
  {
    hide *;
    if !HasSection(lines, s.section) {
      MissingSettles(lines, s);
    } else if KeyIndex(lines, s.section, s.key) < RangeEnd(lines, s.section) {
      PresentSettles(lines, s);
    } else {
      AbsentSettles(lines, s);
    }
  }

  /** A setting that is in place is left as it is. */
  lemma SettledIsKept(lines: seq<string>, s: Setting)
    requires Settled(lines, s)
    ensures UpsertLines(lines, s) == lines
  {
    hide HasSection, KeyIndex, RangeEnd, Rewritten;
  }

  // ----- one edit does not disturb another setting -----

  /** Neither a header nor an assignment of the key. */
  predicate Neutral(l: string, key: string) {
    !IsHeaderLine(l) && !Assigns(l, key)
  }

  lemma NeutralToSection(l: string, key: string, section: string)
    requires Neutral(l, key)
    ensures !IsSectionHeader(section, l)
  {
    hide *;
    NeutralIs(l, key);
    if IsSectionHeader(section, l) { SectionHeaderIsHeader(section, l); }
  }

  lemma NeutralIs(l: string, key: string)
    ensures Neutral(l, key) <==> (!IsHeaderLine(l) && !Assigns(l, key))
  {
  }

  lemma OtherKeyIsNeutral(l: string, key: string, other: string)
    requires Assigns(l, key) && key != other
    ensures Neutral(l, other)
  {
    hide *;
    AssignsIsAssignment(l, key);
    AssignmentIsNoHeader(l);
    NeutralIs(l, other);
    OneKeyOnly(l, key, other);
  }

  lemma OneKeyOnly(l: string, key: string, other: string)
    requires Assigns(l, key) && key != other
    ensures !Assigns(l, other)
  {
  }

  lemma HasNoneInserted(p: string -> bool, lines: seq<string>, i: nat, x: string, from: nat, to: nat)
    requires from <= i <= to <= |lines| && HasNone(p, lines[from..to]) && !p(x)
    ensures HasNone(p, Inserted(lines, i, x)[from..to + 1])
  {
    hide HasNone;
    SliceOfInserted(lines, i, x, from, to);
    HasNoneParts(p, lines[from..to], i - from, x);
  }

  lemma SliceOfInserted(lines: seq<string>, i: nat, x: string, from: nat, to: nat)
    requires from <= i <= to <= |lines|
    ensures Inserted(lines, i, x)[from..to + 1] == Inserted(lines[from..to], i - from, x)
  {
    var left, right := Inserted(lines, i, x)[from..to + 1], Inserted(lines[from..to], i - from, x);
    assert |left| == |right|;
    forall j | 0 <= j < |left| ensures left[j] == right[j] {
      if j < i - from {
      } else if j == i - from {
      } else {
      }
    }
  }

  lemma HasNoneParts(p: string -> bool, ls: seq<string>, i: nat, x: string)
    requires i <= |ls| && HasNone(p, ls) && !p(x)
    ensures HasNone(p, Inserted(ls, i, x))
  {
  }

  lemma HasNoneReplaced(p: string -> bool, lines: seq<string>, i: nat, x: string, from: nat, to: nat)
    requires i < |lines| && from <= to <= |lines| && HasNone(p, lines[from..to]) && !p(x)
    ensures HasNone(p, lines[i := x][from..to])
  {
    if from <= i < to {
      assert lines[i := x][from..to] == lines[from..to][i - from := x];
    } else {
      assert lines[i := x][from..to] == lines[from..to];
    }
  }

  lemma AssignmentOfIs(key: string, l: string)
    ensures AssignmentOf(key)(l) == Assigns(l, key)
  {
  }

  lemma HeaderOfIs(section: string, l: string)
    ensures HeaderOf(section)(l) == IsSectionHeader(section, l)
  {
  }

  lemma StartsAtNamed(lines: seq<string>, t: Setting, h: nat)
    requires t.section.Some?
    ensures StartsAt(lines, t, h) <==> (0 < h <= |lines| && IsSectionHeader(t.section.value, lines[h - 1])
                                        && HasNone(HeaderOf(t.section.value), lines[..h - 1]))
  {
  }

  lemma StartsAtTop(lines: seq<string>, t: Setting, h: nat)
    requires t.section.None?
    ensures StartsAt(lines, t, h) <==> h == 0
  {
  }

  lemma FirstAtIs(lines: seq<string>, s: Setting, h: nat, k: nat)
    ensures FirstAt(lines, s, h, k) <==>
      (StartsAt(lines, s, h) && h <= k < |lines| && HasNone(AssignmentOf(s.key), lines[h..k])
       && (s.section.None? ==> HasNone(IsHeaderLine, lines[..k])))
  {
  }

  lemma StartBeforeInsertion(lines: seq<string>, t: Setting, h: nat, i: nat, x: string) returns (h': nat)
    requires StartsAt(lines, t, h) && i <= |lines| && Neutral(x, t.key)
    ensures StartsAt(Inserted(lines, i, x), t, h')
    ensures h' == if t.section.Some? && i < h then h + 1 else h
  {
    hide *;
    h' := if t.section.Some? && i < h then h + 1 else h;
    var out := Inserted(lines, i, x);
    InsertedAt(lines, i, x);
    InsertedIs(lines, i, x);
    if t.section.None? {
      StartsAtTop(lines, t, h);
      StartsAtTop(out, t, h');
    } else {
      var section := t.section.value;
      StartsAtNamed(lines, t, h);
      if i < h {
        NeutralToSection(x, t.key, section);
        HeaderOfIs(section, x);
        HasNoneInserted(HeaderOf(section), lines, i, x, 0, h - 1);
        assert lines[..h - 1] == lines[0..h - 1] && out[..h] == out[0..h];
        assert out[h] == lines[h - 1];
      } else {
        assert out[..h] == lines[..h] by { assert lines[..i][..h] == lines[..h]; assert out[..i][..h] == out[..h]; }
        assert out[..h - 1] == out[..h][..h - 1] && lines[..h - 1] == lines[..h][..h - 1];
        assert out[h - 1] == out[..h][h - 1] == lines[..h][h - 1] == lines[h - 1];
      }
      StartsAtNamed(out, t, h');
    }
  }

  lemma SliceBehindInsertion(lines: seq<string>, i: nat, x: string, h: nat, k: nat)
    requires i <= h <= k <= |lines|
    ensures Inserted(lines, i, x)[h + 1..k + 1] == lines[h..k]
    ensures k < |lines| ==> Inserted(lines, i, x)[k + 1] == lines[k]
  {
  }

  lemma InsertionKeepsFirst(lines: seq<string>, t: Setting, h: nat, k: nat, i: nat, x: string) returns (h': nat, k': nat)
    requires FirstAt(lines, t, h, k) && i <= |lines| && Neutral(x, t.key)
    ensures FirstAt(Inserted(lines, i, x), t, h', k') && Inserted(lines, i, x)[k'] == lines[k]
    ensures k' == if k < i then k else k + 1
  {
    hide *;
    FirstAtIs(lines, t, h, k);
    var out := Inserted(lines, i, x);
    InsertedAt(lines, i, x);
    NeutralIs(x, t.key);
    AssignmentOfIs(t.key, x);
    if k < i {
      h', k' := h, k;
      assert out[..k] == out[..i][..k] == lines[..i][..k] == lines[..k];
      assert out[k] == out[..i][k] == lines[k];
      FirstAtSplice(lines, out, t, h, k);
    } else {
      h' := StartBeforeInsertion(lines, t, h, i, x);
      k' := k + 1;
      SliceBehindInsertion(lines, i, x, k, k);
      if t.section.None? {
        StartsAtTop(lines, t, h);
        HasNoneInserted(IsHeaderLine, lines, i, x, 0, k);
        assert lines[..k] == lines[0..k] && out[..k + 1] == out[0..k + 1];
      }
      if i < h && t.section.Some? {
        SliceBehindInsertion(lines, i, x, h, k);
      } else {
        if t.section.None? { assert h == 0; }
        HasNoneInserted(AssignmentOf(t.key), lines, i, x, h, k);
      }
      FirstAtIs(out, t, h', k');
    }
  }

  lemma ReplacementKeepsFirst(lines: seq<string>, t: Setting, h: nat, k: nat, i: nat, x: string)
    requires FirstAt(lines, t, h, k) && i < |lines| && Neutral(lines[i], t.key) && Neutral(x, t.key)
    ensures FirstAt(lines[i := x], t, h, k)
  {
    hide *;
    FirstAtIs(lines, t, h, k);
    var out := lines[i := x];
    NeutralIs(x, t.key);
    AssignmentOfIs(t.key, x);
    HasNoneReplaced(AssignmentOf(t.key), lines, i, x, h, k);
    if t.section.None? {
      StartsAtTop(lines, t, h);
      StartsAtTop(out, t, h);
      HasNoneReplaced(IsHeaderLine, lines, i, x, 0, k);
      assert lines[..k] == lines[0..k] && out[..k] == out[0..k];
    } else {
      var section := t.section.value;
      StartsAtNamed(lines, t, h);
      NeutralToSection(lines[i], t.key, section);
      NeutralToSection(x, t.key, section);
      HeaderOfIs(section, x);
      HasNoneReplaced(HeaderOf(section), lines, i, x, 0, h - 1);
      assert lines[..h - 1] == lines[0..h - 1] && out[..h - 1] == out[0..h - 1];
      assert i != h - 1;
      StartsAtNamed(out, t, h);
    }
    FirstAtIs(out, t, h, k);
  }

  lemma SettledWitness(lines: seq<string>, t: Setting) returns (h: nat, k: nat)
    requires Settled(lines, t)
    ensures FirstAt(lines, t, h, k) && Carries(lines[k], t) && Assigns(lines[k], t.key)
  {
    hide *;
    SettledUnfolded(lines, t);
    h, k := FoundIs(lines, t);
    FirstAtIs(lines, t, h, k);
  }

  lemma SettingTextIsNeutral(s: Setting, key: string)
    requires ValidSetting(s) && s.key != key
    ensures Neutral(SettingText(s.key, s.value), key)
  {
    hide *;
    var l := SettingText(s.key, s.value);
    NothingIsOneLine();
    ValidKey(s);
    SettingReads("", s.key, s.value);
    assert "" + l == l;
    OtherKeyIsNeutral(l, s.key, key);
  }

  lemma ValidKey(s: Setting)
    requires ValidSetting(s)
    ensures IsKey(s.key)
  {
  }

  lemma RewrittenIsNeutral(l: string, s: Setting, key: string)
    requires ValidSetting(s) && s.key != key
    ensures Neutral(Rewritten(l, s.key, s.value), key)
  {
    hide *;
    var x := Rewritten(l, s.key, s.value);
    RewrittenCarries(l, s);
    CarryingLine(x, s);
    OtherKeyIsNeutral(x, s.key, key);
  }

  /** Setting one key leaves another key's setting in place. */
  lemma UpsertKeepsOthers(lines: seq<string>, s: Setting, t: Setting)
    requires ValidSetting(s) && ValidSetting(t) && s.key != t.key && Settled(lines, t)
    ensures Settled(UpsertLines(lines, s), t)
  {
    hide *;
    var h, k := SettledWitness(lines, t);
    AtIndex(lines, t, h, k);
    if !HasSection(lines, s.section) {
      MissingCase(lines, s);
      var out := lines + SectionLines(s.section.value) + [SettingText(s.key, s.value)];
      assert out[..k] == lines[..k] && out[k] == lines[k];
      FirstAtIs(lines, t, h, k);
      FirstAtSplice(lines, out, t, h, k);
      SettledAt(out, t, h, k);
    } else {
      var i, end := KeyIndex(lines, s.section, s.key), RangeEnd(lines, s.section);
      if i < end {
        PresentCase(lines, s);
        var x := Rewritten(lines[i], s.key, s.value);
        RewrittenIsNeutral(lines[i], s, t.key);
        OtherKeyIsNeutral(lines[i], s.key, t.key);
        NeutralIs(lines[i], t.key);
        assert i != k;
        ReplacementKeepsFirst(lines, t, h, k, i, x);
        SettledAt(lines[i := x], t, h, k);
      } else {
        AbsentCase(lines, s);
        var x := SettingText(s.key, s.value);
        SettingTextIsNeutral(s, t.key);
        var h', k' := InsertionKeepsFirst(lines, t, h, k, end, x);
        FirstAtIs(Inserted(lines, end, x), t, h', k');
        SettledAt(Inserted(lines, end, x), t, h', k');
      }
    }
  }

  // ----- one edit keeps every other line -----

  /** The line assigns none of the keys. */
  predicate AssignsNone(l: string, keys: set<string>) {
    forall k :: k in keys ==> !Assigns(l, k)
  }

  function Foreign(keys: set<string>): string -> bool {
    l => AssignsNone(l, keys)
  }

  /** The lines an edit adds beside the setting itself. */
  function Added(lines: seq<string>, section: Option<string>): seq<string> {
    if HasSection(lines, section) then [] else SectionLines(section.value)
  }

  lemma FilterWithout(p: string -> bool, a: seq<string>, x: string, b: seq<string>)
    requires !p(x)
    ensures Filter(p, a + [x] + b) == Filter(p, a + b)
  {
    hide *;
    FilterAppend(p, a + [x], b);
    FilterAppend(p, a, [x]);
    FilterAppend(p, a, b);
    FilterOne(p, x);
    assert Filter(p, a) + [] == Filter(p, a);
  }

  lemma Around(lines: seq<string>, i: nat, x: string)
    requires i < |lines|
    ensures lines == lines[..i] + [lines[i]] + lines[i + 1..]
    ensures lines[i := x] == lines[..i] + [x] + lines[i + 1..]
  {
  }

  lemma FilterReplaced(p: string -> bool, lines: seq<string>, i: nat, x: string)
    requires i < |lines| && !p(lines[i]) && !p(x)
    ensures Filter(p, lines[i := x]) == Filter(p, lines)
  {
    hide *;
    Around(lines, i, x);
    FilterWithout(p, lines[..i], x, lines[i + 1..]);
    FilterWithout(p, lines[..i], lines[i], lines[i + 1..]);
  }

  lemma FilterInserted(p: string -> bool, lines: seq<string>, i: nat, x: string)
    requires i <= |lines| && !p(x)
    ensures Filter(p, Inserted(lines, i, x)) == Filter(p, lines)
  {
    hide *;
    InsertedIs(lines, i, x);
    FilterWithout(p, lines[..i], x, lines[i..]);
    assert lines[..i] + lines[i..] == lines;
  }

  lemma ForeignIs(keys: set<string>, l: string, key: string)
    requires key in keys && Assigns(l, key)
    ensures !Foreign(keys)(l)
  {
  }

  lemma HeaderAssignsNothing(section: string, key: string)
    ensures !Assigns("\n", key) && !Assigns(HeaderText(section) + "\n", key)
  {
    hide *;
    BreakIsNoHeader(section);
    HeaderLineReads(section);
    SectionHeaderIsHeader(section, HeaderText(section) + "\n");
    if Assigns("\n", key) { AssignsIsAssignment("\n", key); }
    if Assigns(HeaderText(section) + "\n", key) {
      AssignsIsAssignment(HeaderText(section) + "\n", key);
      AssignmentIsNoHeader(HeaderText(section) + "\n");
    }
  }

  lemma HeaderIsForeign(keys: set<string>, section: string)
    ensures Foreign(keys)("\n") && Foreign(keys)(HeaderText(section) + "\n")
  {
    hide Assigns, HeaderText;
    forall k ensures !Assigns("\n", k) && !Assigns(HeaderText(section) + "\n", k) {
      HeaderAssignsNothing(section, k);
    }
  }

  lemma FilterSection(p: string -> bool, lines: seq<string>, section: string, x: string)
    requires p("\n") && p(HeaderText(section) + "\n") && !p(x)
    ensures Filter(p, lines + SectionLines(section) + [x]) == Filter(p, lines) + SectionLines(section)
  {
    hide Filter, HeaderText;
    FilterAppend(p, lines + SectionLines(section), [x]);
    FilterAppend(p, lines, SectionLines(section));
    FilterAll(p, SectionLines(section));
    FilterOne(p, x);
  }

  lemma SettingTextIsOwn(s: Setting, keys: set<string>)
    requires ValidSetting(s) && s.key in keys
    ensures !Foreign(keys)(SettingText(s.key, s.value))
  {
    hide *;
    var l := SettingText(s.key, s.value);
    NothingIsOneLine();
    ValidKey(s);
    SettingReads("", s.key, s.value);
    assert "" + l == l;
    ForeignIs(keys, l, s.key);
  }

  lemma RewrittenIsOwn(l: string, s: Setting, keys: set<string>)
    requires ValidSetting(s) && s.key in keys
    ensures !Foreign(keys)(Rewritten(l, s.key, s.value))
  {
    hide *;
    RewrittenCarries(l, s);
    CarryingLine(Rewritten(l, s.key, s.value), s);
    ForeignIs(keys, Rewritten(l, s.key, s.value), s.key);
  }

  lemma AddedIs(lines: seq<string>, section: Option<string>)
    requires HasSection(lines, section)
    ensures Added(lines, section) == []
  {
  }

  lemma AddedMissing(lines: seq<string>, section: Option<string>)
    requires !HasSection(lines, section)
    ensures section.Some? && Added(lines, section) == SectionLines(section.value)
  {
  }

  /** The lines that assign none of the keys stay, unchanged and in order. */
  lemma UpsertKeepsForeign(lines: seq<string>, s: Setting, keys: set<string>)
    requires ValidSetting(s) && s.key in keys
    ensures Filter(Foreign(keys), UpsertLines(lines, s)) == Filter(Foreign(keys), lines) + Added(lines, s.section)
  {
    hide *;
    var p := Foreign(keys);
    if !HasSection(lines, s.section) {
      MissingCase(lines, s);
      AddedMissing(lines, s.section);
      HeaderIsForeign(keys, s.section.value);
      SettingTextIsOwn(s, keys);
      FilterSection(p, lines, s.section.value, SettingText(s.key, s.value));
    } else {
      AddedIs(lines, s.section);
      var i, end := KeyIndex(lines, s.section, s.key), RangeEnd(lines, s.section);
      if i < end {
        PresentCase(lines, s);
        ForeignIs(keys, lines[i], s.key);
        RewrittenIsOwn(lines[i], s, keys);
        FilterReplaced(p, lines, i, Rewritten(lines[i], s.key, s.value));
      } else {
        AbsentCase(lines, s);
        SettingTextIsOwn(s, keys);
        FilterInserted(p, lines, end, SettingText(s.key, s.value));
      }
      assert Filter(p, lines) + [] == Filter(p, lines);
    }
  }

  // ----- texts that do not end in a line break -----

  /** The key is absent from a range that reaches the end of the text. */
  predicate AtEnd(lines: seq<string>, s: Setting) {
    HasSection(lines, s.section) && KeyIndex(lines, s.section, s.key) == RangeEnd(lines, s.section) == |lines|
  }

  lemma AtEndIs(lines: seq<string>, s: Setting)
    ensures AtEnd(lines, s) <==>
      (HasSection(lines, s.section) && KeyIndex(lines, s.section, s.key) == RangeEnd(lines, s.section) == |lines|)
  {
    hide HasSection, KeyIndex, RangeEnd;
  }

  /** The setting is put at the end of a text whose last line is neither finished nor blank. */
  predicate JoinsLast(content: string, s: Setting) {
    var lines := SplitInclusive(content);
    !Whole(content) && lines != [] && !HasNone(NotSpace, lines[|lines| - 1]) && AtEnd(lines, s)
  }

  lemma BreakLeavesIndent(l: string)
    ensures Strip(l) == StripEnd(l[Indent(l)..])
    ensures Indent(l) < |l| ==> Indent(l + "\n") == Indent(l)
    ensures Indent(l) == |l| ==> Indent(l + "\n") == |l| + 1
  {
    hide FirstIndex, StripEnd;
    var n := Indent(l);
    if n < |l| {
      FirstIndexOf(NotSpace, l[..n], l[n..] + "\n");
      assert l[..n] + (l[n..] + "\n") == l + "\n";
    } else {
      assert l[..n] == l;
      FirstIndexOf(NotSpace, l + "\n", []);
      assert l + "\n" + [] == l + "\n";
    }
  }

  lemma BreakStripped(x: string)
    ensures StripEnd(x + "\n") == StripEnd(x)
  {
    assert (x + "\n")[..|x|] == x;
  }

  lemma BreakLeavesStrip(l: string)
    ensures Strip(l + "\n") == Strip(l)
  {
    hide *;
    BreakLeavesIndent(l);
    BreakLeavesIndent(l + "\n");
    var n := Indent(l);
    if n < |l| {
      assert (l + "\n")[n..] == l[n..] + "\n";
      BreakStripped(l[n..]);
    } else {
      assert (l + "\n")[|l| + 1..] == "" && l[n..] == "";
    }
  }

  lemma {:induction false} SameAnswers(p: string -> bool, a: seq<string>, b: seq<string>)
    requires |a| == |b| && forall i :: 0 <= i < |a| ==> p(a[i]) == p(b[i])
    ensures FirstIndex(p, a) == FirstIndex(p, b)
  {
    if a != [] { SameAnswers(p, a[1..], b[1..]); }
  }

  lemma BreakLeavesSections(content: string, section: string)
    requires !Whole(content)
    ensures HasSection(SplitInclusive(content + "\n"), Some(section)) == HasSection(SplitInclusive(content), Some(section))
  {
    hide SplitInclusive, FirstIndex, Whole, Strip;
    var lines := SplitInclusive(content);
    assert IsLine("\n");
    SplitJoined(content, "\n");
    var n := |lines| - 1;
    BreakLeavesStrip(lines[n]);
    assert lines == lines[..n] + [lines[n]];
    SameAnswers(HeaderOf(section), lines, lines[..n] + [lines[n] + "\n"]);
  }

  /** A missing section is put behind a line break, if the text lacks one. */
  lemma MissingBreaksFirst(content: string, s: Setting)
    requires !Whole(content) && !HasSection(SplitInclusive(content), s.section)
    ensures Upsert(content, s) == Upsert(content + "\n", s) && Whole(content + "\n")
    ensures !HasSection(SplitInclusive(content + "\n"), s.section)
  {
    hide SplitInclusive, HeaderIndex, HeaderText, SettingText;
    BreakLeavesSections(content, s.section.value);
    assert content + "\n" + "" == content + "\n";
  }

  lemma MissingSettlesText(content: string, s: Setting)
    requires ValidSetting(s) && !HasSection(SplitInclusive(content), s.section)
    ensures Settled(SplitInclusive(Upsert(content, s)), s)
  {
    hide *;
    var whole := content;
    if !Whole(content) {
      MissingBreaksFirst(content, s);
      whole := content + "\n";
    }
    UpsertByLines(whole, s);
    UpsertSettles(SplitInclusive(whole), s);
  }

  lemma WellFormedReplaced(lines: seq<string>, i: nat, x: string)
    requires WellFormed(lines) && i < |lines| && IsLine(x) && Terminated(x)
    ensures WellFormed(lines[i := x])
  {
  }

  lemma WellFormedInserted(lines: seq<string>, i: nat, x: string)
    requires WellFormed(lines) && i < |lines| && IsLine(x) && Terminated(x)
    ensures WellFormed(Inserted(lines, i, x))
  {
    var out := Inserted(lines, i, x);
    forall j | 0 <= j < |out| ensures IsLine(out[j]) && (j < |out| - 1 ==> Terminated(out[j])) {
      if j < i { assert out[j] == lines[j]; } else if j > i { assert out[j] == lines[j - 1]; }
    }
  }

  /** An edit before the end of the text acts line by line, even if the last line is unfinished. */
  lemma WithinByLines(content: string, s: Setting)
    requires ValidSetting(s)
    requires HasSection(SplitInclusive(content), s.section)
    requires KeyIndex(SplitInclusive(content), s.section, s.key) < |SplitInclusive(content)|
    ensures SplitInclusive(Upsert(content, s)) == UpsertLines(SplitInclusive(content), s)
  {
    hide *;
    var lines := SplitInclusive(content);
    SplitIsWellFormed(content);
    var i, end := KeyIndex(lines, s.section, s.key), RangeEnd(lines, s.section);
    if i < end {
      PresentCase(lines, s);
      AssignsIsAssignment(lines[i], s.key);
      WellFormedLine(lines, i);
      RewrittenIsLine(lines[i], s);
      WellFormedReplaced(lines, i, Rewritten(lines[i], s.key, s.value));
    } else {
      AbsentCase(lines, s);
      SettingLineComplete(s);
      CompleteLineAt([SettingText(s.key, s.value)], 0);
      WellFormedInserted(lines, end, SettingText(s.key, s.value));
    }
    OtherIsFlattened(content, s);
    FlattenThenSplit(UpsertLines(lines, s));
  }

  /** At the end of an unfinished text the setting lengthens the last line. */
  lemma JoinedText(content: string, s: Setting)
    requires ValidSetting(s) && !Whole(content) && AtEnd(SplitInclusive(content), s)
    ensures SplitInclusive(content) != []
    ensures Upsert(content, s) == content + SettingText(s.key, s.value)
    ensures SplitInclusive(Upsert(content, s)) == JoinedLast(SplitInclusive(content), SettingText(s.key, s.value))
  {
    hide *;
    var lines := SplitInclusive(content);
    AtEndIs(lines, s);
    var x := SettingText(s.key, s.value);
    AbsentCase(lines, s);
    InsertedIs(lines, |lines|, x);
    assert lines[..|lines|] + [x] + lines[|lines|..] == lines + [x];
    OtherIsFlattened(content, s);
    FlattenAppend(lines, [x]);
    FlattenOne(x);
    SplitThenFlatten(content);
    SettingLineComplete(s);
    CompleteLineAt([x], 0);
    SplitJoined(content, x);
  }

  lemma BlankIsNoHeader(l: string)
    requires HasNone(NotSpace, l)
    ensures !IsHeaderLine(l)
  {
    hide FirstIndex, Strip;
    FirstIndexOf(NotSpace, l, []);
    assert l + [] == l;
    if IsHeaderLine(l) { HeaderStartsWithBracket(l); }
  }

  lemma BlankJoinSettles(lines: seq<string>, s: Setting)
    requires ValidSetting(s) && lines != [] && HasNone(NotSpace, lines[|lines| - 1])
    requires AtEnd(lines, s)
    ensures Settled(JoinedLast(lines, SettingText(s.key, s.value)), s)
  {
    hide *;
    AtEndIs(lines, s);
    JoinedIs(lines, SettingText(s.key, s.value));
    var n := |lines| - 1;
    var l := lines[n] + SettingText(s.key, s.value);
    var out := lines[..n] + [l];
    var h, end := AbsentRange(lines, s);
    BlankIsNoHeader(lines[n]);
    BlankLastInRange(lines, s, h);
    assert out[..n] == lines[..n];
    assert lines[h..end] == lines[h..];
    HasNoneFront(AssignmentOf(s.key), lines[h..], n - h);
    assert lines[h..][..n - h] == lines[h..n];
    if s.section.None? {
      HasNoneShorter(IsHeaderLine, lines, n, |lines|);
    }
    FirstAtSplice(lines, out, s, h, n);
    BlankThenSetting(lines[n], s);
    SettledAt(out, s, h, n);
  }

  lemma JoinedIs(lines: seq<string>, x: string)
    requires lines != []
    ensures JoinedLast(lines, x) == lines[..|lines| - 1] + [lines[|lines| - 1] + x]
  {
  }

  lemma HasNoneFront(p: string -> bool, ls: seq<string>, n: nat)
    requires n <= |ls| && HasNone(p, ls)
    ensures HasNone(p, ls[..n])
  {
  }

  lemma BlankLastInRange(lines: seq<string>, s: Setting, h: nat)
    requires lines != [] && !IsHeaderLine(lines[|lines| - 1]) && StartsAt(lines, s, h)
    ensures h <= |lines| - 1
  {
    hide IsHeaderLine, IsSectionHeader;
    if s.section.Some? {
      SectionHeaderIsHeader(s.section.value, lines[h - 1]);
    }
  }

  /** A setting put behind something other than blank space assigns nothing by its key. */
  lemma JoinedAssignsNot(l: string, s: Setting)
    requires ValidSetting(s) && !HasNone(NotSpace, l) && !Assigns(l, s.key)
    ensures !Assigns(l + SettingText(s.key, s.value), s.key)
  {
    hide FirstIndex, SettingText, Assigns, AssignsFrom, HasNone;
    var x := SettingText(s.key, s.value);
    JoinedIndent(l, x);
    var n := Indent(l);
    KeyAt(l, n);
    JoinedKey(l[n..], s);
    KeyAt(l + x, n);
  }

  lemma JoinedIndent(l: string, x: string)
    requires !HasNone(NotSpace, l)
    ensures Indent(l) < |l| && Indent(l + x) == Indent(l) && (l + x)[Indent(l)..] == l[Indent(l)..] + x
  {
    hide FirstIndex;
    var n := Indent(l);
    assert l[..|l|] == l;
    FirstIndexOf(NotSpace, l[..n], l[n..] + x);
    assert l[..n] + (l[n..] + x) == l + x;
    assert (l + x)[n..] == l[n..] + x;
  }

  /** The parts of a line behind its indentation that make it an assignment of the key. */
  predicate AssignsFrom(rest: string, key: string) {
    var k := FirstIndex(NotKeyChar, rest);
    rest[..k] == key && key != "" && EqualsFirst(rest[k..])
  }

  lemma KeyAt(l: string, n: nat)
    requires n == Indent(l)
    ensures n <= |l| && forall key :: Assigns(l, key) <==> AssignsFrom(l[n..], key)
  {
    hide FirstIndex;
    var k := FirstIndex(NotKeyChar, l[n..]);
    assert KeyOf(l) == l[n..][..k] && l[KeyEnd(l)..] == l[n..][k..];
  }

  lemma AssignsFromAt(rest: string, key: string, k: nat)
    requires k == FirstIndex(NotKeyChar, rest)
    ensures k <= |rest|
    ensures AssignsFrom(rest, key) <==> (rest[..k] == key && key != "" && EqualsFirst(rest[k..]))
  {
    hide FirstIndex, EqualsFirst;
  }

  lemma JoinedPieces(rest: string, k: nat, x: string)
    requires k <= |rest|
    ensures rest[..k] + (rest[k..] + x) == rest + x
    ensures (rest + x)[..k] == rest[..k] && (rest + x)[k..] == rest[k..] + x
  {
  }

  lemma KeyRunEnds(rest: string, x: string, k: nat)
    requires k == FirstIndex(NotKeyChar, rest) < |rest|
    ensures FirstIndex(NotKeyChar, rest + x) == k
  {
    hide FirstIndex, NotKeyChar;
    JoinedPieces(rest, k, x);
    FirstIndexOf(NotKeyChar, rest[..k], rest[k..] + x);
  }

  lemma JoinedKeyWithin(rest: string, k: nat, s: Setting)
    requires ValidSetting(s) && k == FirstIndex(NotKeyChar, rest) < |rest| && !AssignsFrom(rest, s.key)
    ensures !AssignsFrom(rest + SettingText(s.key, s.value), s.key)
  {
    hide *;
    var x := SettingText(s.key, s.value);
    KeyRunEnds(rest, x, k);
    JoinedPieces(rest, k, x);
    AssignsFromAt(rest, s.key, k);
    AssignsFromAt(rest + x, s.key, k);
    JoinedEquals(rest[k..], FirstIndex(NotSpace, rest[k..]), s);
  }

  lemma JoinedKeyBeyond(rest: string, s: Setting)
    requires ValidSetting(s) && rest != "" && FirstIndex(NotKeyChar, rest) == |rest|
    ensures !AssignsFrom(rest + SettingText(s.key, s.value), s.key)
  {
    hide FirstIndex, SettingText, ValidSetting;
    var x := SettingText(s.key, s.value);
    assert rest[..|rest|] == rest;
    FirstIndexSkip(NotKeyChar, rest, x);
    KeyRun(s);
    var j := |rest| + |s.key|;
    assert j == FirstIndex(NotKeyChar, rest + x) && |(rest + x)[..j]| > |s.key|;
  }

  lemma JoinedKey(rest: string, s: Setting)
    requires ValidSetting(s) && rest != "" && !AssignsFrom(rest, s.key)
    ensures !AssignsFrom(rest + SettingText(s.key, s.value), s.key)
  {
    hide *;
    var k := FirstIndex(NotKeyChar, rest);
    if k < |rest| {
      JoinedKeyWithin(rest, k, s);
    } else {
      JoinedKeyBeyond(rest, s);
    }
  }

  lemma KeyRun(s: Setting)
    requires ValidSetting(s)
    ensures FirstIndex(NotKeyChar, SettingText(s.key, s.value)) == |s.key|
  {
    hide FirstIndex;
    var tail := " = " + s.value + "\n";
    FirstIndexOf(NotKeyChar, s.key, tail);
    assert SettingText(s.key, s.value) == s.key + tail;
  }

  /** The first character that is not blank is an equals sign. */
  predicate EqualsFirst(tail: string) {
    var e := FirstIndex(NotSpace, tail);
    e < |tail| && tail[e] == '='
  }

  lemma JoinedEquals(tail: string, e: nat, s: Setting)
    requires ValidSetting(s) && e == FirstIndex(NotSpace, tail)
    ensures EqualsFirst(tail + SettingText(s.key, s.value)) ==> EqualsFirst(tail)
  {
    hide FirstIndex;
    var x := SettingText(s.key, s.value);
    assert tail[..e] + (tail[e..] + x) == tail + x;
    if e < |tail| {
      FirstIndexOf(NotSpace, tail[..e], tail[e..] + x);
    } else {
      assert IsKeyChar(s.key[0]) && x[0] == s.key[0];
      assert tail[..e] == tail && tail[e..] + x == x;
      FirstIndexOf(NotSpace, tail, x);
    }
  }

  /** No line from h on assigns the key, and the range starts no sooner. */
  lemma NothingAssigned(lines: seq<string>, s: Setting, h: nat)
    requires HasSection(lines, s.section) ==> RangeStart(lines, s.section) >= h
    requires h <= |lines| && HasNone(AssignmentOf(s.key), lines[h..])
    ensures !Settled(lines, s)
  {
    hide HasSection, RangeStart, RangeEnd, Carries, Assigns, FirstIndex;
    if HasSection(lines, s.section) {
      var from, to := RangeStart(lines, s.section), RangeEnd(lines, s.section);
      assert lines[from..to] == lines[h..][from - h..to - h];
      FirstIndexOf(AssignmentOf(s.key), lines[from..to], []);
      assert lines[from..to] + [] == lines[from..to];
    }
  }

  /** Text behind a section header ends it as a header of that section. */
  lemma JoinedIsNoHeader(l: string, section: string, s: Setting)
    requires IsSectionHeader(section, l) && ValidSetting(s)
    ensures !IsSectionHeader(section, l + SettingText(s.key, s.value))
  {
    hide FirstIndex, StripEnd;
    var x := SettingText(s.key, s.value);
    SectionHeaderIsHeader(section, l);
    HeaderStartsWithBracket(l);
    var n := Indent(l);
    FirstIndexOf(NotSpace, l[..n], l[n..] + x);
    assert l[..n] + (l[n..] + x) == l + x;
    assert (l + x)[n..] == l[n..] + x;
    StripEndPrefix(l[n..]);
    StripKeeps(l[n..], s);
  }

  lemma StripKeeps(l: string, s: Setting)
    requires ValidSetting(s)
    ensures |StripEnd(l + SettingText(s.key, s.value))| > |l|
  {
    var x := SettingText(s.key, s.value);
    var i := |l|;
    assert (l + x)[i] == s.key[0];
    assert IsKeyChar(s.key[0]);
    StripEndBeyond(l + x, i);
  }

  lemma {:induction false} StripEndBeyond(t: string, i: nat)
    requires i < |t| && NotSpace(t[i])
    ensures |StripEnd(t)| > i
  {
    if IsPySpace(t[|t| - 1]) { StripEndBeyond(t[..|t| - 1], i); }
  }

  lemma JoinedStart(lines: seq<string>, s: Setting)
    requires ValidSetting(s) && lines != [] && HasSection(lines, s.section)
    ensures HasSection(JoinedLast(lines, SettingText(s.key, s.value)), s.section) ==>
      RangeStart(JoinedLast(lines, SettingText(s.key, s.value)), s.section) == RangeStart(lines, s.section) < |lines|
  {
    hide FirstIndex, IsSectionHeader, ValidSetting, SettingText;
    var n := |lines| - 1;
    var out := JoinedLast(lines, SettingText(s.key, s.value));
    if s.section.Some? {
      var section := s.section.value;
      var h := HeaderIndex(lines, section);
      if h < n {
        assert out[..h] == lines[..h];
        StoppedAt(HeaderOf(section), out, h);
      } else {
        JoinedIsNoHeader(lines[n], section, s);
        assert out[..n] == lines[..h];
        assert out[..|out|] == out;
        HasNoneNext(HeaderOf(section), out, n);
        StoppedAt(HeaderOf(section), out, |out|);
      }
    }
  }

  lemma HasNoneAppend(p: string -> bool, a: seq<string>, x: string)
    requires HasNone(p, a) && !p(x)
    ensures HasNone(p, a + [x])
  {
  }

  lemma JoinedLines(lines: seq<string>, x: string, h: nat)
    requires lines != [] && h <= |lines| - 1
    ensures JoinedLast(lines, x)[h..] == lines[h..][..|lines| - 1 - h] + [lines[|lines| - 1] + x]
    ensures lines[h..][|lines| - 1 - h] == lines[|lines| - 1]
  {
  }

  lemma HasNoneAt(p: string -> bool, ls: seq<string>, i: nat)
    requires HasNone(p, ls) && i < |ls|
    ensures !p(ls[i])
  {
  }

  lemma JoinUnsettles(lines: seq<string>, s: Setting)
    requires ValidSetting(s) && lines != [] && !HasNone(NotSpace, lines[|lines| - 1]) && AtEnd(lines, s)
    ensures !Settled(JoinedLast(lines, SettingText(s.key, s.value)), s)
  {
    hide *;
    var n, x := |lines| - 1, SettingText(s.key, s.value);
    var out := JoinedLast(lines, x);
    AtEndIs(lines, s);
    SettledUnfolded(out, s);
    if HasSection(out, s.section) {
      var h, end := AbsentRange(lines, s);
      JoinedStart(lines, s);
      JoinedLines(lines, x, h);
      var p := AssignmentOf(s.key);
      assert lines[h..end] == lines[h..];
      HasNoneAt(p, lines[h..], n - h);
      AssignmentOfIs(s.key, lines[n]);
      JoinedAssignsNot(lines[n], s);
      AssignmentOfIs(s.key, lines[n] + x);
      HasNoneFront(p, lines[h..], n - h);
      HasNoneAppend(p, lines[h..][..n - h], lines[n] + x);
      JoinedIs(lines, x);
      NothingAssigned(out, s, h);
    }
  }

  lemma JoinsLastIs(content: string, s: Setting)
    ensures JoinsLast(content, s) <==>
      (!Whole(content) && SplitInclusive(content) != [] && AtEnd(SplitInclusive(content), s)
       && !HasNone(NotSpace, SplitInclusive(content)[|SplitInclusive(content)| - 1]))
  {
    hide Whole, SplitInclusive, AtEnd, HasNone;
  }

  /** For every text, one edit leaves the key set to the value exactly when the setting is not
      put behind an unfinished last line that holds something. */
  lemma UpsertSettlesExactly(content: string, s: Setting)
    requires ValidSetting(s)
    ensures Settled(SplitInclusive(Upsert(content, s)), s) <==> !JoinsLast(content, s)
  {
    hide *;
    var lines := SplitInclusive(content);
    JoinsLastIs(content, s);
    AtEndIs(lines, s);
    if Whole(content) {
      UpsertByLines(content, s);
      UpsertSettles(lines, s);
    } else if !HasSection(lines, s.section) {
      MissingSettlesText(content, s);
    } else if AtEnd(lines, s) {
      JoinedText(content, s);
      if HasNone(NotSpace, lines[|lines| - 1]) {
        BlankJoinSettles(lines, s);
      } else {
        JoinUnsettles(lines, s);
      }
    } else {
      WithinByLines(content, s);
      UpsertSettles(lines, s);
    }
  }
}
