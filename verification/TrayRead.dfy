/** The saved configuration, read back from the text: where each key stands, and what its value says. */
module TrayRead {
  import opened Seqs
  import opened Text
  import opened TrayConfig
  import opened TraySave
  import Words

  // ----- a reader of single lines -----

  predicate AllBlanks(s: string) {
    forall i :: 0 <= i < |s| ==> IsPySpace(s[i])
  }

  predicate HeadedBy(l: string, name: string, before: string, behind: string) {
    AllBlanks(before) && AllBlanks(behind) && l == before + "[" + name + "]" + behind
  }

  /** The line holds a section name in brackets and nothing else. */
  ghost predicate IsHead(l: string, name: string) {
    exists before, behind :: HeadedBy(l, name, before, behind)
  }

  ghost predicate IsSomeHead(l: string) {
    exists name :: IsHead(l, name)
  }

  predicate NamedBy(l: string, key: string, before: string, between: string, rest: string) {
    AllBlanks(before) && AllBlanks(between) && l == before + key + between + "=" + rest
  }

  /** The line gives the key some value. */
  ghost predicate Names(l: string, key: string) {
    exists before, between, rest :: NamedBy(l, key, before, between, rest)
  }

  /** The line is the key, an equals sign between blanks, and the value. */
  predicate Says(l: string, key: string, value: string) {
    exists n :: 0 <= n <= |l| && SaysBehind(l, key, value, n)
  }

  predicate SaysBehind(l: string, key: string, value: string, n: nat)
    requires n <= |l|
  {
    AllBlanks(l[..n]) && l[n..] == key + " = " + value + "\n"
  }

  /** The line at k belongs to the top level: no section has begun. */
  ghost predicate AtTop(lines: seq<string>, k: nat) {
    forall j :: 0 <= j <= k && j < |lines| ==> !IsSomeHead(lines[j])
  }

  /** The line at k is behind the section's name. */
  ghost predicate Behind(lines: seq<string>, name: string, k: nat) {
    exists j :: 0 <= j < k && j < |lines| && IsHead(lines[j], name)
  }

  ghost predicate Within(lines: seq<string>, section: Option<string>, k: nat) {
    match section
    case None => AtTop(lines, k)
    case Some(name) => Behind(lines, name, k)
  }

  /** The line at k is the first there that names the key, and it has this value. */
  ghost predicate ReadsAt(lines: seq<string>, section: Option<string>, key: string, value: string, k: nat) {
    k < |lines| && Within(lines, section, k) && Says(lines[k], key, value)
    && forall j :: 0 <= j < k && Within(lines, section, j) ==> !Names(lines[j], key)
  }

  ghost predicate Reads(text: string, section: Option<string>, key: string, value: string) {
    exists k :: ReadsAt(SplitInclusive(text), section, key, value, k)
  }

  // ----- a reader of values -----

  function HexValue(c: char): Option<nat> {
    if '0' <= c <= '9' then Some(c as int - '0' as int)
    else if 'a' <= c <= 'f' then Some(c as int - 'a' as int + 10)
    else if 'A' <= c <= 'F' then Some(c as int - 'A' as int + 10)
    else None
  }

  /** The character that four hexadecimal digits stand for. */
  function FromHex(s: string): Option<char>
    requires |s| == 4
  {
    match (HexValue(s[0]), HexValue(s[1]), HexValue(s[2]), HexValue(s[3]))
    case (Some(a), Some(b), Some(c), Some(d)) =>
      var n := ((a * 16 + b) * 16 + c) * 16 + d;
      if n < 0xD800 then Some(n as char) else None
    case _ => None
  }

  /** What stands between the quotes of a JSON string, read. */
  function Unescape(s: string): Option<string> {
    if s == "" then Some("")
    else if s[0] == '\"' || s[0] as int < 32 then None
    else if s[0] != '\\' then Prepend(s[0], Unescape(s[1..]))
    else if |s| < 2 then None
    else
      match s[1]
      case '\"' => Prepend('\"', Unescape(s[2..]))
      case '\\' => Prepend('\\', Unescape(s[2..]))
      case '/' => Prepend('/', Unescape(s[2..]))
      case 'b' => Prepend(8 as char, Unescape(s[2..]))
      case 'f' => Prepend(12 as char, Unescape(s[2..]))
      case 'n' => Prepend('\n', Unescape(s[2..]))
      case 'r' => Prepend('\r', Unescape(s[2..]))
      case 't' => Prepend('\t', Unescape(s[2..]))
      case 'u' =>
        if |s| < 6 then None
        else
          (match FromHex(s[2..6])
           case Some(c) => Prepend(c, Unescape(s[6..]))
           case None => None)
      case _ => None
  }

  function Prepend(c: char, rest: Option<string>): Option<string> {
    match rest
    case Some(s) => Some([c] + s)
    case None => None
  }

  function Unquote(s: string): Option<string> {
    if |s| >= 2 && s[0] == '\"' && s[|s| - 1] == '\"' then Unescape(s[1..|s| - 1]) else None
  }

  function DigitValue(c: char): Option<nat> {
    if '0' <= c <= '9' then Some(c as int - '0' as int) else None
  }

  /** The value of a run of decimal digits, read from the left. */
  function Decimal(s: string, sofar: nat): Option<nat> {
    if s == "" then Some(sofar)
    else
      match DigitValue(s[0])
      case Some(d) => Decimal(s[1..], 10 * sofar + d)
      case None => None
  }

  function Number(s: string): Option<int> {
    if s == "" || s == "-" then None
    else if s[0] == '-' then
      (match Decimal(s[1..], 0)
       case Some(n) => if n == 0 then None else (var m: int := n; Some(-m))
       case None => None)
    else
      (match Decimal(s, 0)
       case Some(n) => Some(n)
       case None => None)
  }

  // ----- the values -----

  lemma FlagReads(b: bool)
    ensures TomlBool(b) == "true" <==> b
    ensures TomlBool(b) == "false" <==> !b
  {
  }

  lemma {:induction false} DecimalAppend(a: string, c: char, sofar: nat)
    requires Decimal(a, sofar).Some? && DigitValue(c).Some?
    ensures Decimal(a + [c], sofar) == Some(10 * Decimal(a, sofar).value + DigitValue(c).value)
  {
    if a == "" {
      assert a + [c] == [c] && [c][1..] == "";
    } else {
      assert (a + [c])[1..] == a[1..] + [c];
      DecimalAppend(a[1..], c, 10 * sofar + DigitValue(a[0]).value);
    }
  }

  lemma {:induction false} NatReads(n: nat)
    ensures Decimal(Words.NatText(n), 0) == Some(n) && Words.NatText(n) != "" && Words.NatText(n)[0] != '-'
    decreases n
  {
    if n < 10 {
      DigitReads(n);
      DecimalAppend("", Words.Digit(n), 0);
      assert "" + [Words.Digit(n)] == [Words.Digit(n)];
    } else {
      NatReads(n / 10);
      DigitReads(n % 10);
      DecimalAppend(Words.NatText(n / 10), Words.Digit(n % 10), 0);
    }
  }

  lemma DigitReads(d: nat)
    requires d < 10
    ensures DigitValue(Words.Digit(d)) == Some(d) && Words.Digit(d) != '-'
  {
  }

  lemma NumberReads(n: int)
    ensures Number(IntText(n)) == Some(n)
  {
    hide Words.NatText, Decimal;
    NatReads(if n < 0 then -n else n);
    if n < 0 { assert IntText(n)[1..] == Words.NatText(-n); }
  }

  lemma EscapeReads(c: char, rest: string)
    ensures Unescape(Escape(c) + rest) == Prepend(c, Unescape(rest))
  {
    hide Unescape, FromHex, Prepend, HexDigit, Escape;
    var u := c as int;
    EscapeIs(c);
    if IsPair(c) {
      PairReads(Escape(c)[1], c, rest);
    } else if u < 32 {
      CodeReads(u, rest);
    } else {
      PlainReads(c, rest);
    }
  }

  predicate IsPair(c: char) {
    c == '\"' || c == '\\' || c as int in {8, 9, 10, 12, 13}
  }

  predicate Paired(x: char, c: char) {
    match x
    case '\"' => c == '\"'
    case '\\' => c == '\\'
    case 'b' => c == 8 as char
    case 'f' => c == 12 as char
    case 'n' => c == '\n'
    case 'r' => c == '\r'
    case 't' => c == '\t'
    case _ => false
  }

  lemma EscapeIs(c: char)
    ensures var e, u := Escape(c), c as int;
            if IsPair(c) then |e| == 2 && e == ['\\', e[1]] && Paired(e[1], c)
            else e == if u < 32 then "\\u00" + [HexDigit(u / 16), HexDigit(u % 16)] else [c]
    ensures !IsPair(c) ==> c != '\\' && c != '\"'
  {
    hide HexDigit;
    assert (c as int) as char == c;
    if IsPair(c) && c != '\"' && c != '\\' { assert Escape(c)[1] in {'b', 'f', 'n', 'r', 't'}; }
  }

  lemma PlainReads(c: char, rest: string)
    requires c != '\\' && c != '\"' && c as int >= 32
    ensures Unescape([c] + rest) == Prepend(c, Unescape(rest))
  {
    hide FromHex, Prepend;
    assert ([c] + rest)[1..] == rest;
  }

  lemma PairReads(x: char, c: char, rest: string)
    requires Paired(x, c)
    ensures Unescape(['\\', x] + rest) == Prepend(c, Unescape(rest))
  {
    hide FromHex, Prepend;
    assert (['\\', x] + rest)[2..] == rest;
  }

  lemma CodeReads(u: nat, rest: string)
    requires u < 32
    ensures Unescape("\\u00" + [HexDigit(u / 16), HexDigit(u % 16)] + rest) == Prepend(u as char, Unescape(rest))
  {
    hide FromHex, Prepend, HexDigit;
    var s := "\\u00" + [HexDigit(u / 16), HexDigit(u % 16)] + rest;
    assert s[2..6] == "00" + [HexDigit(u / 16), HexDigit(u % 16)];
    assert s[6..] == rest;
    HexReads(u);
  }

  lemma HexReads(u: nat)
    requires u < 32
    ensures FromHex("00" + [HexDigit(u / 16), HexDigit(u % 16)]) == Some(u as char)
  {
    HexDigitReads(u / 16);
    HexDigitReads(u % 16);
  }

  lemma HexDigitReads(d: nat)
    requires d < 16
    ensures HexValue(HexDigit(d)) == Some(d) && HexValue('0') == Some(0)
  {
  }

  lemma {:induction false} EscapedReads(s: string)
    ensures Unescape(Flatten(Map(Escape, s))) == Some(s)
  {
    hide Escape, Unescape;
    if s == "" {
      NothingEscaped();
    } else {
      EscapedReads(s[1..]);
      assert Map(Escape, s)[1..] == Map(Escape, s[1..]);
      EscapeReads(s[0], Flatten(Map(Escape, s[1..])));
      assert s == [s[0]] + s[1..];
    }
  }

  lemma NothingEscaped()
    ensures Unescape(Flatten(Map(Escape, ""))) == Some("")
  {
  }

  lemma TextReads(s: string)
    ensures Unquote(TomlString(s)) == Some(s)
  {
    hide Escape, Unescape, Flatten;
    EscapedReads(s);
    var e := Flatten(Map(Escape, s));
    assert TomlString(s) == "\"" + e + "\"";
    assert TomlString(s)[1..|TomlString(s)| - 1] == e;
  }

  // ----- the lines -----

  lemma BlanksAre(s: string)
    ensures AllBlanks(s) <==> HasNone(NotSpace, s)
  {
    if AllBlanks(s) {
      forall i | 0 <= i < |s| ensures !NotSpace(s[i]) {
      }
    } else {
      var i :| 0 <= i < |s| && !IsPySpace(s[i]);
      assert NotSpace(s[i]);
    }
  }

  lemma {:induction false} StripEndParts(s: string)
    ensures StripEnd(s) <= s && AllBlanks(s[|StripEnd(s)|..])
  {
    if s != "" && IsPySpace(s[|s| - 1]) {
      StripEndParts(s[..|s| - 1]);
      var n := |StripEnd(s)|;
      assert s[n..] == s[..|s| - 1][n..] + [s[|s| - 1]];
    }
  }

  lemma StripParts(l: string) returns (before: string, behind: string)
    ensures AllBlanks(before) && AllBlanks(behind) && l == before + Strip(l) + behind
  {
    hide StripEnd, FirstIndex;
    var n := Indent(l);
    StripEndParts(l[n..]);
    before, behind := l[..n], l[n..][|Strip(l)|..];
    BlanksAre(before);
    assert l == l[..n] + l[n..] && l[n..] == Strip(l) + behind;
    assert before + (Strip(l) + behind) == before + Strip(l) + behind;
  }

  lemma StripOf(before: string, core: string, behind: string)
    requires AllBlanks(before) && AllBlanks(behind) && core != ""
    requires !IsPySpace(core[0]) && !IsPySpace(core[|core| - 1])
    ensures Strip(before + core + behind) == core
  {
    hide StripEnd, FirstIndex;
    BlanksAre(before);
    BlanksAre(behind);
    assert before + core + behind == before + (core + behind);
    assert NotSpace((core + behind)[0]);
    FirstIndexOf(NotSpace, before, core + behind);
    assert (before + (core + behind))[|before|..] == core + behind;
    StripEndOf(core, behind);
  }

  lemma BracketsAreSolid(name: string)
    ensures HeaderText(name) == "[" + name + "]" && HeaderText(name)[0] == '['
    ensures HeaderText(name)[|HeaderText(name)| - 1] == ']' && !IsPySpace('[') && !IsPySpace(']')
  {
  }

  lemma HeadIs(l: string, name: string)
    ensures IsHead(l, name) <==> IsSectionHeader(name, l)
  {
    hide Strip, AllBlanks;
    BracketsAreSolid(name);
    if before, behind :| HeadedBy(l, name, before, behind) {
      assert before + "[" + name + "]" + behind == before + HeaderText(name) + behind;
      StripOf(before, HeaderText(name), behind);
    }
    if IsSectionHeader(name, l) {
      var before, behind := StripParts(l);
      assert before + HeaderText(name) + behind == before + "[" + name + "]" + behind;
      assert HeadedBy(l, name, before, behind);
    }
  }

  lemma SomeHeadIs(l: string)
    ensures IsSomeHead(l) <==> IsHeaderLine(l)
  {
    hide Strip, IsHead;
    if name :| IsHead(l, name) {
      HeadIs(l, name);
      BracketsAreSolid(name);
    }
    if IsHeaderLine(l) {
      var s := Strip(l);
      var name := s[1..|s| - 1];
      assert s == "[" + name + "]";
      HeadIs(l, name);
    }
  }

  lemma NamesIs(l: string, key: string)
    requires IsKey(key)
    ensures Names(l, key) <==> Assigns(l, key)
  {
    hide NamedBy, Assigns, IsKey;
    if before, between, rest :| NamedBy(l, key, before, between, rest) {
      NamedAssigns(l, key, before, between, rest);
    }
    if Assigns(l, key) { AssignsNames(l, key); }
  }

  lemma AssignsNames(l: string, key: string)
    requires Assigns(l, key)
    ensures Names(l, key)
  {
    hide FirstIndex, AllBlanks, Assigns, AssignsFrom, EqualsFirst;
    var n := Indent(l);
    KeyAt(l, n);
    BlanksAre(l[..n]);
    var rest := l[n..];
    var k := FirstIndex(NotKeyChar, rest);
    AssignsFromAt(rest, key, k);
    var between, value := EqualsParts(rest[k..]);
    assert l == l[..n] + (rest[..k] + rest[k..]);
    assert l[..n] + (key + (between + "=" + value)) == l[..n] + key + between + "=" + value;
    assert NamedBy(l, key, l[..n], between, value);
  }

  lemma EqualsParts(tail: string) returns (between: string, value: string)
    requires EqualsFirst(tail)
    ensures AllBlanks(between) && tail == between + "=" + value
  {
    hide FirstIndex, AllBlanks;
    var e := FirstIndex(NotSpace, tail);
    between, value := tail[..e], tail[e + 1..];
    BlanksAre(between);
    assert tail == tail[..e] + [tail[e]] + tail[e + 1..];
  }

  lemma NamedAssigns(l: string, key: string, before: string, between: string, rest: string)
    requires IsKey(key) && NamedBy(l, key, before, between, rest)
    ensures Assigns(l, key)
  {
    hide *;
    NamedParts(l, key, before, between, rest);
    NamedIndent(l, key, before, between + "=" + rest);
    NamedEquals(between, rest);
    NotEmpty(key);
    NamedKey(l, key, |before|, between + "=" + rest);
    AssignsBy(l, key, |before|, between + "=" + rest, |between|);
  }

  lemma NamedParts(l: string, key: string, before: string, between: string, rest: string)
    requires NamedBy(l, key, before, between, rest)
    ensures AllBlanks(before) && AllBlanks(between) && l == before + (key + (between + "=" + rest))
  {
    hide AllBlanks;
    assert before + key + between + "=" + rest == before + (key + (between + "=" + rest));
  }

  lemma NamedIndent(l: string, key: string, before: string, tail: string)
    requires IsKey(key) && AllBlanks(before) && l == before + (key + tail)
    ensures Indent(l) == |before|
  {
    hide FirstIndex, AllBlanks, IsKey;
    BlanksAre(before);
    KeysAreSolid(key, tail);
    FirstIndexOf(NotSpace, before, key + tail);
  }

  lemma NamedKey(l: string, key: string, n: nat, tail: string)
    requires IsKey(key) && n <= |l| && l[n..] == key + tail && tail != "" && NotKeyChar(tail[0])
    ensures FirstIndex(NotKeyChar, l[n..]) == |key|
  {
    hide FirstIndex, IsKey;
    KeyRunOf(key);
    FirstIndexOf(NotKeyChar, key, tail);
  }

  lemma NamedEquals(between: string, rest: string)
    requires AllBlanks(between)
    ensures var tail := between + "=" + rest;
            FirstIndex(NotSpace, tail) == |between| && tail[|between|] == '=' && NotKeyChar(tail[0])
  {
    hide FirstIndex, AllBlanks;
    BlanksAre(between);
    EqualsEndsKey(between, rest);
    assert between + "=" + rest == between + ("=" + rest);
    FirstIndexOf(NotSpace, between, "=" + rest);
  }

  lemma AssignsBy(l: string, key: string, n: nat, tail: string, e: nat)
    requires Indent(l) == n && n <= |l| && l[n..] == key + tail && FirstIndex(NotKeyChar, l[n..]) == |key|
    requires key != "" && FirstIndex(NotSpace, tail) == e < |tail| && tail[e] == '='
    ensures Assigns(l, key)
  {
    hide FirstIndex, Assigns, AssignsFrom;
    KeyAt(l, n);
    assert (key + tail)[..|key|] == key && (key + tail)[|key|..] == tail;
    AssignsFromAt(key + tail, key, |key|);
  }

  lemma NotEmpty(key: string)
    requires IsKey(key)
    ensures key != ""
  {
  }

  lemma KeysAreSolid(key: string, tail: string)
    requires IsKey(key)
    ensures NotSpace((key + tail)[0])
  {
    assert IsKeyChar(key[0]) && (key + tail)[0] == key[0];
  }

  lemma KeyRunOf(key: string)
    requires IsKey(key)
    ensures HasNone(NotKeyChar, key)
  {
  }

  lemma EqualsEndsKey(between: string, rest: string)
    requires AllBlanks(between)
    ensures NotKeyChar((between + "=" + rest)[0]) && NotSpace('=')
  {
    if between != "" { assert (between + "=" + rest)[0] == between[0] && IsPySpace(between[0]); }
  }

  lemma CarriedIsSaid(l: string, s: Setting)
    requires Carries(l, s)
    ensures Says(l, s.key, s.value)
  {
    hide FirstIndex;
    var n := Indent(l);
    IndentIsFirst(l);
    BlanksAre(l[..n]);
    assert l[n..] == SettingText(s.key, s.value);
    assert SaysBehind(l, s.key, s.value, n);
  }

  lemma InRangeIsWithin(lines: seq<string>, s: Setting, h: nat, k: nat)
    requires FirstAt(lines, s, h, k) && k < |lines| && !IsHeaderLine(lines[k])
    ensures Within(lines, s.section, k)
    ensures forall j :: 0 <= j < k && Within(lines, s.section, j) ==> h <= j
  {
    hide IsHeaderLine, IsSectionHeader, IsHead, IsSomeHead, Assigns;
    if s.section.None? {
      forall j | 0 <= j <= k ensures !IsSomeHead(lines[j]) {
        SomeHeadIs(lines[j]);
        if j < k { assert lines[..k][j] == lines[j]; }
      }
    } else {
      var name := s.section.value;
      HeadIs(lines[h - 1], name);
      forall j | 0 <= j < h - 1 ensures !IsHead(lines[j], name) {
        HeadIs(lines[j], name);
        HeaderOfIs(name, lines[j]);
        assert lines[..h - 1][j] == lines[j];
      }
    }
  }

  /** A setting that is in place is read at the first line of its section that names the key. */
  lemma SettledReads(text: string, s: Setting)
    requires ValidSetting(s) && Settled(SplitInclusive(text), s)
    ensures Reads(text, s.section, s.key, s.value)
  {
    hide *;
    var lines := SplitInclusive(text);
    var h, k := SettledWitness(lines, s);
    FirstAtIs(lines, s, h, k);
    CarryingLine(lines[k], s);
    CarriedIsSaid(lines[k], s);
    InRangeIsWithin(lines, s, h, k);
    ValidKey(s);
    forall j | 0 <= j < k && Within(lines, s.section, j) ensures !Names(lines[j], s.key) {
      NamesIs(lines[j], s.key);
      AssignmentOfIs(s.key, lines[j]);
      assert lines[h..k][j - h] == lines[j];
      HasNoneAt(AssignmentOf(s.key), lines[h..k], j - h);
    }
    ReadIs(text, s, k);
  }

  lemma ReadIs(text: string, s: Setting, k: nat)
    requires k < |SplitInclusive(text)| && Within(SplitInclusive(text), s.section, k)
    requires Says(SplitInclusive(text)[k], s.key, s.value)
    requires forall j :: 0 <= j < k && Within(SplitInclusive(text), s.section, j) ==> !Names(SplitInclusive(text)[j], s.key)
    ensures Reads(text, s.section, s.key, s.value)
  {
    hide SplitInclusive, Within, Says, Names;
    assert ReadsAt(SplitInclusive(text), s.section, s.key, s.value, k);
  }

  // ----- a saved configuration, read back -----

  predicate IsTextKey(key: string) {
    key in {"dev_ops_path", "master_md_path", "skills_path", "vault_projects_path", "system_name", "github_user"}
  }

  predicate IsFlagKey(key: string) {
    key in {"startup_bm25_indexing", "startup_cortex_indexing", "enable_health_worker", "enable_sentinel_worker",
            "enable_port_monitor"}
  }

  predicate IsNumberKey(key: string) {
    key in {"health_interval_secs", "git_interval_secs", "sentinel_interval_secs", "port_monitor_interval_secs",
            "port_probe_timeout_ms", "lifecycle_standby_days", "lifecycle_archive_days", "lifecycle_interval_secs"}
  }

  /** The text that the configuration holds under the key; none is the empty one. */
  function TextOf(config: Config, key: string): string {
    if key in config.texts then config.texts[key] else ""
  }

  predicate IsSet(config: Config, key: string) {
    key in config.flags && config.flags[key]
  }

  function NumberOf(config: Config, key: string): int {
    if key in config.numbers then config.numbers[key] else 0
  }

  ghost predicate ReadsText(text: string, key: string, value: string) {
    exists quoted :: Reads(text, None, key, quoted) && Unquote(quoted) == Some(value)
  }

  ghost predicate ReadsNumber(text: string, key: string, value: int) {
    exists numeral :: Reads(text, Some("daemon"), key, numeral) && Number(numeral) == Some(value)
  }

  lemma SettingAmong(config: Config, s: Setting)
    requires (exists key :: key in TOP_LEVEL_KEYS && s == TextSetting(config)(key))
      || (exists key :: key in DAEMON_BOOL_KEYS && s == FlagSetting(config)(key))
      || (exists key :: key in DAEMON_INT_KEYS && s == NumberSetting(config)(key))
    ensures s in Settings(config)
  {
    hide *;
    SettingsParts(config);
    var a, b, c := Map(TextSetting(config), TOP_LEVEL_KEYS), Map(FlagSetting(config), DAEMON_BOOL_KEYS),
      Map(NumberSetting(config), DAEMON_INT_KEYS);
    if key :| key in TOP_LEVEL_KEYS && s == TextSetting(config)(key) {
      var i :| 0 <= i < |TOP_LEVEL_KEYS| && TOP_LEVEL_KEYS[i] == key;
      assert a[i] == s && Settings(config)[i] == s;
    } else if key :| key in DAEMON_BOOL_KEYS && s == FlagSetting(config)(key) {
      var i :| 0 <= i < |DAEMON_BOOL_KEYS| && DAEMON_BOOL_KEYS[i] == key;
      assert b[i] == s && Settings(config)[|a| + i] == s;
    } else {
      var key :| key in DAEMON_INT_KEYS && s == NumberSetting(config)(key);
      var i :| 0 <= i < |DAEMON_INT_KEYS| && DAEMON_INT_KEYS[i] == key;
      assert c[i] == s && Settings(config)[|a| + |b| + i] == s;
    }
  }

  lemma KeysAreListed(key: string)
    ensures IsTextKey(key) ==> key in TOP_LEVEL_KEYS
    ensures IsFlagKey(key) ==> key in DAEMON_BOOL_KEYS
    ensures IsNumberKey(key) ==> key in DAEMON_INT_KEYS
  {
    TextKeysListed(key);
    FlagKeysListed(key);
    NumberKeysListed(key);
  }

  lemma TextKeysListed(key: string)
    ensures IsTextKey(key) ==> key in TOP_LEVEL_KEYS
  {
    var ks := TOP_LEVEL_KEYS;
    assert ks[0] in ks && ks[1] in ks && ks[2] in ks && ks[3] in ks && ks[4] in ks && ks[5] in ks;
  }

  lemma FlagKeysListed(key: string)
    ensures IsFlagKey(key) ==> key in DAEMON_BOOL_KEYS
  {
    var ks := DAEMON_BOOL_KEYS;
    assert ks[0] in ks && ks[1] in ks && ks[2] in ks && ks[3] in ks && ks[4] in ks;
  }

  lemma NumberKeysListed(key: string)
    ensures IsNumberKey(key) ==> key in DAEMON_INT_KEYS
  {
    hide DAEMON_INT_KEYS;
    IntervalsListed(key);
    OthersListed(key);
  }

  lemma IntervalsListed(key: string)
    ensures key in {"health_interval_secs", "git_interval_secs", "sentinel_interval_secs", "port_monitor_interval_secs"}
      ==> key in DAEMON_INT_KEYS
  {
    var ks := DAEMON_INT_KEYS;
    assert ks[0] in ks && ks[1] in ks && ks[2] in ks && ks[3] in ks;
  }

  lemma OthersListed(key: string)
    ensures key in {"port_probe_timeout_ms", "lifecycle_standby_days", "lifecycle_archive_days", "lifecycle_interval_secs"}
      ==> key in DAEMON_INT_KEYS
  {
    var ks := DAEMON_INT_KEYS;
    assert ks[4] in ks && ks[5] in ks && ks[6] in ks && ks[7] in ks;
  }

  lemma SavedReads(content: string, config: Config, s: Setting)
    requires NeverJoins(content, Settings(config)) && s in Settings(config)
    ensures Reads(SaveConfig(content, config), s.section, s.key, s.value)
  {
    hide *;
    var ss := Settings(config);
    SettingsAreValid(config);
    SaveIsFixpoint(content, config);
    var i :| 0 <= i < |ss| && ss[i] == s;
    SettledAmong(SplitInclusive(SaveConfig(content, config)), ss, i);
    SettledReads(SaveConfig(content, config), s);
  }

  lemma SettledAmong(lines: seq<string>, ss: seq<Setting>, i: nat)
    requires AllValid(ss) && AllSettled(lines, ss) && i < |ss|
    ensures ValidSetting(ss[i]) && Settled(lines, ss[i])
  {
    hide ValidSetting, Settled;
  }

  /** After a save in which no setting is put behind an unfinished line, each of the nineteen keys
      is read back with the value that the configuration has for it. */
  lemma SavedIsReadBack(content: string, config: Config, key: string)
    requires NeverJoins(content, Settings(config))
    ensures var text := SaveConfig(content, config);
            && (IsTextKey(key) ==> ReadsText(text, key, TextOf(config, key)))
            && (IsFlagKey(key) ==> Reads(text, Some("daemon"), key, if IsSet(config, key) then "true" else "false"))
            && (IsNumberKey(key) ==> ReadsNumber(text, key, NumberOf(config, key)))
  {
    KeysAreListed(key);
    FlagReads(IsSet(config, key));
    NumberReads(NumberOf(config, key));
    TextReads(TextOf(config, key));
    hide SaveConfig, Settings, NeverJoins, Reads, Unquote, Number, TomlString, TomlBool, IntText, TOP_LEVEL_KEYS,
      DAEMON_BOOL_KEYS, DAEMON_INT_KEYS, IsTextKey, IsFlagKey, IsNumberKey;
    if IsTextKey(key) {
      SettingAmong(config, TextSetting(config)(key));
      SavedReads(content, config, TextSetting(config)(key));
    }
    if IsFlagKey(key) {
      SettingAmong(config, FlagSetting(config)(key));
      SavedReads(content, config, FlagSetting(config)(key));
    }
    if IsNumberKey(key) {
      SettingAmong(config, NumberSetting(config)(key));
      SavedReads(content, config, NumberSetting(config)(key));
    }
  }
}
