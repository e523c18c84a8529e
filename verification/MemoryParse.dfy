/** The parsing half of `memory_archive.rs`: sections, entries, entry order and the
    choice of how many entries stay. */
module MemoryParse {
  import opened Seqs
  import opened Text
  import Words

  datatype Order = NewestFirst | OldestFirst | Unknown

  datatype Kind = ChangeLog | Instincts

  datatype Policy = Policy(changeLogBytes: nat, instinctBytes: nat, minEntries: nat, triggerBytes: nat)

  predicate IsHeading(l: string) {
    "## " <= l
  }

  predicate IsBullet(l: string) {
    "- " <= l
  }

  function SectionKind(heading: string): Option<Kind> {
    var h := TrimEnd(heading);
    if "## Change Log" <= h then Some(ChangeLog)
    else if h == "## Instincts" then Some(Instincts)
    else None
  }

  lemma BulletNotBlank(l: string)
    requires IsBullet(l)
    ensures !Blank(l) && !IsHeading(l)
  {
    NotBlank(l, 0);
  }

  // ----- sections -----

  /** Indices from i on of the lines that open a section. */
  function Heads(lines: seq<string>, i: nat): (hs: seq<nat>)
    requires i <= |lines|
    ensures forall n :: 0 <= n < |hs| ==> i <= hs[n] < |lines| && IsHeading(lines[hs[n]])
    ensures forall m, n :: 0 <= m < n < |hs| ==> hs[m] < hs[n]
    ensures forall j :: i <= j < |lines| && IsHeading(lines[j]) ==> j in hs
    decreases |lines| - i
  {
    if i == |lines| then []
    else if IsHeading(lines[i]) then [i] + Heads(lines, i + 1)
    else Heads(lines, i + 1)
  }

  /** Index ranges, each from one heading to the next. */
  function Sections(lines: seq<string>): (secs: seq<(nat, nat)>)
    ensures forall n :: 0 <= n < |secs| ==> secs[n].0 < secs[n].1 <= |lines|
  {
    var hs := Heads(lines, 0);
    seq(|hs|, n requires 0 <= n < |hs| => (hs[n], if n + 1 < |hs| then hs[n + 1] else |lines|))
  }

  predicate NoHeadingBetween(lines: seq<string>, from: nat, to: nat) {
    forall j :: from <= j < to && j < |lines| ==> !IsHeading(lines[j])
  }

  lemma NoHeadBetween(lines: seq<string>, n: nat)
    requires n < |Sections(lines)|
    ensures NoHeadingBetween(lines, Sections(lines)[n].0 + 1, Sections(lines)[n].1)
  {
    hide Heads, IsHeading;
    var hs := Heads(lines, 0);
    forall j | hs[n] < j < Sections(lines)[n].1
      ensures !IsHeading(lines[j])
    {
      if j in hs {
        var m :| 0 <= m < |hs| && hs[m] == j;
        assert false;
      }
    }
  }

  /** Non-empty ranges that follow each other up to the end of the lines. */
  predicate Consecutive(lines: seq<string>, secs: seq<(nat, nat)>) {
    if secs == [] then true
    else
      && secs[0].0 < secs[0].1 <= |lines|
      && secs[0].1 == (if |secs| == 1 then |lines| else secs[1].0)
      && Consecutive(lines, secs[1..])
  }

  lemma {:induction false} SectionsConsecutiveFrom(lines: seq<string>, n: nat)
    requires n <= |Sections(lines)|
    ensures Consecutive(lines, Sections(lines)[n..])
    decreases |Sections(lines)| - n
  {
    var secs := Sections(lines);
    if n < |secs| {
      SectionsConsecutiveFrom(lines, n + 1);
      assert secs[n..][1..] == secs[n + 1..];
    }
  }

  /** The section ranges tile the lines from the first heading to the end, and exactly the
      headings start a range. */
  lemma SectionsTile(lines: seq<string>)
    ensures Consecutive(lines, Sections(lines))
    ensures forall n :: 0 <= n < |Sections(lines)| ==> IsHeading(lines[Sections(lines)[n].0])
    ensures forall n :: 0 <= n < |Sections(lines)| ==>
              NoHeadingBetween(lines, Sections(lines)[n].0 + 1, Sections(lines)[n].1)
    ensures NoHeadingBetween(lines, 0, FirstHeading(lines))
  {
    SectionsConsecutiveFrom(lines, 0);
    assert Sections(lines)[0..] == Sections(lines);
    forall n | 0 <= n < |Sections(lines)|
      ensures NoHeadingBetween(lines, Sections(lines)[n].0 + 1, Sections(lines)[n].1)
    {
      NoHeadBetween(lines, n);
    }
    var hs := Heads(lines, 0);
    forall j | 0 <= j < FirstHeading(lines)
      ensures !IsHeading(lines[j])
    {
      if j in hs {
        assert false;
      }
    }
  }

  function FirstHeading(lines: seq<string>): (n: nat)
    ensures n <= |lines|
  {
    if Sections(lines) == [] then |lines| else Sections(lines)[0].0
  }

  datatype Section = Section(heading: string, body: seq<string>)

  datatype Doc = Doc(preface: seq<string>, sections: seq<Section>)

  function RenderSections(ss: seq<Section>): seq<string> {
    if ss == [] then [] else [ss[0].heading] + (ss[0].body + RenderSections(ss[1..]))
  }

  function Render(d: Doc): seq<string> {
    d.preface + RenderSections(d.sections)
  }

  predicate NoHeading(ls: seq<string>) {
    HasNone(IsHeading, ls)
  }

  predicate WellFormedSection(s: Section) {
    IsHeading(s.heading) && NoHeading(s.body)
  }

  predicate WellFormedDoc(d: Doc) {
    NoHeading(d.preface) && forall i :: 0 <= i < |d.sections| ==> WellFormedSection(d.sections[i])
  }

  function SectionAt(lines: seq<string>, range: (nat, nat)): Section
    requires range.0 < range.1 <= |lines|
  {
    Section(lines[range.0], lines[range.0 + 1..range.1])
  }

  function SectionsAt(lines: seq<string>, secs: seq<(nat, nat)>): (ss: seq<Section>)
    requires forall n :: 0 <= n < |secs| ==> secs[n].0 < secs[n].1 <= |lines|
    ensures |ss| == |secs| && forall n :: 0 <= n < |secs| ==> ss[n] == SectionAt(lines, secs[n])
  {
    seq(|secs|, n requires 0 <= n < |secs| => SectionAt(lines, secs[n]))
  }

  /** The sections named by the index ranges, and the lines above them. */
  function ParseDoc(lines: seq<string>): Doc {
    Doc(lines[..FirstHeading(lines)], SectionsAt(lines, Sections(lines)))
  }

  lemma {:induction false} RenderTiles(lines: seq<string>, secs: seq<(nat, nat)>)
    requires Consecutive(lines, secs)
    requires forall n :: 0 <= n < |secs| ==> secs[n].0 < secs[n].1 <= |lines|
    ensures RenderSections(SectionsAt(lines, secs)) == lines[if secs == [] then |lines| else secs[0].0..]
  {
    if secs != [] {
      RenderTiles(lines, secs[1..]);
      var ss, from, to := SectionsAt(lines, secs), secs[0].0, secs[0].1;
      assert ss[1..] == SectionsAt(lines, secs[1..]);
      assert lines[from..] == [lines[from]] + (lines[from + 1..to] + lines[to..]);
    }
  }

  lemma SectionAtWellFormed(lines: seq<string>, n: nat)
    requires n < |Sections(lines)|
    ensures WellFormedSection(SectionAt(lines, Sections(lines)[n]))
  {
    NoHeadBetween(lines, n);
  }

  lemma ParsedWellFormed(lines: seq<string>)
    ensures WellFormedDoc(ParseDoc(lines))
  {
    SectionsTile(lines);
    forall n | 0 <= n < |Sections(lines)|
      ensures WellFormedSection(ParseDoc(lines).sections[n])
    {
      SectionAtWellFormed(lines, n);
    }
  }

  /** Parsing into sections loses nothing. */
  lemma RenderParsed(lines: seq<string>)
    ensures Render(ParseDoc(lines)) == lines
  {
    SectionsConsecutiveFrom(lines, 0);
    assert Sections(lines)[0..] == Sections(lines);
    RenderTiles(lines, Sections(lines));
  }

  lemma RenderSectionsHead(ss: seq<Section>)
    requires ss != []
    ensures RenderSections(ss) != [] && RenderSections(ss)[0] == ss[0].heading
    ensures RenderSections(ss)[1..] == ss[0].body + RenderSections(ss[1..])
  {
  }

  lemma {:induction false} RenderSectionsInjective(a: seq<Section>, b: seq<Section>)
    requires RenderSections(a) == RenderSections(b)
    requires forall i :: 0 <= i < |a| ==> WellFormedSection(a[i])
    requires forall i :: 0 <= i < |b| ==> WellFormedSection(b[i])
    ensures a == b
  {
    if a == [] || b == [] {
      if a != [] { RenderSectionsHead(a); }
      if b != [] { RenderSectionsHead(b); }
    } else {
      RenderSectionsHead(a);
      RenderSectionsHead(b);
      if |a| > 1 { RenderSectionsHead(a[1..]); }
      if |b| > 1 { RenderSectionsHead(b[1..]); }
      SamePrefix(IsHeading, a[0].body, RenderSections(a[1..]), b[0].body, RenderSections(b[1..]));
      RenderSectionsInjective(a[1..], b[1..]);
      assert a == [a[0]] + a[1..] && b == [b[0]] + b[1..];
    }
  }

  /** A well-formed document is what its own lines are parsed into. */
  lemma ParseRendered(d: Doc)
    requires WellFormedDoc(d)
    ensures ParseDoc(Render(d)) == d
  {
    var p := ParseDoc(Render(d));
    RenderParsed(Render(d));
    ParsedWellFormed(Render(d));
    if p.sections != [] { RenderSectionsHead(p.sections); }
    if d.sections != [] { RenderSectionsHead(d.sections); }
    SamePrefix(IsHeading, p.preface, RenderSections(p.sections), d.preface, RenderSections(d.sections));
    RenderSectionsInjective(p.sections, d.sections);
  }

  // ----- entries of one section -----

  datatype Body = Body(preamble: seq<string>, entries: seq<seq<string>>, trailing: seq<string>)

  function RenderBody(b: Body): seq<string> {
    b.preamble + Flatten(b.entries) + b.trailing
  }

  predicate NoBullet(ls: seq<string>) {
    HasNone(IsBullet, ls)
  }

  predicate AllBlank(ls: seq<string>) {
    forall i :: 0 <= i < |ls| ==> Blank(ls[i])
  }

  /** An entry is a bullet line and the lines up to the next bullet. */
  predicate IsEntry(e: seq<string>) {
    e != [] && IsBullet(e[0]) && NoBullet(e[1..])
  }

  predicate AllEntries(es: seq<seq<string>>) {
    forall i :: 0 <= i < |es| ==> IsEntry(es[i])
  }

  predicate EndsSolid(ls: seq<string>) {
    ls == [] || !Blank(ls[|ls| - 1])
  }

  predicate WellFormedBody(b: Body) {
    NoBullet(b.preamble) && AllEntries(b.entries) && AllBlank(b.trailing)
    && EndsSolid(b.preamble + Flatten(b.entries))
  }

  /** Where the blank lines at the end begin. */
  function ContentEnd(ls: seq<string>): (n: nat)
    ensures n <= |ls| && AllBlank(ls[n..]) && EndsSolid(ls[..n])
  {
    if ls != [] && Blank(ls[|ls| - 1]) then
      var n := ContentEnd(ls[..|ls| - 1]);
      assert ls[n..] == ls[..|ls| - 1][n..] + [ls[|ls| - 1]];
      assert ls[..n] == ls[..|ls| - 1][..n];
      n
    else
      |ls|
  }

  /** The lines above the first bullet, and the entries. */
  function Group(ls: seq<string>): (r: (seq<string>, seq<seq<string>>))
    ensures NoBullet(r.0) && AllEntries(r.1)
    ensures r.0 + Flatten(r.1) == ls
  {
    if ls == [] then ([], [])
    else
      var (p, es) := Group(ls[1..]);
      if IsBullet(ls[0]) then
        var r := ([], [[ls[0]] + p] + es);
        assert ([ls[0]] + p)[1..] == p && r.1[1..] == es;
        r
      else
        ([ls[0]] + p, es)
  }

  function SplitBody(body: seq<string>): (b: Body)
    ensures WellFormedBody(b) && RenderBody(b) == body
  {
    var end := ContentEnd(body);
    var (p, es) := Group(body[..end]);
    Body(p, es, body[end..])
  }

  lemma EntriesHead(es: seq<seq<string>>)
    requires AllEntries(es) && es != []
    ensures Flatten(es) != [] && Flatten(es)[0] == es[0][0]
    ensures Flatten(es)[1..] == es[0][1..] + Flatten(es[1..])
    ensures AllEntries(es[1..])
  {
    hide IsBullet, NoBullet;
    assert IsEntry(es[0]);
  }

  lemma {:induction false} EntriesInjective(a: seq<seq<string>>, b: seq<seq<string>>)
    requires AllEntries(a) && AllEntries(b) && Flatten(a) == Flatten(b)
    ensures a == b
  {
    if a != [] { EntriesHead(a); }
    if b != [] { EntriesHead(b); }
    if a != [] && b != [] {
      if |a| > 1 { EntriesHead(a[1..]); }
      if |b| > 1 { EntriesHead(b[1..]); }
      SamePrefix(IsBullet, a[0][1..], Flatten(a[1..]), b[0][1..], Flatten(b[1..]));
      EntriesInjective(a[1..], b[1..]);
      assert a[0] == [a[0][0]] + a[0][1..] && b[0] == [b[0][0]] + b[0][1..];
      assert a == [a[0]] + a[1..] && b == [b[0]] + b[1..];
    }
  }

  lemma {:induction false} ContentEndOf(a: seq<string>, x: seq<string>)
    requires EndsSolid(a) && AllBlank(x)
    ensures ContentEnd(a + x) == |a|
    decreases |x|
  {
    if x == [] {
      assert a + x == a;
    } else {
      assert (a + x)[..|a + x| - 1] == a + x[..|x| - 1];
      ContentEndOf(a, x[..|x| - 1]);
    }
  }

  lemma {:induction false} ContentEndAbove(ls: seq<string>, i: nat)
    requires i < |ls| && !Blank(ls[i])
    ensures i < ContentEnd(ls)
  {
    if Blank(ls[|ls| - 1]) {
      ContentEndAbove(ls[..|ls| - 1], i);
    }
  }

  lemma SameTail(a: seq<string>, x: seq<string>, b: seq<string>, y: seq<string>)
    requires a + x == b + y
    requires EndsSolid(a) && EndsSolid(b) && AllBlank(x) && AllBlank(y)
    ensures a == b && x == y
  {
    ContentEndOf(a, x);
    ContentEndOf(b, y);
    assert a == (a + x)[..|a|] && x == (a + x)[|a|..];
    assert b == (b + y)[..|b|] && y == (b + y)[|b|..];
  }

  /** There is only one way to cut a body into preamble, entries and trailing blanks. */
  lemma SplitBodyUnique(b: Body)
    requires WellFormedBody(b)
    ensures SplitBody(RenderBody(b)) == b
  {
    var c := SplitBody(RenderBody(b));
    SameTail(c.preamble + Flatten(c.entries), c.trailing, b.preamble + Flatten(b.entries), b.trailing);
    if c.entries != [] { EntriesHead(c.entries); }
    if b.entries != [] { EntriesHead(b.entries); }
    SamePrefix(IsBullet, c.preamble, Flatten(c.entries), b.preamble, Flatten(b.entries));
    EntriesInjective(c.entries, b.entries);
  }

  lemma FlattenSnoc(es: seq<seq<string>>, e: seq<string>)
    ensures Flatten(es + [e]) == Flatten(es) + e
  {
    FlattenAppend(es, [e]);
    FlattenOne(e);
  }

  lemma GrowLastEntry(es: seq<seq<string>>, line: string)
    requires es != [] && AllEntries(es) && !IsBullet(line)
    ensures var grown := es[|es| - 1 := es[|es| - 1] + [line]];
      AllEntries(grown) && Flatten(grown) == Flatten(es) + [line]
  {
    var k := |es| - 1;
    FlattenSnoc(es[..k], es[k]);
    FlattenSnoc(es[..k], es[k] + [line]);
    assert es[..k] + [es[k]] == es;
    assert es[..k] + [es[k] + [line]] == es[k := es[k] + [line]];
    assert (es[k] + [line])[1..] == es[k][1..] + [line];
  }

  /** What the loop of `split_body` has built from the lines it has read. */
  predicate Grouped(preamble: seq<string>, entries: seq<seq<string>>, ls: seq<string>) {
    NoBullet(preamble) && AllEntries(entries) && preamble + Flatten(entries) == ls
  }

  lemma GroupedSnoc(preamble: seq<string>, entries: seq<seq<string>>, ls: seq<string>, line: string)
    requires Grouped(preamble, entries, ls)
    ensures IsBullet(line) ==> Grouped(preamble, entries + [[line]], ls + [line])
    ensures !IsBullet(line) && entries == [] ==> Grouped(preamble + [line], entries, ls + [line])
    ensures !IsBullet(line) && entries != [] ==>
              Grouped(preamble, entries[|entries| - 1 := entries[|entries| - 1] + [line]], ls + [line])
  {
    if IsBullet(line) {
      FlattenSnoc(entries, [line]);
    } else if entries != [] {
      GrowLastEntry(entries, line);
    }
  }

  /** The first loop of `split_body`, which walks back over the blank lines. */
  method ContentEndLoop(body: seq<string>) returns (end: nat)
    ensures end == ContentEnd(body)
  {
    end := |body|;
    while end > 0 && Blank(body[end - 1])
      invariant end <= |body| && AllBlank(body[end..])
    {
      end := end - 1;
    }
    ContentEndOf(body[..end], body[end..]);
    assert body[..end] + body[end..] == body;
  }

  /** The loop of `split_body`: a bullet opens an entry, any other line goes to the entry
      that is open, or to the preamble while none is. */
  method SplitBodyLoop(body: seq<string>) returns (b: Body)
    ensures b == SplitBody(body)
  {
    var end := ContentEndLoop(body);
    var content, trailing := body[..end], body[end..];
    var preamble: seq<string> := [];
    var entries: seq<seq<string>> := [];
    for i := 0 to |content|
      invariant Grouped(preamble, entries, content[..i])
    {
      var line := content[i];
      GroupedSnoc(preamble, entries, content[..i], line);
      assert content[..i + 1] == content[..i] + [line];
      if IsBullet(line) {
        entries := entries + [[line]];
      } else if entries != [] {
        entries := entries[|entries| - 1 := entries[|entries| - 1] + [line]];
      } else {
        preamble := preamble + [line];
      }
    }
    b := Body(preamble, entries, trailing);
    assert content[..|content|] == content;
    SplitBodyUnique(b);
  }

  // ----- entry dates and order -----

  function FirstLine(e: seq<string>): string {
    if e == [] then "" else e[0]
  }

  /** `YYYY-MM-DD`. */
  predicate IsDate(d: string) {
    |d| == 10
    && (forall i :: 0 <= i < 4 ==> Words.IsDigit(d[i])) && d[4] == '-'
    && (forall i :: 5 <= i < 7 ==> Words.IsDigit(d[i])) && d[7] == '-'
    && (forall i :: 8 <= i < 10 ==> Words.IsDigit(d[i]))
  }

  /** The date an entry starts with. The source takes ten bytes; a date is ten ASCII bytes,
      which are ten characters. */
  function EntryDate(first: string): Option<string> {
    if !IsBullet(first) then None
    else
      var rest := first[2..];
      var rest := if "[" <= rest then rest[1..] else rest;
      if |rest| >= 10 && IsDate(rest[..10]) then Some(rest[..10]) else None
  }

  /** Lexicographic order of strings. */
  predicate Older(a: string, b: string) {
    b != "" && (a == "" || a[0] < b[0] || (a[0] == b[0] && Older(a[1..], b[1..])))
  }

  lemma {:induction false} OlderTrichotomy(a: string, b: string)
    ensures a == b || Older(a, b) || Older(b, a)
    ensures !(Older(a, b) && Older(b, a)) && (a == b ==> !Older(a, b))
  {
    if a != "" && b != "" && a[0] == b[0] {
      OlderTrichotomy(a[1..], b[1..]);
      assert a == [a[0]] + a[1..] && b == [b[0]] + b[1..];
    }
  }

  lemma {:induction false} OlderTransitive(a: string, b: string, c: string)
    requires Older(a, b) && Older(b, c)
    ensures Older(a, c)
  {
    if a != "" && a[0] == b[0] && b[0] == c[0] {
      OlderTransitive(a[1..], b[1..], c[1..]);
    }
  }

  function DateOf(e: seq<string>): seq<string> {
    var d := EntryDate(FirstLine(e));
    if d.Some? then [d.value] else []
  }

  /** The dates of the dated entries, in file order. */
  function Dates(es: seq<seq<string>>): seq<string> {
    Flatten(Map(DateOf, es))
  }

  function OrderOfDates(ds: seq<string>): Order {
    if |ds| < 2 then Unknown
    else
      var first, last := ds[0], ds[|ds| - 1];
      if Older(last, first) then NewestFirst
      else if Older(first, last) then OldestFirst
      else Unknown
  }

  function DetectOrder(es: seq<seq<string>>): Order {
    OrderOfDates(Dates(es))
  }

  // ----- how many entries stay -----

  function EntryBytes(e: seq<string>): nat {
    ByteLen(Flatten(e))
  }

  function TotalBytes(es: seq<seq<string>>): nat {
    if es == [] then 0 else EntryBytes(es[0]) + TotalBytes(es[1..])
  }

  lemma {:induction false} TotalBytesAppend(a: seq<seq<string>>, b: seq<seq<string>>)
    ensures TotalBytes(a + b) == TotalBytes(a) + TotalBytes(b)
  {
    if a == [] {
      assert a + b == b;
    } else {
      assert (a + b)[1..] == a[1..] + b;
      TotalBytesAppend(a[1..], b);
    }
  }

  /** The k newest entries, in file order. */
  function Newest(es: seq<seq<string>>, order: Order, k: nat): seq<seq<string>>
    requires k <= |es|
  {
    if order.NewestFirst? then es[..k] else es[|es| - k..]
  }

  /** The entries that are not among the k newest, in file order. */
  function Oldest(es: seq<seq<string>>, order: Order, k: nat): seq<seq<string>>
    requires k <= |es|
  {
    if order.NewestFirst? then es[k..] else es[..|es| - k]
  }

  predicate Fits(es: seq<seq<string>>, order: Order, budget: nat, minEntries: nat, k: nat)
    requires k <= |es|
  {
    k <= minEntries || TotalBytes(Newest(es, order, k)) <= budget
  }

  /** The greatest k up to `top` for which the k newest entries fit. */
  function LargestFit(es: seq<seq<string>>, order: Order, budget: nat, minEntries: nat, top: nat): (k: nat)
    requires top <= |es|
    ensures k <= top && Fits(es, order, budget, minEntries, k)
    ensures forall j :: k < j <= top ==> !Fits(es, order, budget, minEntries, j)
  {
    if Fits(es, order, budget, minEntries, top) then top
    else LargestFit(es, order, budget, minEntries, top - 1)
  }

  function SplitPoint(es: seq<seq<string>>, order: Order, budget: nat, minEntries: nat): (k: nat)
    ensures k <= |es|
  {
    LargestFit(es, order, budget, minEntries, |es|)
  }

  lemma NewestStep(es: seq<seq<string>>, order: Order, k: nat)
    requires k < |es|
    ensures TotalBytes(Newest(es, order, k + 1)) == TotalBytes(Newest(es, order, k))
            + EntryBytes(es[if order.NewestFirst? then k else |es| - 1 - k])
  {
    if order.NewestFirst? {
      TotalBytesAppend(es[..k], [es[k]]);
      assert es[..k + 1] == es[..k] + [es[k]];
    } else {
      assert es[|es| - (k + 1)..] == [es[|es| - 1 - k]] + es[|es| - k..];
    }
  }

  lemma {:induction false} NewestMonotone(es: seq<seq<string>>, order: Order, j: nat, k: nat)
    requires j <= k <= |es|
    ensures TotalBytes(Newest(es, order, j)) <= TotalBytes(Newest(es, order, k))
    decreases k - j
  {
    if j < k {
      NewestStep(es, order, k - 1);
      NewestMonotone(es, order, j, k - 1);
    }
  }

  /** The loop of `split_point`, which counts up from the newest end. */
  method SplitPointLoop(es: seq<seq<string>>, order: Order, budget: nat, minEntries: nat) returns (kept: nat)
    ensures kept == SplitPoint(es, order, budget, minEntries)
  {
    var n := |es|;
    kept := 0;
    var bytes := 0;
    while kept < n
      invariant kept <= n && bytes == TotalBytes(Newest(es, order, kept))
      invariant Fits(es, order, budget, minEntries, kept)
    {
      var s := EntryBytes(es[if order.NewestFirst? then kept else n - 1 - kept]);
      NewestStep(es, order, kept);
      if kept >= minEntries && bytes + s > budget {
        forall j | kept < j <= n
          ensures !Fits(es, order, budget, minEntries, j)
        {
          NewestMonotone(es, order, kept + 1, j);
        }
        return;
      }
      bytes := bytes + s;
      kept := kept + 1;
    }
  }
}
