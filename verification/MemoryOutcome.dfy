/** What a plan makes of a text, told in the text's own terms: its headings, bullets, dates and sizes. */
module MemoryOutcome {
  import opened Seqs
  import opened Text
  import opened MemoryParse
  import opened MemoryPlan

  // ----- texts as documents -----

  /** A section: its heading line, the lines before the first bullet, the entries, blank lines. */
  datatype Part = Part(heading: string, preamble: seq<string>, entries: seq<seq<string>>, trailing: seq<string>)

  function PartLines(p: Part): seq<string> {
    [p.heading] + (p.preamble + Flatten(p.entries) + p.trailing)
  }

  predicate Opens(l: string) {
    |l| >= 3 && l[0] == '#' && l[1] == '#' && l[2] == ' '
  }

  predicate Bullet(l: string) {
    |l| >= 2 && l[0] == '-' && l[1] == ' '
  }

  predicate IsPart(p: Part) {
    && Opens(p.heading)
    && HasNone(Opens, p.preamble + Flatten(p.entries) + p.trailing)
    && HasNone(Bullet, p.preamble)
    && (forall i :: 0 <= i < |p.entries| ==> StartsAtBullet(p.entries[i]))
    && (forall i :: 0 <= i < |p.trailing| ==> AllSpace(p.trailing[i]))
    && SolidEnd(p.preamble + Flatten(p.entries))
  }

  predicate StartsAtBullet(e: seq<string>) {
    e != [] && Bullet(e[0]) && HasNone(Bullet, e[1..])
  }

  predicate SolidEnd(ls: seq<string>) {
    ls == [] || !AllSpace(ls[|ls| - 1])
  }

  /** The lines of a text, cut at the lines that open a section. */
  predicate IsDocument(preface: seq<string>, parts: seq<Part>) {
    HasNone(Opens, preface) && (forall n :: 0 <= n < |parts| ==> IsPart(parts[n]))
    && WellFormed(preface + Flatten(Map(PartLines, parts)))
  }

  function DocumentText(preface: seq<string>, parts: seq<Part>): string {
    Flatten(preface + Flatten(Map(PartLines, parts)))
  }

  // ----- dates -----

  predicate IsDay(d: string) {
    |d| == 10 && forall i :: 0 <= i < 10 ==> if i == 4 || i == 7 then d[i] == '-' else '0' <= d[i] <= '9'
  }

  /** The line is a bullet with the day behind it, in brackets or not. */
  predicate HasDay(l: string, d: string) {
    IsDay(d) && ("- " + d <= l || "- [" + d <= l)
  }

  ghost predicate NoDay(es: seq<seq<string>>) {
    forall i, d :: 0 <= i < |es| ==> !(es[i] != [] && HasDay(es[i][0], d))
  }

  ghost predicate FirstDay(es: seq<seq<string>>, i: nat, d: string) {
    i < |es| && es[i] != [] && HasDay(es[i][0], d) && NoDay(es[..i])
  }

  ghost predicate LastDay(es: seq<seq<string>>, i: nat, d: string) {
    i < |es| && es[i] != [] && HasDay(es[i][0], d) && NoDay(es[i + 1..])
  }

  /** The days differ first in a place where a has the smaller digit. */
  predicate Earlier(a: string, b: string) {
    exists k :: 0 <= k < |a| && k < |b| && SmallerAt(a, b, k)
  }

  predicate SmallerAt(a: string, b: string, k: nat)
    requires k < |a| && k < |b|
  {
    a[..k] == b[..k] && a[k] < b[k]
  }

  /** The first dated entry has a later day than the last one. */
  ghost predicate NewestOnTop(es: seq<seq<string>>) {
    exists i, j, a, b :: i < j && FirstDay(es, i, a) && LastDay(es, j, b) && Earlier(b, a)
  }

  ghost predicate OldestOnTop(es: seq<seq<string>>) {
    exists i, j, a, b :: i < j && FirstDay(es, i, a) && LastDay(es, j, b) && Earlier(a, b)
  }

  // ----- what is kept -----

  /** How many bytes the entries from lo to hi take. */
  function Size(es: seq<seq<string>>, lo: nat, hi: nat): nat
    requires lo <= hi <= |es|
  {
    ByteLen(Flatten(Flatten(es[lo..hi])))
  }

  /** The first hi entries are as many as may stay, and no more. */
  predicate KeepsTop(es: seq<seq<string>>, budget: nat, least: nat, lo: nat, hi: nat)
    requires lo <= hi <= |es|
  {
    && lo == 0
    && (hi <= least || Size(es, 0, hi) <= budget)
    && (hi < |es| ==> hi >= least && Size(es, 0, hi + 1) > budget)
  }

  /** The same of the entries from lo to the end. */
  predicate KeepsBottom(es: seq<seq<string>>, budget: nat, least: nat, lo: nat, hi: nat)
    requires lo <= hi <= |es|
  {
    && hi == |es|
    && (hi - lo <= least || Size(es, lo, hi) <= budget)
    && (lo > 0 ==> hi - lo >= least && Size(es, lo - 1, hi) > budget)
  }

  predicate IsChangeLog(heading: string) {
    "## Change Log" <= heading
  }

  predicate IsInstincts(heading: string) {
    "## Instincts" <= heading && AllSpace(heading[12..])
  }

  /** The entries from lo to hi are those that stay of the section. */
  ghost predicate Stays(p: Part, policy: Policy, lo: nat, hi: nat) {
    lo <= hi <= |p.entries| &&
    if IsChangeLog(p.heading) && NewestOnTop(p.entries) then
      KeepsTop(p.entries, policy.changeLogBytes, policy.minEntries, lo, hi)
    else if IsChangeLog(p.heading) && OldestOnTop(p.entries) then
      KeepsBottom(p.entries, policy.changeLogBytes, policy.minEntries, lo, hi)
    else if IsInstincts(p.heading) then
      KeepsTop(p.entries, policy.instinctBytes, policy.minEntries, lo, hi)
    else lo == 0 && hi == |p.entries|
  }

  ghost predicate AllStay(parts: seq<Part>, policy: Policy, ranges: seq<(nat, nat)>) {
    |ranges| == |parts| && forall n :: 0 <= n < |parts| ==> Stays(parts[n], policy, ranges[n].0, ranges[n].1)
  }

  predicate InRange(parts: seq<Part>, ranges: seq<(nat, nat)>) {
    |ranges| == |parts| && forall n :: 0 <= n < |parts| ==> ranges[n].0 <= ranges[n].1 <= |parts[n].entries|
  }

  /** The lines that stay. */
  function LeftLines(parts: seq<Part>, ranges: seq<(nat, nat)>): seq<string>
    requires InRange(parts, ranges)
  {
    if parts == [] then []
    else
      var p := parts[0];
      [p.heading] + (p.preamble + Flatten(p.entries[ranges[0].0..ranges[0].1]) + p.trailing)
      + LeftLines(parts[1..], ranges[1..])
  }

  /** The texts of the entries that go, of the sections whose heading is of the kind. */
  function GoneTexts(parts: seq<Part>, ranges: seq<(nat, nat)>, kind: string -> bool): seq<string>
    requires InRange(parts, ranges)
  {
    if parts == [] then []
    else
      var es := parts[0].entries;
      (if kind(parts[0].heading) then Map(Flatten, es[..ranges[0].0] + es[ranges[0].1..]) else [])
      + GoneTexts(parts[1..], ranges[1..], kind)
  }

  /** How many entries of the sections called Instincts begin with a day. */
  ghost function DatedInstincts(parts: seq<Part>): nat {
    if parts == [] then 0
    else (if IsInstincts(parts[0].heading) then |DatedPlaces(parts[0].entries)| else 0) + DatedInstincts(parts[1..])
  }

  ghost function DatedPlaces(es: seq<seq<string>>): set<nat> {
    set i: nat | i < |es| && HasSomeDay(es[i])
  }

  ghost predicate HasSomeDay(e: seq<string>) {
    exists d :: e != [] && HasDay(e[0], d)
  }

  // ----- dates and orders -----

  lemma DayIsDate(d: string)
    ensures IsDay(d) <==> IsDate(d)
  {
  }

  lemma HasDayIs(l: string, d: string)
    ensures HasDay(l, d) <==> EntryDate(l) == Some(d)
  {
    DayIsDate(d);
    hide IsDate;
    if HasDay(l, d) {
      assert d[0] != '[';
      if "- " + d <= l {
        assert l[2..][..10] == d && l[2] == d[0];
      } else {
        assert l[2..][0] == '[' && l[2..][1..][..10] == d;
      }
    }
    if EntryDate(l) == Some(d) {
      var rest := l[2..];
      if "[" <= rest {
        assert l[..13] == "- [" + rest[1..][..10];
      } else {
        assert l[..12] == "- " + rest[..10];
      }
    }
  }

  lemma {:induction false} EarlierIsOlder(a: string, b: string)
    requires |a| == |b|
    ensures Earlier(a, b) <==> Older(a, b)
  {
    if a != "" {
      if Older(a, b) {
        if a[0] < b[0] {
          assert SmallerAt(a, b, 0);
        } else {
          EarlierIsOlder(a[1..], b[1..]);
          var k :| 0 <= k < |a[1..]| && SmallerAt(a[1..], b[1..], k);
          assert a[..k + 1] == [a[0]] + a[1..][..k] && b[..k + 1] == [b[0]] + b[1..][..k];
          assert SmallerAt(a, b, k + 1);
        }
      }
      if Earlier(a, b) {
        var k :| 0 <= k < |a| && SmallerAt(a, b, k);
        if k > 0 {
          assert a[0] == a[..k][0] == b[..k][0] == b[0];
          assert a[1..][..k - 1] == a[..k][1..] && b[1..][..k - 1] == b[..k][1..];
          assert SmallerAt(a[1..], b[1..], k - 1);
          EarlierIsOlder(a[1..], b[1..]);
        }
      }
    }
  }

  lemma DateOfIs(e: seq<string>, d: string)
    ensures e != [] && HasDay(e[0], d) <==> DateOf(e) == [d]
    ensures DateOf(e) == [] || DateOf(e) == [DateOf(e)[0]]
  {
    hide EntryDate, HasDay;
    if e != [] { HasDayIs(e[0], d); } else { NoDateInNothing(); }
  }

  lemma NoDateInNothing()
    ensures EntryDate("").None?
  {
  }

  lemma DatesAppend(a: seq<seq<string>>, b: seq<seq<string>>)
    ensures Dates(a + b) == Dates(a) + Dates(b)
  {
    hide DateOf, Flatten, Map;
    MapAppend(DateOf, a, b);
    FlattenAppend(Map(DateOf, a), Map(DateOf, b));
  }

  lemma DatesOne(e: seq<string>)
    ensures Dates([e]) == DateOf(e)
  {
    hide DateOf;
    assert Map(DateOf, [e]) == [DateOf(e)];
    FlattenOne(DateOf(e));
  }

  lemma DatesAround(es: seq<seq<string>>, i: nat)
    requires i < |es|
    ensures Dates(es) == Dates(es[..i]) + DateOf(es[i]) + Dates(es[i + 1..])
  {
    hide *;
    assert es == es[..i] + [es[i]] + es[i + 1..];
    DatesAppend(es[..i] + [es[i]], es[i + 1..]);
    DatesAppend(es[..i], [es[i]]);
    DatesOne(es[i]);
  }

  lemma {:induction false} NoDayIs(es: seq<seq<string>>)
    ensures NoDay(es) <==> Dates(es) == []
  {
    hide Dates, DateOf, HasDay;
    if es == [] {
      assert Dates([]) == [] by { NoDates(); }
    } else {
      DatesAround(es, 0);
      assert es[..0] == [] && Dates([]) == [] by { NoDates(); }
      NoDayIs(es[1..]);
      if NoDay(es) {
        forall i, d | 0 <= i < |es[1..]| ensures !(es[1..][i] != [] && HasDay(es[1..][i][0], d)) {
          assert !(es[i + 1] != [] && HasDay(es[i + 1][0], d));
        }
        if DateOf(es[0]) != [] { DateOfIs(es[0], DateOf(es[0])[0]); }
      } else {
        var i, d :| 0 <= i < |es| && es[i] != [] && HasDay(es[i][0], d);
        DateOfIs(es[i], d);
        if i > 0 { assert es[1..][i - 1] == es[i]; }
      }
    }
  }

  lemma NoDates()
    ensures Dates([]) == []
  {
  }

  lemma FirstDayIs(es: seq<seq<string>>, i: nat, d: string)
    requires FirstDay(es, i, d)
    ensures Dates(es) == [d] + Dates(es[i + 1..])
  {
    hide Dates, DateOf, HasDay, NoDay;
    DatesAround(es, i);
    NoDayIs(es[..i]);
    DateOfIs(es[i], d);
    assert [] + [d] + Dates(es[i + 1..]) == [d] + Dates(es[i + 1..]);
  }

  lemma LastDayIs(es: seq<seq<string>>, i: nat, d: string)
    requires LastDay(es, i, d)
    ensures Dates(es) == Dates(es[..i]) + [d]
  {
    hide Dates, DateOf, HasDay, NoDay;
    DatesAround(es, i);
    NoDayIs(es[i + 1..]);
    DateOfIs(es[i], d);
    assert Dates(es[..i]) + [d] + [] == Dates(es[..i]) + [d];
  }

  /** The two ends of a section with two dated entries. */
  lemma EndDays(es: seq<seq<string>>, i: nat, j: nat, a: string, b: string)
    requires i < j && FirstDay(es, i, a) && LastDay(es, j, b)
    ensures |Dates(es)| >= 2 && Dates(es)[0] == a && Dates(es)[|Dates(es)| - 1] == b && |a| == |b|
  {
    FirstDayIs(es, i, a);
    LastDayIs(es, j, b);
    hide Dates, DateOf, NoDay;
    DatesAround(es[..j], i);
    assert es[..j][i] == es[i];
    DateOfIs(es[i], a);
  }

  lemma {:induction false} SomeFirst(es: seq<seq<string>>) returns (i: nat, d: string)
    requires Dates(es) != []
    ensures FirstDay(es, i, d)
  {
    hide Dates, DateOf, HasDay, NoDay;
    if es == [] {
      NoDates();
    } else {
      DatesAround(es, 0);
      NoDates();
      assert es[..0] == [];
      if DateOf(es[0]) != [] {
        i, d := 0, DateOf(es[0])[0];
        DateOfIs(es[0], d);
        NoDayIs([]);
      } else {
        i, d := SomeFirst(es[1..]);
        assert es[..i + 1] == [es[0]] + es[1..][..i];
        DatesAppend([es[0]], es[1..][..i]);
        DatesOne(es[0]);
        NoDayIs(es[1..][..i]);
        NoDayIs(es[..i + 1]);
        i := i + 1;
      }
    }
  }

  lemma {:induction false} SomeLast(es: seq<seq<string>>) returns (i: nat, d: string)
    requires Dates(es) != []
    ensures LastDay(es, i, d)
    decreases |es|
  {
    hide Dates, DateOf, HasDay, NoDay;
    if es == [] {
      NoDates();
    } else {
      var n := |es| - 1;
      DatesAround(es, n);
      NoDates();
      assert es[n + 1..] == [];
      if DateOf(es[n]) != [] {
        i, d := n, DateOf(es[n])[0];
        DateOfIs(es[n], d);
        NoDayIs([]);
      } else {
        i, d := SomeLast(es[..n]);
        assert es[i + 1..] == es[..n][i + 1..] + [es[n]];
        DatesAppend(es[..n][i + 1..], [es[n]]);
        DatesOne(es[n]);
        NoDayIs(es[..n][i + 1..]);
        NoDayIs(es[i + 1..]);
      }
    }
  }

  lemma FirstBeforeLast(es: seq<seq<string>>, i: nat, j: nat, a: string, b: string)
    requires FirstDay(es, i, a) && LastDay(es, j, b) && |Dates(es)| >= 2
    ensures i < j
  {
    FirstDayIs(es, i, a);
    LastDayIs(es, j, b);
    hide Dates, DateOf;
    if i == j { NoDayIs(es[i + 1..]); }
  }

  lemma OrderIs(es: seq<seq<string>>)
    ensures NewestOnTop(es) <==> DetectOrder(es) == NewestFirst
    ensures OldestOnTop(es) <==> DetectOrder(es) == OldestFirst
  {
    hide Dates, FirstDay, LastDay, Older, Earlier;
    forall i, j, a, b | i < j && FirstDay(es, i, a) && LastDay(es, j, b)
      ensures |Dates(es)| >= 2 && Dates(es)[0] == a && Dates(es)[|Dates(es)| - 1] == b
      ensures Earlier(b, a) <==> Older(b, a)
      ensures Earlier(a, b) <==> Older(a, b)
      ensures !(Older(a, b) && Older(b, a))
    {
      EndDays(es, i, j, a, b);
      EarlierIsOlder(a, b);
      EarlierIsOlder(b, a);
      OlderTrichotomy(a, b);
    }
    if |Dates(es)| >= 2 {
      var i, a := SomeFirst(es);
      var j, b := SomeLast(es);
      FirstBeforeLast(es, i, j, a, b);
    }
  }

  // ----- sizes and ranges -----

  lemma {:induction false} TotalIsSize(es: seq<seq<string>>)
    ensures TotalBytes(es) == ByteLen(Flatten(Flatten(es)))
  {
    hide ByteLen;
    if es == [] {
      NoBytes();
    } else {
      TotalIsSize(es[1..]);
      FlattenAppend([es[0]], es[1..]);
      FlattenOne(es[0]);
      assert es == [es[0]] + es[1..];
      FlattenAppend(es[0], Flatten(es[1..]));
      ByteLenAppend(Flatten(es[0]), Flatten(Flatten(es[1..])));
    }
  }

  lemma NoBytes()
    ensures ByteLen(Flatten<char>(Flatten<string>([]))) == 0
  {
  }

  lemma FitsIs(es: seq<seq<string>>, order: Order, budget: nat, least: nat, k: nat)
    requires k <= |es|
    ensures order.NewestFirst? ==> (Fits(es, order, budget, least, k) <==> k <= least || Size(es, 0, k) <= budget)
    ensures !order.NewestFirst? ==>
      (Fits(es, order, budget, least, k) <==> k <= least || Size(es, |es| - k, |es|) <= budget)
  {
    hide TotalBytes, ByteLen, Flatten;
    TotalIsSize(Newest(es, order, k));
    assert es[..k] == es[0..k] && es[|es| - k..] == es[|es| - k..|es|];
  }

  lemma TopKept(es: seq<seq<string>>, budget: nat, least: nat)
    ensures KeepsTop(es, budget, least, 0, SplitPoint(es, NewestFirst, budget, least))
  {
    hide Fits, Size;
    var k := SplitPoint(es, NewestFirst, budget, least);
    FitsIs(es, NewestFirst, budget, least, k);
    if k < |es| { FitsIs(es, NewestFirst, budget, least, k + 1); }
  }

  lemma BottomKept(es: seq<seq<string>>, budget: nat, least: nat)
    ensures KeepsBottom(es, budget, least, |es| - SplitPoint(es, OldestFirst, budget, least), |es|)
  {
    hide Fits, Size;
    var k := SplitPoint(es, OldestFirst, budget, least);
    FitsIs(es, OldestFirst, budget, least, k);
    if k < |es| { FitsIs(es, OldestFirst, budget, least, k + 1); }
  }

  lemma HeadingKinds(h: string)
    ensures IsChangeLog(h) <==> SectionKind(h) == Some(ChangeLog)
    ensures IsInstincts(h) <==> SectionKind(h) == Some(Instincts)
  {
    TrimEndParts(h);
    hide TrimEnd;
    var t := TrimEnd(h);
    if "## Change Log" <= h { LettersStay(h, 13); }
    if IsInstincts(h) {
      assert h == "## Instincts" + h[12..];
      TrimEndUnique("## Instincts", h[12..]);
    }
  }

  /** A character that is not blank is not trimmed. */
  lemma LettersStay(h: string, n: nat)
    requires 0 < n <= |h| && !IsSpace(h[n - 1])
    ensures n <= |TrimEnd(h)|
  {
    TrimEndParts(h);
    hide TrimEnd;
    SpaceBehind(h, |TrimEnd(h)|, n - 1);
  }

  lemma SpaceBehind(h: string, from: nat, i: nat)
    requires from <= |h| && i < |h| && AllSpace(h[from..])
    ensures from <= i ==> IsSpace(h[i])
  {
    hide IsSpace;
    if from <= i { assert h[from..][i - from] == h[i]; }
  }

  /** The range that the plan keeps of a section. */
  function Range(p: Part, policy: Policy): (nat, nat) {
    var kind, es := SectionKind(p.heading), p.entries;
    if kind.None? then (0, |es|)
    else
      var order, k := OrderFor(kind.value, es), KeptCount(kind.value, es, policy);
      if order.OldestFirst? then (|es| - k, |es|) else (0, k)
  }

  lemma RangeStays(p: Part, policy: Policy)
    ensures Stays(p, policy, Range(p, policy).0, Range(p, policy).1)
  {
    hide SectionKind, KeepsTop, KeepsBottom, SplitPoint, NewestOnTop, OldestOnTop, DetectOrder, IsChangeLog, IsInstincts;
    HeadingKinds(p.heading);
    OrderIs(p.entries);
    var es := p.entries;
    TopKept(es, policy.changeLogBytes, policy.minEntries);
    BottomKept(es, policy.changeLogBytes, policy.minEntries);
    TopKept(es, policy.instinctBytes, policy.minEntries);
  }

  // ----- a document and what is parsed from it -----

  function BodyLines(p: Part): seq<string> {
    p.preamble + Flatten(p.entries) + p.trailing
  }

  function SectionOf(p: Part): Section {
    Section(p.heading, BodyLines(p))
  }

  function SectionsOf(parts: seq<Part>): seq<Section> {
    Map(SectionOf, parts)
  }

  lemma SameNone<T>(p: T -> bool, q: T -> bool, s: seq<T>)
    requires forall x :: p(x) <==> q(x)
    ensures HasNone(p, s) <==> HasNone(q, s)
  {
  }

  lemma SameMarks()
    ensures forall l :: Opens(l) <==> IsHeading(l)
    ensures forall l :: Bullet(l) <==> IsBullet(l)
  {
  }

  lemma PartIsSection(p: Part)
    requires IsPart(p)
    ensures WellFormedSection(SectionOf(p))
    ensures SplitBody(SectionOf(p).body) == Body(p.preamble, p.entries, p.trailing)
  {
    hide Flatten, SplitBody, Opens, Bullet, IsHeading, IsBullet, AllSpace, Blank, HasNone;
    SameMarks();
    SameNone(Opens, IsHeading, BodyLines(p));
    SameNone(Bullet, IsBullet, p.preamble);
    var b := Body(p.preamble, p.entries, p.trailing);
    forall i | 0 <= i < |p.entries| ensures IsEntry(p.entries[i]) {
      assert StartsAtBullet(p.entries[i]);
      SameNone(Bullet, IsBullet, p.entries[i][1..]);
    }
    forall i | 0 <= i < |p.trailing| ensures Blank(p.trailing[i]) { BlankIsAllSpace(p.trailing[i]); }
    var solid := p.preamble + Flatten(p.entries);
    if solid != [] { BlankIsAllSpace(solid[|solid| - 1]); }
    SplitBodyUnique(b);
  }

  lemma {:induction false} RenderOfParts(parts: seq<Part>)
    ensures RenderSections(SectionsOf(parts)) == Flatten(Map(PartLines, parts))
  {
    hide PartLines, BodyLines;
    if parts != [] {
      RenderOfParts(parts[1..]);
      assert SectionsOf(parts)[1..] == SectionsOf(parts[1..]);
      assert Map(PartLines, parts)[1..] == Map(PartLines, parts[1..]);
      PartLinesAre(parts[0]);
    }
  }

  lemma PartLinesAre(p: Part)
    ensures PartLines(p) == [p.heading] + BodyLines(p)
  {
  }

  /** A document is what is parsed from its text. */
  lemma DocumentIsParsed(preface: seq<string>, parts: seq<Part>)
    requires IsDocument(preface, parts)
    ensures ParseDoc(SplitInclusive(DocumentText(preface, parts))) == Doc(preface, SectionsOf(parts))
  {
    hide Flatten, SplitInclusive, ParseDoc, Opens, IsHeading, IsPart, WellFormedSection, HasNone, PartLines, WellFormed,
      RenderSections, SectionOf, Map;
    var d := Doc(preface, SectionsOf(parts));
    SameMarks();
    SameNone(Opens, IsHeading, preface);
    forall n | 0 <= n < |parts| ensures WellFormedSection(d.sections[n]) { PartIsSection(parts[n]); }
    RenderOfParts(parts);
    FlattenThenSplit(preface + Flatten(Map(PartLines, parts)));
    ParseRendered(d);
  }

  lemma SectionIsPart(s: Section) returns (p: Part)
    requires WellFormedSection(s)
    ensures IsPart(p) && SectionOf(p) == s
  {
    hide Flatten, SplitBody, Opens, Bullet, IsHeading, IsBullet, AllSpace, Blank, HasNone;
    SameMarks();
    var b := SplitBody(s.body);
    assert WellFormedBody(b) && RenderBody(b) == s.body;
    p := Part(s.heading, b.preamble, b.entries, b.trailing);
    SameNone(Opens, IsHeading, s.body);
    SameNone(Bullet, IsBullet, b.preamble);
    forall i | 0 <= i < |b.entries| ensures StartsAtBullet(b.entries[i]) {
      assert IsEntry(b.entries[i]);
      SameNone(Bullet, IsBullet, b.entries[i][1..]);
    }
    forall i | 0 <= i < |b.trailing| ensures AllSpace(b.trailing[i]) { BlankIsAllSpace(b.trailing[i]); }
    var solid := b.preamble + Flatten(b.entries);
    if solid != [] { BlankIsAllSpace(solid[|solid| - 1]); }
  }

  lemma {:induction false} SectionsAreParts(ss: seq<Section>) returns (parts: seq<Part>)
    requires forall n :: 0 <= n < |ss| ==> WellFormedSection(ss[n])
    ensures SectionsOf(parts) == ss && forall n :: 0 <= n < |parts| ==> IsPart(parts[n])
  {
    hide WellFormedSection, IsPart, SectionOf;
    if ss == [] {
      parts := [];
    } else {
      assert WellFormedSection(ss[0]);
      var p := SectionIsPart(ss[0]);
      var rest := SectionsAreParts(ss[1..]);
      parts := [p] + rest;
      MapAppend(SectionOf, [p], rest);
      assert Map(SectionOf, [p]) == [ss[0]];
    }
  }

  /** Every text is the text of a document. */
  lemma EveryTextIsADocument(content: string) returns (preface: seq<string>, parts: seq<Part>)
    ensures IsDocument(preface, parts) && DocumentText(preface, parts) == content
  {
    hide Flatten, SplitInclusive, ParseDoc, Opens, IsHeading, IsPart, WellFormedSection, HasNone, PartLines, WellFormed,
      RenderSections, SectionOf, Map;
    var lines := SplitInclusive(content);
    var d := ParseDoc(lines);
    ParsedWellFormed(lines);
    RenderParsed(lines);
    parts := SectionsAreParts(d.sections);
    preface := d.preface;
    RenderOfParts(parts);
    SameMarks();
    SameNone(Opens, IsHeading, preface);
    SplitIsWellFormed(content);
    SplitThenFlatten(content);
  }

  // ----- the plan, written out -----

  function Ranges(parts: seq<Part>, policy: Policy): seq<(nat, nat)> {
    Map(p => Range(p, policy), parts)
  }

  lemma PartPlan(p: Part, kind: Kind, policy: Policy)
    requires IsPart(p) && SectionKind(p.heading) == Some(kind)
    ensures var (lo, hi) := Range(p, policy);
            lo <= hi <= |p.entries|
            && PlanBody(kind, BodyLines(p), policy)
               == BodyPlan(p.preamble + Flatten(p.entries[lo..hi]) + p.trailing, p.entries[..lo] + p.entries[hi..])
  {
    hide Flatten, SplitBody, SectionKind, IsPart, OrderFor, SplitPoint, DetectOrder;
    PartIsSection(p);
    var es := p.entries;
    var order, k := OrderFor(kind, es), KeptCount(kind, es, policy);
    PlanBodyParts(kind, BodyLines(p), policy);
    if order.OldestFirst? {
      AtTheEnd(es, |es| - k);
    } else {
      assert es[..k] == es[0..k] && es[..0] + es[k..] == es[k..];
      assert order.Unknown? ==> k == |es| && es[|es| - k..] == es && es[..|es| - k] == [] && es[0..k] == es;
    }
  }

  lemma AtTheEnd<T>(s: seq<T>, lo: nat)
    requires lo <= |s|
    ensures s[lo..] == s[lo..|s|] && s[..lo] + s[|s|..] == s[..lo]
  {
  }

  lemma RangesFit(parts: seq<Part>, policy: Policy)
    ensures AllStay(parts, policy, Ranges(parts, policy)) && InRange(parts, Ranges(parts, policy))
  {
    hide Range, Stays;
    forall n | 0 <= n < |parts| ensures Stays(parts[n], policy, Ranges(parts, policy)[n].0, Ranges(parts, policy)[n].1) {
      RangeStays(parts[n], policy);
    }
    forall n | 0 <= n < |parts| ensures Ranges(parts, policy)[n].0 <= Ranges(parts, policy)[n].1 <= |parts[n].entries| {
      StaysInside(parts[n], policy, Ranges(parts, policy)[n].0, Ranges(parts, policy)[n].1);
    }
  }

  lemma StaysInside(p: Part, policy: Policy, lo: nat, hi: nat)
    requires Stays(p, policy, lo, hi)
    ensures lo <= hi <= |p.entries|
  {
  }

  lemma SectionLeft(p: Part, policy: Policy)
    requires IsPart(p)
    ensures var (lo, hi) := Range(p, policy);
            lo <= hi <= |p.entries|
            && PlanSection(SectionOf(p), policy) == Section(p.heading, p.preamble + Flatten(p.entries[lo..hi]) + p.trailing)
            && forall kind :: MovedOf(kind, SectionOf(p), policy) ==
                 if SectionKind(p.heading) == Some(kind) then p.entries[..lo] + p.entries[hi..] else []
  {
    hide Flatten, PlanBody, SectionKind, IsPart, Range;
    var kind := SectionKind(p.heading);
    if kind.Some? {
      PartPlan(p, kind.value, policy);
    } else {
      WholeRange(p, policy);
      assert p.entries[0..|p.entries|] == p.entries;
    }
  }

  lemma WholeRange(p: Part, policy: Policy)
    requires SectionKind(p.heading).None?
    ensures Range(p, policy) == (0, |p.entries|)
  {
    hide SectionKind;
  }

  lemma {:induction false} SectionsLeft(parts: seq<Part>, policy: Policy)
    requires forall n :: 0 <= n < |parts| ==> IsPart(parts[n])
    ensures InRange(parts, Ranges(parts, policy))
    ensures RenderSections(PlanSections(SectionsOf(parts), policy)) == LeftLines(parts, Ranges(parts, policy))
  {
    hide Flatten, IsPart, Range, PlanSection, SectionOf, Stays;
    RangesFit(parts, policy);
    if parts != [] {
      var rest := parts[1..];
      SectionsLeft(rest, policy);
      assert IsPart(parts[0]);
      SectionLeft(parts[0], policy);
      assert SectionsOf(parts)[1..] == SectionsOf(rest) && Ranges(parts, policy)[1..] == Ranges(rest, policy);
      var s, ss := PlanSection(SectionOf(parts[0]), policy), PlanSections(SectionsOf(rest), policy);
      assert ([s] + ss)[1..] == ss;
    }
  }

  lemma {:induction false} TextsGone(parts: seq<Part>, policy: Policy, kind: Kind, heading: string -> bool)
    requires forall n :: 0 <= n < |parts| ==> IsPart(parts[n])
    requires forall h :: heading(h) <==> SectionKind(h) == Some(kind)
    ensures InRange(parts, Ranges(parts, policy))
    ensures Map(Flatten, Moved(kind, SectionsOf(parts), policy)) == GoneTexts(parts, Ranges(parts, policy), heading)
  {
    hide Flatten, IsPart, Range, MovedOf, SectionOf, Stays, SectionKind;
    RangesFit(parts, policy);
    if parts != [] {
      var rest := parts[1..];
      TextsGone(rest, policy, kind, heading);
      assert IsPart(parts[0]);
      SectionLeft(parts[0], policy);
      assert SectionsOf(parts)[1..] == SectionsOf(rest) && Ranges(parts, policy)[1..] == Ranges(rest, policy);
      MapAppend(Flatten<char>, MovedOf(kind, SectionOf(parts[0]), policy), Moved(kind, SectionsOf(rest), policy));
      assert Map(Flatten<char>, []) == [];
    }
  }

  lemma {:induction false} DatedCount(es: seq<seq<string>>)
    ensures |Filter(Dated, es)| == |DatedPlaces(es)|
  {
    hide Dated, HasSomeDay;
    if es == [] {
      assert DatedPlaces(es) == {};
    } else {
      var n := |es| - 1;
      var front, e := es[..n], es[n];
      DatedCount(front);
      assert es == front + [e];
      FilterAppend(Dated, front, [e]);
      FilterOne(Dated, e);
      DatedIs(e);
      assert DatedPlaces(es) == DatedPlaces(front) + if HasSomeDay(e) then {n} else {};
      assert n !in DatedPlaces(front);
    }
  }

  lemma DatedIs(e: seq<string>)
    ensures Dated(e) <==> HasSomeDay(e)
  {
    hide HasDay, EntryDate;
    NoDateInNothing();
    if e != [] {
      if EntryDate(e[0]).Some? { HasDayIs(e[0], EntryDate(e[0]).value); }
      if d :| HasDay(e[0], d) { HasDayIs(e[0], d); }
    }
  }

  lemma {:induction false} MisfiledIs(parts: seq<Part>)
    requires forall n :: 0 <= n < |parts| ==> IsPart(parts[n])
    ensures Misfiled(SectionsOf(parts)) == DatedInstincts(parts)
  {
    hide IsPart, SectionKind, SplitBody, Dated, IsInstincts, BodyLines, DatedPlaces;
    if parts != [] {
      assert IsPart(parts[0]);
      MisfiledIs(parts[1..]);
      assert SectionsOf(parts)[1..] == SectionsOf(parts[1..]);
      PartIsSection(parts[0]);
      DatedCount(parts[0].entries);
      HeadingKinds(parts[0].heading);
    }
  }

  /** What a plan makes of a document: of each section the entries in a range stay, as many as its
      budget allows and no more, the newest ones; the texts of the others go, each under its kind. */
  lemma PlanWrittenOut(preface: seq<string>, parts: seq<Part>, policy: Policy) returns (ranges: seq<(nat, nat)>)
    requires IsDocument(preface, parts)
    ensures AllStay(parts, policy, ranges) && InRange(parts, ranges)
    ensures var p := PlanText(DocumentText(preface, parts), policy);
            p.newContent == Flatten(preface + LeftLines(parts, ranges))
            && p.changeLog == GoneTexts(parts, ranges, IsChangeLog)
            && p.instincts == GoneTexts(parts, ranges, IsInstincts)
            && p.misfiled == DatedInstincts(parts)
  {
    hide Flatten, ParseDoc, SplitInclusive, IsPart, SectionsOf, PlanSections, Moved, Misfiled, RenderSections, LeftLines,
      GoneTexts, DatedInstincts, Ranges, AllStay, InRange, SectionKind, WellFormed, HasNone, IsChangeLog, IsInstincts;
    ranges := Ranges(parts, policy);
    RangesFit(parts, policy);
    DocumentIsParsed(preface, parts);
    SectionsLeft(parts, policy);
    forall h ensures IsChangeLog(h) <==> SectionKind(h) == Some(ChangeLog) { HeadingKinds(h); }
    forall h ensures IsInstincts(h) <==> SectionKind(h) == Some(Instincts) { HeadingKinds(h); }
    TextsGone(parts, policy, ChangeLog, IsChangeLog);
    TextsGone(parts, policy, Instincts, IsInstincts);
    MisfiledIs(parts);
  }
}
