/** `insert_change_log_entry` of `memory_archive.rs`, and what a later archive run does to
    the entry it inserted. */
module MemoryInsert {
  import opened Seqs
  import opened Text
  import opened MemoryParse
  import opened MemoryPlan

  const NEW_SECTION_HEADING := "## Change Log\n"

  function TrimNewlines(s: string): string {
    if s != "" && s[|s| - 1] == '\n' then TrimNewlines(s[..|s| - 1]) else s
  }

  function EntryLine(entry: string): string {
    TrimNewlines(entry) + "\n"
  }

  /** A single `- …` line, with or without its line end. */
  predicate OneLineEntry(entry: string) {
    IsBullet(entry) && NoNewline(TrimNewlines(entry))
  }

  lemma {:induction false} TrimNewlinesKeeps(s: string, k: nat)
    requires k < |s| && s[k] != '\n'
    ensures k < |TrimNewlines(s)| && TrimNewlines(s) <= s
  {
    if s[|s| - 1] == '\n' {
      TrimNewlinesKeeps(s[..|s| - 1], k);
    }
  }

  lemma EntryLineIsBullet(entry: string)
    requires OneLineEntry(entry)
    ensures IsBullet(EntryLine(entry)) && IsLine(EntryLine(entry)) && Terminated(EntryLine(entry))
    ensures IsEntry([EntryLine(entry)])
  {
    TrimNewlinesKeeps(entry, 1);
    assert EntryLine(entry)[..|EntryLine(entry)| - 1] == TrimNewlines(entry);
    assert [EntryLine(entry)][1..] == [];
  }

  /** The index of the first `## Change Log` section, or the number of sections. */
  function FirstLog(ss: seq<Section>): (n: nat)
    ensures n <= |ss|
    ensures n < |ss| ==> SectionKind(ss[n].heading) == Some(ChangeLog)
    ensures forall i :: 0 <= i < n ==> SectionKind(ss[i].heading) != Some(ChangeLog)
  {
    if ss == [] || SectionKind(ss[0].heading) == Some(ChangeLog) then 0 else 1 + FirstLog(ss[1..])
  }

  /** The lines of a section that go before and after the new entry. */
  function InsertionPoint(s: Section): (seq<string>, seq<string>) {
    var b := SplitBody(s.body);
    if DetectOrder(b.entries) == OldestFirst
    then ([s.heading] + b.preamble + Flatten(b.entries), b.trailing)
    else ([s.heading] + b.preamble, Flatten(b.entries) + b.trailing)
  }

  /** The text with the entry on the side its section treats as newest; only behind the
      oldest-first entries is a missing line end supplied. */
  function InsertText(content: string, entry: string): string {
    var ss := ParseDoc(SplitInclusive(content)).sections;
    var n := FirstLog(ss);
    if n == |ss| then
      TrimEnd(content) + "\n\n" + NEW_SECTION_HEADING + EntryLine(entry)
    else
      var (before, after) := InsertionPoint(ss[n]);
      var head := Flatten(ParseDoc(SplitInclusive(content)).preface + RenderSections(ss[..n]) + before);
      EnsureFinalNewline(head, DetectOrder(SplitBody(ss[n].body).entries) == OldestFirst)
        + EntryLine(entry) + Flatten(after + RenderSections(ss[n + 1..]))
  }

  // ----- the newest end stays -----

  /** The range of entries `plan` keeps. */
  function KeptRange(kind: Kind, es: seq<seq<string>>, policy: Policy): (r: (nat, nat))
    ensures r.0 <= r.1 <= |es|
  {
    var k := KeptCount(kind, es, policy);
    if OrderFor(kind, es).OldestFirst? then (|es| - k, |es|) else (0, k)
  }

  /** Exactly the entries in the kept range stay; the others are moved. */
  lemma KeptRangeIsKept(kind: Kind, body: seq<string>, policy: Policy)
    ensures var b := SplitBody(body);
      var (lo, hi) := KeptRange(kind, b.entries, policy);
      PlanBody(kind, body, policy)
        == BodyPlan(b.preamble + Flatten(b.entries[lo..hi]) + b.trailing, b.entries[..lo] + b.entries[hi..])
  {
    PlanBodyParts(kind, body, policy);
    hide SplitBody, PlanBody, DetectOrder, SplitPoint, Flatten;
    var es := SplitBody(body).entries;
    var order, k := OrderFor(kind, es), KeptCount(kind, es, policy);
    KeptAndMoved(es, order, k);
    var (lo, hi) := KeptRange(kind, es, policy);
    assert Newest(es, order, k) == es[lo..hi];
    assert Oldest(es, order, k) == es[..lo] + es[hi..];
  }

  lemma OneEntryStays(kind: Kind, es: seq<seq<string>>, policy: Policy)
    requires policy.minEntries >= 1 && es != []
    ensures KeptCount(kind, es, policy) >= 1
  {
    assert Fits(es, OrderFor(kind, es), BudgetFor(kind, policy), policy.minEntries, 1);
  }

  /** No dated entry is newer than the new one. */
  predicate NotOlderThan(line: string, es: seq<seq<string>>) {
    EntryDate(line).Some? ==> forall d :: d in Dates(es) ==> !Older(EntryDate(line).value, d)
  }

  lemma DatesAppend(a: seq<seq<string>>, b: seq<seq<string>>)
    ensures Dates(a + b) == Dates(a) + Dates(b)
  {
    MapAppend(DateOf, a, b);
    FlattenAppend(Map(DateOf, a), Map(DateOf, b));
  }

  lemma DatesOne(e: seq<string>)
    ensures Dates([e]) == DateOf(e)
  {
    assert Map(DateOf, [e]) == [DateOf(e)];
    FlattenOne(DateOf(e));
  }

  lemma OldestFirstStays(es: seq<seq<string>>, line: string)
    requires DetectOrder(es) == OldestFirst && NotOlderThan(line, es)
    ensures DetectOrder(es + [[line]]) == OldestFirst
  {
    DatesAppend(es, [[line]]);
    DatesOne([line]);
    var ds := Dates(es);
    assert FirstLine([line]) == line;
    hide Dates, EntryDate, Older;
    var last := ds[|ds| - 1];
    OlderTrichotomy(ds[0], last);
    if EntryDate(line).Some? {
      var d := EntryDate(line).value;
      assert last in ds;
      OlderTrichotomy(last, d);
      if last != d {
        OlderTransitive(ds[0], last, d);
      }
      OlderTrichotomy(ds[0], d);
    } else {
      assert ds + [] == ds;
    }
  }

  lemma PrependedNotOldestFirst(es: seq<seq<string>>, line: string)
    requires DetectOrder(es) != OldestFirst && NotOlderThan(line, es)
    ensures DetectOrder([[line]] + es) != OldestFirst
  {
    DatesAppend([[line]], es);
    DatesOne([line]);
    var ds := Dates(es);
    assert FirstLine([line]) == line;
    hide Dates, EntryDate, Older;
    if EntryDate(line).Some? && ds != [] {
      assert ds[|ds| - 1] in ds;
    } else if EntryDate(line).None? {
      assert [] + ds == ds;
    }
  }

  /** The entries of the section once the line is in, and the index of the new one. */
  function WithEntry(es: seq<seq<string>>, line: string): (r: (seq<seq<string>>, nat))
    ensures r.1 < |r.0| && r.0[r.1] == [line]
  {
    if DetectOrder(es) == OldestFirst then (es + [[line]], |es|) else ([[line]] + es, 0)
  }

  /** An entry inserted at the newest end is in the kept range of the next plan. */
  lemma NewEntryInKeptRange(es: seq<seq<string>>, line: string, policy: Policy)
    requires NotOlderThan(line, es) && policy.minEntries >= 1
    ensures var (es', i) := WithEntry(es, line);
      var (lo, hi) := KeptRange(ChangeLog, es', policy);
      lo <= i < hi
  {
    var (es', i) := WithEntry(es, line);
    OneEntryStays(ChangeLog, es', policy);
    if DetectOrder(es) == OldestFirst {
      OldestFirstStays(es, line);
    } else {
      PrependedNotOldestFirst(es, line);
    }
  }

  // ----- the lines of the new text -----

  /** The one shape of text the insertion does not handle: the Change Log section has no entry,
      nothing follows it, and the file stops in the middle of its last line. */
  predicate Joins(content: string) {
    var ss := ParseDoc(SplitInclusive(content)).sections;
    var n := FirstLog(ss);
    && n < |ss| && n == |ss| - 1
    && SplitBody(ss[n].body).entries == [] && SplitBody(ss[n].body).trailing == []
    && !Terminated(content)
  }

  /** The lines with the end of the last one supplied. */
  function Complete(ls: seq<string>): seq<string> {
    if ls == [] then [] else ls[..|ls| - 1] + [EnsureFinalNewline(ls[|ls| - 1], true)]
  }

  predicate IsLog(s: Section) {
    SectionKind(s.heading) == Some(ChangeLog)
  }

  lemma LogWhateverBody(s: Section, body: seq<string>)
    requires IsLog(s)
    ensures IsLog(Section(s.heading, body))
  {
  }

  lemma FlattenLast(ls: seq<string>)
    requires ls != []
    ensures Flatten(ls) == Flatten(ls[..|ls| - 1]) + ls[|ls| - 1]
  {
    hide Flatten;
    assert ls == ls[..|ls| - 1] + [ls[|ls| - 1]];
    FlattenAppend(ls[..|ls| - 1], [ls[|ls| - 1]]);
    FlattenOne(ls[|ls| - 1]);
  }

  lemma CompleteLine(l: string)
    requires IsLine(l)
    ensures IsLine(EnsureFinalNewline(l, true)) && Terminated(EnsureFinalNewline(l, true))
  {
    if !Terminated(l) {
      assert (l + "\n")[..|l|] == l;
      assert l == l[..|l| - 1] + [l[|l| - 1]];
    }
  }

  lemma CompleteWellFormed(ls: seq<string>)
    requires WellFormed(ls) && ls != []
    ensures WellFormed(Complete(ls)) && HasNone(Unterminated, Complete(ls))
    ensures Terminated(ls[|ls| - 1]) ==> Complete(ls) == ls
  {
    hide EnsureFinalNewline;
    CompleteLine(ls[|ls| - 1]);
    NewlineNotAdded(ls[|ls| - 1], Terminated(ls[|ls| - 1]));
    if Terminated(ls[|ls| - 1]) {
      assert ls == ls[..|ls| - 1] + [ls[|ls| - 1]];
    }
  }

  lemma CompleteAppend(x: string, l: string)
    requires l != ""
    ensures EnsureFinalNewline(x + l, true) == x + EnsureFinalNewline(l, true)
  {
    assert (x + l)[|x + l| - 1] == l[|l| - 1];
    assert x + l + "\n" == x + (l + "\n");
  }

  lemma CompleteText(ls: seq<string>)
    requires ls != [] && ls[|ls| - 1] != ""
    ensures EnsureFinalNewline(Flatten(ls), true) == Flatten(Complete(ls))
  {
    hide Flatten, EnsureFinalNewline;
    FlattenLast(ls);
    FlattenLast(Complete(ls));
    CompleteAppend(Flatten(ls[..|ls| - 1]), ls[|ls| - 1]);
    assert Complete(ls)[..|ls| - 1] == ls[..|ls| - 1];
  }

  lemma CompleteLines(ls: seq<string>)
    requires WellFormed(ls) && ls != []
    ensures WellFormed(Complete(ls)) && HasNone(Unterminated, Complete(ls))
    ensures EnsureFinalNewline(Flatten(ls), true) == Flatten(Complete(ls))
    ensures Terminated(ls[|ls| - 1]) ==> Complete(ls) == ls
  {
    CompleteWellFormed(ls);
    assert IsLine(ls[|ls| - 1]);
    hide Flatten, WellFormed, HasNone, Complete, EnsureFinalNewline;
    CompleteText(ls);
  }

  lemma JoinWellFormed(a: seq<string>, line: string, b: seq<string>)
    requires WellFormed(a) && HasNone(Unterminated, a) && IsLine(line) && Terminated(line) && WellFormed(b)
    ensures SplitInclusive(Flatten(a) + line + Flatten(b)) == a + [line] + b
  {
    hide Flatten, SplitInclusive;
    forall i | 0 <= i < |a|
      ensures Terminated(a[i])
    {
      assert !Unterminated(a[i]);
    }
    FlattenThree(a, [line], b);
    FlattenOne(line);
    FlattenThenSplit(a + [line] + b);
  }

  lemma TerminatedText(content: string)
    requires content != ""
    ensures SplitInclusive(content) != []
    ensures Terminated(content) <==> Terminated(SplitInclusive(content)[|SplitInclusive(content)| - 1])
  {
    hide Flatten, SplitInclusive;
    var ls := SplitInclusive(content);
    SplitThenFlatten(content);
    SplitIsWellFormed(content);
    FlattenLast(ls);
    assert ls[|ls| - 1] != "";
  }

  /** The lines before and after the insertion, for a text that has a Change Log section. */
  ghost predicate Around(content: string, before: seq<string>, after: seq<string>) {
    var d := ParseDoc(SplitInclusive(content));
    var n := FirstLog(d.sections);
    && n < |d.sections|
    && before == d.preface + RenderSections(d.sections[..n]) + InsertionPoint(d.sections[n]).0
    && after == InsertionPoint(d.sections[n]).1 + RenderSections(d.sections[n + 1..])
  }

  lemma {:induction false} RenderAt(ss: seq<Section>, n: nat)
    requires n < |ss|
    ensures RenderSections(ss)
         == RenderSections(ss[..n]) + ([ss[n].heading] + ss[n].body) + RenderSections(ss[n + 1..])
  {
    if n > 0 {
      RenderAt(ss[1..], n - 1);
      assert ss[1..][..n - 1] == ss[..n][1..] && ss[1..][n..] == ss[n + 1..];
    }
  }

  lemma FourParts(h: seq<string>, p: seq<string>, f: seq<string>, t: seq<string>)
    ensures h + p + f + t == h + (p + f + t) && h + p + (f + t) == h + (p + f + t)
  {
  }

  lemma InsertionPointLines(s: Section)
    ensures InsertionPoint(s).0 + InsertionPoint(s).1 == [s.heading] + s.body
    ensures InsertionPoint(s).0 != []
  {
    hide Flatten, DetectOrder, SplitBody;
    var b := SplitBody(s.body);
    FourParts([s.heading], b.preamble, Flatten(b.entries), b.trailing);
  }

  lemma AroundLines(content: string, before: seq<string>, after: seq<string>)
    requires Around(content, before, after)
    ensures before + after == SplitInclusive(content) && before != []
    ensures WellFormed(before) && WellFormed(after)
    ensures after != [] ==> HasNone(Unterminated, before)
  {
    var lines := SplitInclusive(content);
    var d := ParseDoc(lines);
    var n := FirstLog(d.sections);
    hide SplitInclusive, ParseDoc, FirstLog, InsertionPoint, RenderSections;
    RenderParsed(lines);
    RenderAt(d.sections, n);
    InsertionPointLines(d.sections[n]);
    assert before + after == lines;
    SplitIsWellFormed(content);
    if after != [] {
      UnterminatedIsLast(before, after);
    }
    assert forall i :: 0 <= i < |before| ==> before[i] == lines[i];
    assert forall i :: 0 <= i < |after| ==> after[i] == lines[|before| + i];
  }

  lemma RenderedEmpty(ss: seq<Section>)
    ensures RenderSections(ss) == [] <==> ss == []
  {
  }

  lemma EmptyFlatten(es: seq<seq<string>>)
    requires AllEntries(es) && Flatten(es) == []
    ensures es == []
  {
  }

  lemma NotJoined(content: string, before: seq<string>, after: seq<string>)
    requires Around(content, before, after) && !Joins(content) && after == []
    ensures var ss := ParseDoc(SplitInclusive(content)).sections;
      DetectOrder(SplitBody(ss[FirstLog(ss)].body).entries) == OldestFirst || Terminated(content)
  {
    hide SplitInclusive, ParseDoc, FirstLog, Flatten, DetectOrder;
    var ss := ParseDoc(SplitInclusive(content)).sections;
    var n := FirstLog(ss);
    RenderedEmpty(ss[n + 1..]);
    var b := SplitBody(ss[n].body);
    hide SplitBody;
    if DetectOrder(b.entries) != OldestFirst {
      assert Flatten(b.entries) == [] && b.trailing == [];
      EmptyFlatten(b.entries);
    }
  }

  /** Unless it joins a line, the new entry becomes a line of its own between the others; at
      most a missing line end is supplied. */
  lemma InsertedLines(content: string, entry: string, before: seq<string>, after: seq<string>)
    requires Around(content, before, after) && !Joins(content) && OneLineEntry(entry)
    ensures SplitInclusive(InsertText(content, entry)) == Complete(before) + [EntryLine(entry)] + after
    ensures after != [] || Terminated(content) ==> Complete(before) == before
  {
    AroundLines(content, before, after);
    EntryLineIsBullet(entry);
    if after == [] {
      NotJoined(content, before, after);
      assert before + after == before;
    }
    CompleteLines(before);
    var ss := ParseDoc(SplitInclusive(content)).sections;
    var oldestFirst := DetectOrder(SplitBody(ss[FirstLog(ss)].body).entries) == OldestFirst;
    InsertTextAround(content, entry, before, after);
    hide *;
    if after == [] {
      assert before == SplitInclusive(content);
    }
    WhetherCompleted(content, before, after, oldestFirst);
    JoinWellFormed(Complete(before), EntryLine(entry), after);
  }

  lemma InsertTextAround(content: string, entry: string, before: seq<string>, after: seq<string>)
    requires Around(content, before, after)
    ensures var ss := ParseDoc(SplitInclusive(content)).sections;
      var oldestFirst := DetectOrder(SplitBody(ss[FirstLog(ss)].body).entries) == OldestFirst;
      InsertText(content, entry)
        == EnsureFinalNewline(Flatten(before), oldestFirst) + EntryLine(entry) + Flatten(after)
  {
    hide SplitInclusive, ParseDoc, FirstLog, Flatten, DetectOrder, SplitBody, RenderSections, InsertionPoint, EntryLine;
  }

  lemma WhetherCompleted(content: string, before: seq<string>, after: seq<string>, oldestFirst: bool)
    requires before != [] && WellFormed(before)
    requires after != [] ==> HasNone(Unterminated, before)
    requires after == [] ==> before == SplitInclusive(content) && (oldestFirst || Terminated(content))
    ensures EnsureFinalNewline(Flatten(before), oldestFirst) == Flatten(Complete(before))
    ensures after != [] || Terminated(content) ==> Complete(before) == before
  {
    CompleteLines(before);
    var last := before[|before| - 1];
    if after != [] {
      assert !Unterminated(last);
    } else if Terminated(content) {
      TerminatedText(content);
    }
    hide Flatten, SplitInclusive;
    if Terminated(last) {
      FlattenLast(before);
    }
  }

  // ----- the sections of the new text -----

  lemma RenderUpdate(d: Doc, n: nat, s: Section)
    requires n < |d.sections|
    ensures Render(Doc(d.preface, d.sections[n := s]))
         == d.preface + RenderSections(d.sections[..n]) + ([s.heading] + s.body) + RenderSections(d.sections[n + 1..])
  {
    hide RenderSections;
    var ss := d.sections[n := s];
    RenderAt(ss, n);
    assert ss[..n] == d.sections[..n] && ss[n + 1..] == d.sections[n + 1..];
    assert d.preface + (RenderSections(ss[..n]) + ([s.heading] + s.body) + RenderSections(ss[n + 1..]))
        == d.preface + RenderSections(ss[..n]) + ([s.heading] + s.body) + RenderSections(ss[n + 1..]);
  }

  /** Lines that differ in one section parse into sections that differ in that one. */
  lemma ParseUpdated(d: Doc, n: nat, s: Section, lines: seq<string>)
    requires WellFormedDoc(d) && n < |d.sections| && WellFormedSection(s)
    requires lines == d.preface + RenderSections(d.sections[..n]) + ([s.heading] + s.body)
                      + RenderSections(d.sections[n + 1..])
    ensures ParseDoc(lines) == Doc(d.preface, d.sections[n := s])
  {
    RenderUpdate(d, n, s);
    hide Render, ParseDoc;
    ParseRendered(Doc(d.preface, d.sections[n := s]));
  }

  /** The body of the Change Log with the entry in it. */
  function WithEntryBody(body: seq<string>, line: string): Body {
    var b := SplitBody(body);
    Body(b.preamble, WithEntry(b.entries, line).0, b.trailing)
  }

  lemma WithEntryWellFormed(body: seq<string>, line: string)
    requires IsEntry([line])
    ensures WellFormedBody(WithEntryBody(body, line))
  {
    hide SplitBody, DetectOrder;
    var b := SplitBody(body);
    var es := WithEntry(b.entries, line).0;
    BulletNotBlank(line);
    if DetectOrder(b.entries) == OldestFirst {
      FlattenSnoc(b.entries, [line]);
    } else {
      assert Flatten(es) == [line] + Flatten(b.entries) by { assert es[1..] == b.entries; }
      SolidAfterBullet(b.preamble, line, Flatten(b.entries));
    }
  }

  lemma SolidAfterBullet(p: seq<string>, line: string, x: seq<string>)
    requires EndsSolid(p + x) && !Blank(line)
    ensures EndsSolid(p + ([line] + x))
  {
    hide Blank;
    var a, b := p + x, p + ([line] + x);
    if x == [] {
      assert b[|b| - 1] == line;
    } else {
      assert a[|a| - 1] == x[|x| - 1] && b[|b| - 1] == x[|x| - 1];
    }
  }

  lemma WithEntryLines(s: Section, line: string)
    ensures InsertionPoint(s).0 + [line] + InsertionPoint(s).1
         == [s.heading] + RenderBody(WithEntryBody(s.body, line))
  {
    hide SplitBody, DetectOrder, Flatten;
    var b := SplitBody(s.body);
    if DetectOrder(b.entries) == OldestFirst {
      FlattenSnoc(b.entries, [line]);
      var f, t := Flatten(b.entries), b.trailing;
      assert [s.heading] + b.preamble + f + [line] + t == [s.heading] + (b.preamble + (f + [line]) + t);
    } else {
      FlattenCons([line], b.entries);
      var f, t := Flatten(b.entries), b.trailing;
      assert [s.heading] + b.preamble + [line] + (f + t) == [s.heading] + (b.preamble + ([line] + f) + t);
    }
  }

  lemma FlattenCons(e: seq<string>, es: seq<seq<string>>)
    ensures Flatten([e] + es) == e + Flatten(es)
  {
    assert ([e] + es)[1..] == es;
  }

  /** The Change Log section and everything else of a text that has one. */
  lemma LogSection(content: string) returns (d: Doc, n: nat, s: Section, top: seq<string>, below: seq<string>)
    requires FirstLog(ParseDoc(SplitInclusive(content)).sections) < |ParseDoc(SplitInclusive(content)).sections|
    ensures d == ParseDoc(SplitInclusive(content)) && WellFormedDoc(d)
    ensures n == FirstLog(d.sections) && n < |d.sections| && s == d.sections[n] && WellFormedSection(s) && IsLog(s)
    ensures top == d.preface + RenderSections(d.sections[..n]) && below == RenderSections(d.sections[n + 1..])
    ensures Around(content, top + InsertionPoint(s).0, InsertionPoint(s).1 + below)
  {
    hide SplitInclusive, ParseDoc, FirstLog, InsertionPoint, RenderSections, WellFormedSection;
    d := ParseDoc(SplitInclusive(content));
    n := FirstLog(d.sections);
    s := d.sections[n];
    top, below := d.preface + RenderSections(d.sections[..n]), RenderSections(d.sections[n + 1..]);
    ParsedWellFormed(SplitInclusive(content));
  }

  /** The line before the insertion point is complete. */
  predicate EndsBeforeInsertion(content: string) {
    var ss := ParseDoc(SplitInclusive(content)).sections;
    var n := FirstLog(ss);
    n < |ss| && !Joins(content)
    && (Terminated(content) || InsertionPoint(ss[n]).1 + RenderSections(ss[n + 1..]) != [])
  }

  lemma InsertedLinesComplete(content: string, entry: string, before: seq<string>, after: seq<string>)
    requires Around(content, before, after) && OneLineEntry(entry) && EndsBeforeInsertion(content)
    ensures SplitInclusive(InsertText(content, entry)) == before + [EntryLine(entry)] + after
  {
    hide SplitInclusive, ParseDoc, FirstLog, InsertionPoint, RenderSections, InsertText, Joins, Complete, EntryLine;
    InsertedLines(content, entry, before, after);
  }

  /** Inserting into a text that ends its last line changes one section, and there adds one
      entry at the newest end. */
  lemma InsertedDoc(content: string, entry: string)
    requires OneLineEntry(entry) && EndsBeforeInsertion(content)
    ensures var d := ParseDoc(SplitInclusive(content));
      var n := FirstLog(d.sections);
      n < |d.sections| &&
      var b := WithEntryBody(d.sections[n].body, EntryLine(entry));
      && ParseDoc(SplitInclusive(InsertText(content, entry)))
         == Doc(d.preface, d.sections[n := Section(d.sections[n].heading, RenderBody(b))])
      && SplitBody(RenderBody(b)) == b
  {
    hide SplitInclusive, ParseDoc, FirstLog, InsertionPoint, RenderSections, InsertText, Joins, EntryLine,
         WithEntryBody, RenderBody, SplitBody, Around, OneLineEntry, WellFormedDoc, NoHeading, IsHeading,
         WellFormedBody;
    var d, n, s, top, below := LogSection(content);
    var line := EntryLine(entry);
    var b := WithEntryBody(s.body, line);
    var x, y := InsertionPoint(s).0, InsertionPoint(s).1;
    InsertedLinesComplete(content, entry, top + x, y + below);
    WithEntryLines(s, line);
    EntryLineIsBullet(entry);
    WithEntryWellFormed(s.body, line);
    SplitBodyUnique(b);
    WithEntryNoHeading(s, line);
    Reassociate(top, x, line, y, below);
    ParseUpdated(d, n, Section(s.heading, RenderBody(b)), SplitInclusive(InsertText(content, entry)));
  }

  lemma Reassociate(top: seq<string>, x: seq<string>, line: string, y: seq<string>, below: seq<string>)
    ensures top + x + [line] + (y + below) == top + (x + [line] + y) + below
  {
  }

  lemma WithEntryNoHeading(s: Section, line: string)
    requires IsHeading(s.heading) && NoHeading(s.body) && IsBullet(line)
    ensures WellFormedSection(Section(s.heading, RenderBody(WithEntryBody(s.body, line))))
  {
    hide SplitBody, InsertionPoint, WithEntryBody, RenderBody, Blank;
    InsertionPointLines(s);
    WithEntryLines(s, line);
    BulletNotBlank(line);
    var x, y, r := InsertionPoint(s).0, InsertionPoint(s).1, RenderBody(WithEntryBody(s.body, line));
    forall i | 0 <= i < |r|
      ensures !IsHeading(r[i])
    {
      assert r[i] == (x + [line] + y)[i + 1];
      if i + 1 < |x| {
        assert (x + y)[i + 1] == s.body[i];
      } else if i + 1 > |x| {
        assert (x + y)[i] == s.body[i - 1];
      }
    }
  }

  // ----- texts without a Change Log section -----

  predicate LogHeading(l: string) {
    "## Change Log" <= TrimEnd(l)
  }

  lemma LogHeadingIsHeading(l: string)
    ensures LogHeading(l) ==> IsHeading(l)
    ensures LogHeading(l) <==> SectionKind(l) == Some(ChangeLog)
  {
    TrimEndParts(l);
    hide TrimEnd;
    if LogHeading(l) {
      assert "## " <= "## Change Log";
    }
  }

  lemma NotHeadingNotLog(ls: seq<string>)
    requires NoHeading(ls)
    ensures HasNone(LogHeading, ls)
  {
    hide LogHeading, IsHeading;
    forall i | 0 <= i < |ls|
      ensures !LogHeading(ls[i])
    {
      LogHeadingIsHeading(ls[i]);
    }
  }

  /** A text has no Change Log section just when none of its lines is such a heading. */
  lemma {:induction false} NoLogSections(ss: seq<Section>)
    requires forall i :: 0 <= i < |ss| ==> WellFormedSection(ss[i])
    ensures HasNone(LogHeading, RenderSections(ss)) <==> HasNone(IsLog, ss)
  {
    hide LogHeading, IsHeading, SectionKind, NoHeading;
    if ss != [] {
      NoLogSections(ss[1..]);
      NotHeadingNotLog(ss[0].body);
      LogHeadingIsHeading(ss[0].heading);
      var r, rest := RenderSections(ss), RenderSections(ss[1..]);
      assert r == [ss[0].heading] + ss[0].body + rest;
      HasNoneThree(LogHeading, [ss[0].heading], ss[0].body, rest);
      HasNoneThree(IsLog, [ss[0]], [], ss[1..]);
      assert [ss[0]] + [] + ss[1..] == ss;
      assert HasNone(LogHeading, [ss[0].heading]) <==> !LogHeading(([ss[0].heading])[0]);
      assert HasNone(IsLog, [ss[0]]) <==> !IsLog(([ss[0]])[0]);
    }
  }

  lemma HasNoneThree<T>(p: T -> bool, a: seq<T>, b: seq<T>, c: seq<T>)
    ensures HasNone(p, a + b + c) <==> HasNone(p, a) && HasNone(p, b) && HasNone(p, c)
  {
    var w := a + b + c;
    assert forall i :: 0 <= i < |a| ==> w[i] == a[i];
    assert forall i :: 0 <= i < |b| ==> w[|a| + i] == b[i];
    assert forall i :: 0 <= i < |c| ==> w[|a| + |b| + i] == c[i];
  }

  lemma NoLogLines(lines: seq<string>)
    ensures HasNone(LogHeading, lines) <==> HasNone(IsLog, ParseDoc(lines).sections)
  {
    hide LogHeading, IsLog, ParseDoc, NoHeading, RenderSections, WellFormedSection;
    var d := ParseDoc(lines);
    RenderParsed(lines);
    ParsedWellFormed(lines);
    NoLogSections(d.sections);
    NotHeadingNotLog(d.preface);
    HasNoneThree(LogHeading, d.preface, [], RenderSections(d.sections));
    assert d.preface + [] + RenderSections(d.sections) == lines;
  }

  lemma FirstLineOfLine(l: string)
    requires l != "" && NoNewline(l)
    ensures SplitInclusive(l) == [l] && SplitInclusive(l + "\n") == [l + "\n"]
  {
    assert (l + "\n")[..|l|] == l;
    FlattenOne(l);
    FlattenOne(l + "\n");
    FlattenThenSplit([l]);
    FlattenThenSplit([l + "\n"]);
  }

  /** The first line of a text that does not end there is the same whatever follows. */
  lemma FirstLineStays(c: string, w: string)
    requires c != "" && !NoNewline(c[..|c| - 1])
    ensures var n := FirstLineLength(c);
      n < |c| && SplitInclusive(c + w) == [c[..n]] + SplitInclusive(c[n..] + w)
  {
    var n := FirstLineLength(c);
    assert n < |c| by {
      assert c == c[..n] + c[n..];
    }
    FirstLineLengthOf(c[..n], c[n..] + w);
    assert c[..n] + (c[n..] + w) == c + w;
    assert (c + w)[..n] == c[..n] && (c + w)[n..] == c[n..] + w;
  }

  lemma BlankNotLog()
    ensures !LogHeading("\n")
  {
    TrimEndUnique("", "\n");
    assert "" + "\n" == "\n";
  }

  lemma SameFirstLine(l: string, x: seq<string>, y: seq<string>)
    requires HasNone(LogHeading, [l] + x) && HasNone(LogHeading, y)
    ensures HasNone(LogHeading, [l] + y) && HasNone(LogHeading, x)
  {
    hide LogHeading;
    assert ([l] + x)[0] == l;
    assert forall i :: 0 <= i < |x| ==> ([l] + x)[i + 1] == x[i];
  }

  lemma NotLogTail(l: string, x: seq<string>)
    requires HasNone(LogHeading, [l] + x)
    ensures HasNone(LogHeading, x)
  {
    SameFirstLine(l, x, []);
  }

  lemma {:induction false} TrimmedHasNoLog(c: string, w: string)
    requires AllSpace(w) && (c == "" || !IsSpace(c[|c| - 1]))
    requires HasNone(LogHeading, SplitInclusive(c + w))
    ensures HasNone(LogHeading, SplitInclusive(c + "\n"))
    decreases |c|
  {
    hide *;
    if c == "" {
      EmptyTrimmed();
      assert c + "\n" == "\n";
    } else if NoNewline(c[..|c| - 1]) {
      LastLineHasNoLog(c, w);
    } else {
      var n := FirstLineLength(c);
      FirstLineStays(c, w);
      FirstLineStays(c, "\n");
      NotLogTail(c[..n], SplitInclusive(c[n..] + w));
      TrimmedHasNoLog(c[n..], w);
      SameFirstLine(c[..n], SplitInclusive(c[n..] + w), SplitInclusive(c[n..] + "\n"));
    }
  }

  lemma EmptyTrimmed()
    ensures HasNone(LogHeading, SplitInclusive("\n"))
  {
    FlattenOne("\n");
    assert IsLine("\n");
    FlattenThenSplit(["\n"]);
    BlankNotLog();
  }

  lemma NoNewlineLast(c: string)
    requires c != "" && NoNewline(c[..|c| - 1]) && !IsSpace(c[|c| - 1])
    ensures NoNewline(c)
  {
    assert c == c[..|c| - 1] + [c[|c| - 1]];
  }

  lemma FirstLineOfPadded(c: string, w: string) returns (j: nat)
    requires c != "" && NoNewline(c)
    ensures j <= |w| && SplitInclusive(c + w) != [] && SplitInclusive(c + w)[0] == c + w[..j]
  {
    var n := FirstLineLength(c + w);
    assert (c + w)[..|c|] == c;
    FirstLineWithin(c + w, |c|);
    j := n - |c|;
    assert (c + w)[..n] == c + w[..j];
  }

  lemma LastLineHasNoLog(c: string, w: string)
    requires c != "" && NoNewline(c[..|c| - 1]) && AllSpace(w) && !IsSpace(c[|c| - 1])
    requires HasNone(LogHeading, SplitInclusive(c + w))
    ensures HasNone(LogHeading, SplitInclusive(c + "\n"))
  {
    hide SplitInclusive, TrimEnd, NoNewline;
    NoNewlineLast(c);
    var j := FirstLineOfPadded(c, w);
    assert !LogHeading(SplitInclusive(c + w)[0]);
    TrimEndUnique(c, w[..j]);
    TrimEndUnique(c, "\n");
    FirstLineOfLine(c);
  }

  lemma {:induction false} FirstLineWithin(s: string, n: nat)
    requires n <= |s| && NoNewline(s[..n]) && s != ""
    ensures FirstLineLength(s) >= n
  {
    if n > 0 {
      assert s[0] in s[..n];
      if |s| > 1 {
        assert s[1..][..n - 1] == s[..n][1..];
        FirstLineWithin(s[1..], n - 1);
      }
    }
  }

  // ----- the entries of all Change Log sections -----

  function LogEntries(ss: seq<Section>): seq<seq<string>> {
    if ss == [] then []
    else (if IsLog(ss[0]) then SplitBody(ss[0].body).entries else []) + LogEntries(ss[1..])
  }

  lemma {:induction false} LogEntriesAppend(a: seq<Section>, b: seq<Section>)
    ensures LogEntries(a + b) == LogEntries(a) + LogEntries(b)
  {
    hide IsLog, SplitBody;
    if a == [] {
      assert a + b == b;
    } else {
      assert (a + b)[0] == a[0] && (a + b)[1..] == a[1..] + b;
      LogEntriesAppend(a[1..], b);
    }
  }

  lemma {:induction false} LogEntriesNone(ss: seq<Section>)
    requires HasNone(IsLog, ss)
    ensures LogEntries(ss) == []
  {
    hide IsLog, SplitBody;
    if ss != [] {
      LogEntriesNone(ss[1..]);
      assert !IsLog(ss[0]);
    }
  }

  lemma LogEntriesOne(s: Section)
    ensures LogEntries([s]) == if IsLog(s) then SplitBody(s.body).entries else []
  {
    hide IsLog, SplitBody;
    assert LogEntries([s][1..]) == [];
  }

  lemma LogEntriesAt(ss: seq<Section>, n: nat)
    requires n < |ss| && IsLog(ss[n])
    ensures LogEntries(ss) == LogEntries(ss[..n]) + SplitBody(ss[n].body).entries + LogEntries(ss[n + 1..])
  {
    hide *;
    assert ss == ss[..n] + [ss[n]] + ss[n + 1..];
    LogEntriesAppend(ss[..n] + [ss[n]], ss[n + 1..]);
    LogEntriesAppend(ss[..n], [ss[n]]);
    LogEntriesOne(ss[n]);
  }

  lemma SplitOfOneEntry(line: string)
    requires IsEntry([line])
    ensures SplitBody([line]) == Body([], [[line]], [])
  {
    BulletNotBlank(line);
    FlattenOne([line]);
    var b := Body([], [[line]], []);
    assert b.preamble + Flatten(b.entries) == [line];
    assert RenderBody(b) == [line];
    hide SplitBody;
    SplitBodyUnique(b);
  }

  lemma NewHeading()
    ensures IsHeading(NEW_SECTION_HEADING) && IsLine(NEW_SECTION_HEADING) && Terminated(NEW_SECTION_HEADING)
    ensures IsLog(Section(NEW_SECTION_HEADING, [])) && SectionKind(NEW_SECTION_HEADING) == Some(ChangeLog)
  {
    TrimEndUnique("## Change Log", "\n");
    assert NEW_SECTION_HEADING == "## Change Log" + "\n";
    assert NEW_SECTION_HEADING[..|NEW_SECTION_HEADING| - 1] == "## Change Log";
  }

  /** Text added behind a complete line does not change how the rest is cut. */
  lemma SplitBehindLine(c: string, rest: seq<string>)
    requires WellFormed(rest)
    ensures SplitInclusive(c + "\n" + Flatten(rest)) == SplitInclusive(c + "\n") + rest
  {
    hide Flatten, SplitInclusive;
    var a := SplitInclusive(c + "\n");
    SplitIsWellFormed(c + "\n");
    SplitThenFlatten(c + "\n");
    TerminatedText(c + "\n");
    assert WellFormed(a + rest);
    FlattenAppend(a, rest);
    FlattenThenSplit(a + rest);
  }

  /** Without a Change Log section the text, without the blank space at its end, is followed by
      a blank line and a new section that holds just the entry. */
  lemma NewSectionLines(content: string, entry: string)
    requires OneLineEntry(entry)
    requires var ss := ParseDoc(SplitInclusive(content)).sections; FirstLog(ss) == |ss|
    ensures SplitInclusive(InsertText(content, entry))
         == SplitInclusive(TrimEnd(content) + "\n") + ["\n", NEW_SECTION_HEADING, EntryLine(entry)]
  {
    hide *;
    EntryLineIsBullet(entry);
    NewHeading();
    InsertTextNew(content, entry);
    RestWellFormed(NEW_SECTION_HEADING, EntryLine(entry));
    FlattenedRest(NEW_SECTION_HEADING, EntryLine(entry));
    SplitBehindLine(TrimEnd(content), ["\n", NEW_SECTION_HEADING, EntryLine(entry)]);
    assert TrimEnd(content) + "\n\n" + NEW_SECTION_HEADING + EntryLine(entry)
        == TrimEnd(content) + "\n" + ("\n" + NEW_SECTION_HEADING + EntryLine(entry));
  }

  lemma InsertTextNew(content: string, entry: string)
    requires var ss := ParseDoc(SplitInclusive(content)).sections; FirstLog(ss) == |ss|
    ensures InsertText(content, entry) == TrimEnd(content) + "\n\n" + NEW_SECTION_HEADING + EntryLine(entry)
  {
    hide ParseDoc, SplitInclusive, FirstLog, EntryLine, InsertionPoint, DetectOrder, SplitBody, TrimEnd;
  }

  lemma RestWellFormed(h: string, line: string)
    requires IsLine(h) && Terminated(h) && IsLine(line)
    ensures WellFormed(["\n", h, line])
  {
  }

  lemma FlattenedRest(h: string, line: string)
    ensures Flatten(["\n", h, line]) == "\n" + h + line
  {
    assert ["\n", h, line] == ["\n"] + [h] + [line];
    hide Flatten;
    FlattenThree(["\n"], [h], [line]);
    FlattenOne("\n");
    FlattenOne(h);
    FlattenOne(line);
  }

  lemma NewSectionDoc(content: string, entry: string) returns (ss: seq<Section>)
    requires OneLineEntry(entry)
    requires HasNone(IsLog, ParseDoc(SplitInclusive(content)).sections)
    ensures HasNone(IsLog, ss)
    ensures ParseDoc(SplitInclusive(InsertText(content, entry))).sections
         == ss + [Section(NEW_SECTION_HEADING, [EntryLine(entry)])]
  {
    hide *;
    var line := EntryLine(entry);
    var above := SplitInclusive(TrimEnd(content) + "\n") + ["\n"];
    var d := ParseDoc(above);
    ss := d.sections;
    FirstLogNone(ParseDoc(SplitInclusive(content)).sections);
    NewSectionLines(content, entry);
    NothingAboveIsLog(content);
    NoLogLines(above);
    RenderParsed(above);
    ParsedWellFormed(above);
    AttachSection(d, line, entry);
    var w := Doc(d.preface, ss + [Section(NEW_SECTION_HEADING, [line])]);
    ParseRendered(w);
    assert SplitInclusive(TrimEnd(content) + "\n") + ["\n", NEW_SECTION_HEADING, line]
        == above + ([NEW_SECTION_HEADING] + [line]);
  }

  lemma AttachSection(d: Doc, line: string, entry: string)
    requires WellFormedDoc(d) && OneLineEntry(entry) && line == EntryLine(entry)
    ensures var w := Doc(d.preface, d.sections + [Section(NEW_SECTION_HEADING, [line])]);
      WellFormedDoc(w) && Render(w) == Render(d) + ([NEW_SECTION_HEADING] + [line])
  {
    var s := Section(NEW_SECTION_HEADING, [line]);
    hide RenderSections, EntryLine, OneLineEntry;
    EntryLineIsBullet(entry);
    BulletNotBlank(line);
    NewHeading();
    RenderSnoc(d.sections, s);
    assert WellFormedSection(s);
    assert d.preface + (RenderSections(d.sections) + ([s.heading] + s.body))
        == d.preface + RenderSections(d.sections) + ([s.heading] + s.body);
  }

  lemma FirstLogNone(ss: seq<Section>)
    ensures FirstLog(ss) == |ss| <==> HasNone(IsLog, ss)
  {
    hide SectionKind;
    if FirstLog(ss) < |ss| {
      assert IsLog(ss[FirstLog(ss)]);
    }
  }

  lemma NothingAboveIsLog(content: string)
    requires HasNone(IsLog, ParseDoc(SplitInclusive(content)).sections)
    ensures HasNone(LogHeading, SplitInclusive(TrimEnd(content) + "\n") + ["\n"])
  {
    hide SplitInclusive, LogHeading, IsLog, ParseDoc, AllSpace;
    NoLogLines(SplitInclusive(content));
    TrimEndParts(content);
    var c := TrimEnd(content);
    assert c + content[|c|..] == content;
    TrimmedHasNoLog(c, content[|c|..]);
    BlankNotLog();
  }

  // ----- exactly when the entry is added -----

  function LogEntriesOf(content: string): seq<seq<string>> {
    LogEntries(ParseDoc(SplitInclusive(content)).sections)
  }

  /** The Change Log has the entry, and one entry more than before. */
  predicate EntryAdded(content: string, entry: string) {
    var before, after := LogEntriesOf(content), LogEntriesOf(InsertText(content, entry));
    |after| == |before| + 1 && [EntryLine(entry)] in after
  }

  lemma EntryAddedFrom(content: string, entry: string, before: seq<seq<string>>, after: seq<seq<string>>)
    requires LogEntries(ParseDoc(SplitInclusive(content)).sections) == before
    requires LogEntries(ParseDoc(SplitInclusive(InsertText(content, entry))).sections) == after
    requires |after| == |before| + 1 && [EntryLine(entry)] in after
    ensures EntryAdded(content, entry)
  {
    hide ParseDoc, SplitInclusive, InsertText, LogEntries, EntryLine;
  }

  lemma NewSectionEntries(line: string)
    requires IsBullet(line)
    ensures LogEntries([Section(NEW_SECTION_HEADING, [line])]) == [[line]]
  {
    hide SectionKind, SplitBody, IsBullet, LogEntries;
    NewHeading();
    SplitOfOneEntry(line);
    LogEntriesOne(Section(NEW_SECTION_HEADING, [line]));
  }

  lemma AddedInNewSection(content: string, entry: string)
    requires OneLineEntry(entry)
    requires HasNone(IsLog, ParseDoc(SplitInclusive(content)).sections)
    ensures EntryAdded(content, entry)
  {
    hide *;
    var line := EntryLine(entry);
    EntryLineIsBullet(entry);
    var ss := NewSectionDoc(content, entry);
    LogEntriesNone(ss);
    LogEntriesNone(ParseDoc(SplitInclusive(content)).sections);
    LogEntriesAppend(ss, [Section(NEW_SECTION_HEADING, [line])]);
    NewSectionEntries(line);
    assert [] + [[line]] == [[line]];
    EntryAddedFrom(content, entry, [], [[line]]);
  }

  lemma AddedInSection(content: string, entry: string)
    requires OneLineEntry(entry) && EndsBeforeInsertion(content)
    ensures EntryAdded(content, entry)
  {
    var d := ParseDoc(SplitInclusive(content));
    var n, line := FirstLog(d.sections), EntryLine(entry);
    hide SplitInclusive, ParseDoc, InsertText, LogEntries, EntryLine, OneLineEntry, EndsBeforeInsertion, FirstLog,
         DetectOrder, RenderBody, SplitBody, SectionKind;
    InsertedDoc(content, entry);
    var s, b := d.sections[n], WithEntryBody(d.sections[n].body, line);
    var ss := d.sections[n := Section(s.heading, RenderBody(b))];
    LogEntriesAt(d.sections, n);
    LogEntriesAt(ss, n);
    assert ss[..n] == d.sections[..n] && ss[n + 1..] == d.sections[n + 1..];
    assert [line] in b.entries;
  }

  lemma BulletChars(l: string)
    ensures IsBullet(l) <==> |l| >= 2 && l[0] == '-' && l[1] == ' '
  {
  }

  lemma HeadingChars(l: string)
    ensures IsHeading(l) <==> |l| >= 3 && l[0] == '#' && l[1] == '#' && l[2] == ' '
  {
  }

  /** A file that stops in the middle of a line behind oldest-first entries: the line is
      completed, then the entry follows. */
  lemma CompletedEntry(e: seq<string>)
    requires IsEntry(e) && WellFormed(e)
    ensures IsEntry(Complete(e))
  {
    var last := e[|e| - 1];
    assert IsLine(last);
    BulletChars(last);
    BulletChars(last + "\n");
    if |e| > 1 {
      assert last == e[1..][|e| - 2];
      assert forall i :: 0 < i < |e| - 1 ==> e[1..][i - 1] == e[i];
    }
    assert forall i :: 0 <= i < |Complete(e)[1..]| ==> Complete(e)[1..][i] == Complete(e)[i + 1];
  }

  lemma CompleteTail(x: seq<string>, e: seq<string>)
    requires e != []
    ensures Complete(x + e) == x + Complete(e)
  {
    hide EnsureFinalNewline;
    assert (x + e)[..|x + e| - 1] == x + e[..|e| - 1];
    assert (x + e)[|x + e| - 1] == e[|e| - 1];
  }

  lemma CompleteNoHeading(ls: seq<string>)
    requires NoHeading(ls) && WellFormed(ls) && ls != []
    ensures NoHeading(Complete(ls))
  {
    var last := ls[|ls| - 1];
    hide IsHeading;
    assert IsLine(last);
    HeadingChars(last);
    HeadingChars(last + "\n");
    assert !IsHeading(last);
    forall i | 0 <= i < |Complete(ls)|
      ensures !IsHeading(Complete(ls)[i])
    {
      assert i < |ls| - 1 ==> !IsHeading(ls[i]);
    }
  }

  /** The Change Log of a text that stops in the middle of its last entry, after the insertion. */
  function CompletedBody(b: Body, line: string): Body
    requires b.entries != []
  {
    Body(b.preamble, b.entries[|b.entries| - 1 := Complete(b.entries[|b.entries| - 1])] + [[line]], [])
  }

  lemma CompletedBodyLines(b: Body, line: string)
    requires b.entries != [] && b.entries[|b.entries| - 1] != []
    ensures RenderBody(CompletedBody(b, line)) == Complete(b.preamble + Flatten(b.entries)) + [line]
  {
    hide Flatten, Complete;
    var init, e := b.entries[..|b.entries| - 1], b.entries[|b.entries| - 1];
    assert b.entries == init + [e];
    assert CompletedBody(b, line).entries == init + [Complete(e)] + [[line]];
    FlattenSnoc(init, e);
    FlattenSnoc(init, Complete(e));
    FlattenSnoc(init + [Complete(e)], [line]);
    CompleteTail(b.preamble + Flatten(init), e);
    assert b.preamble + Flatten(init) + e == b.preamble + (Flatten(init) + e);
    assert b.preamble + Flatten(init) + Complete(e) == b.preamble + (Flatten(init) + Complete(e));
  }

  lemma CompletedBodyWellFormed(b: Body, line: string)
    requires WellFormedBody(b) && b.entries != [] && IsEntry([line])
    requires WellFormed(b.entries[|b.entries| - 1])
    ensures WellFormedBody(CompletedBody(b, line))
  {
    hide Flatten, Complete, Blank;
    var es := b.entries;
    CompletedEntry(es[|es| - 1]);
    BulletNotBlank(line);
    var done := es[|es| - 1 := Complete(es[|es| - 1])];
    FlattenSnoc(done, [line]);
    var w := b.preamble + Flatten(CompletedBody(b, line).entries);
    assert w == b.preamble + Flatten(done) + [line];
    assert w[|w| - 1] == line;
  }

  lemma LastEntryWellFormed(x: seq<string>, es: seq<seq<string>>)
    requires es != [] && WellFormed(x + Flatten(es))
    ensures WellFormed(es[|es| - 1])
  {
    hide *;
    var init, e := es[..|es| - 1], es[|es| - 1];
    assert es == init + [e];
    FlattenSnoc(init, e);
    assert x + Flatten(es) == (x + Flatten(init)) + e;
    TailWellFormed(x + Flatten(init), e);
  }

  /** A text that stops in the middle of its oldest-first Change Log. */
  predicate StopsInLog(content: string) {
    var ss := ParseDoc(SplitInclusive(content)).sections;
    var n := FirstLog(ss);
    n < |ss| && !Joins(content) && !Terminated(content)
    && InsertionPoint(ss[n]).1 + RenderSections(ss[n + 1..]) == []
  }

  lemma StopsInLogParts(content: string, n: nat, ss: seq<Section>)
    requires StopsInLog(content) && ss == ParseDoc(SplitInclusive(content)).sections && n == FirstLog(ss)
    ensures n == |ss| - 1 && SplitBody(ss[n].body).entries != [] && SplitBody(ss[n].body).trailing == []
    ensures DetectOrder(SplitBody(ss[n].body).entries) == OldestFirst
  {
    hide ParseDoc, SplitInclusive, FirstLog, SplitBody, Joins, Around, InsertionPoint;
    var d, n', s, top, below := LogSection(content);
    NotJoined(content, top + InsertionPoint(s).0, InsertionPoint(s).1 + below);
    RenderedEmpty(ss[n + 1..]);
    OldestFirstPoint(s);
  }

  lemma OldestFirstPoint(s: Section)
    requires DetectOrder(SplitBody(s.body).entries) == OldestFirst
    ensures SplitBody(s.body).entries != [] && InsertionPoint(s).1 == SplitBody(s.body).trailing
    ensures InsertionPoint(s).0 == [s.heading] + SplitBody(s.body).preamble + Flatten(SplitBody(s.body).entries)
  {
    hide SplitBody;
    assert Map(DateOf, []) == [];
  }

  /** Inserting into such a text completes its last entry and puts the new one behind it. */
  lemma UnfinishedDoc(content: string, entry: string)
    requires OneLineEntry(entry) && StopsInLog(content)
    ensures var d := ParseDoc(SplitInclusive(content));
      var n := FirstLog(d.sections);
      n < |d.sections| && IsLog(d.sections[n]) && SplitBody(d.sections[n].body).entries != [] &&
      var b := CompletedBody(SplitBody(d.sections[n].body), EntryLine(entry));
      && ParseDoc(SplitInclusive(InsertText(content, entry)))
         == Doc(d.preface, d.sections[n := Section(d.sections[n].heading, RenderBody(b))])
      && SplitBody(RenderBody(b)) == b
  {
    hide *;
    StopsHere(content);
    var d, n, s, top, below := LogSection(content);
    var line, b := EntryLine(entry), SplitBody(s.body);
    StopsInLogParts(content, n, d.sections);
    OldestFirstPoint(s);
    var before, after := top + InsertionPoint(s).0, InsertionPoint(s).1 + below;
    AroundLines(content, before, after);
    InsertedLines(content, entry, before, after);
    EntryLineIsBullet(entry);
    UnfinishedSection(top, s, b, line, before);
    var s' := Section(s.heading, RenderBody(CompletedBody(b, line)));
    assert below == [] && Complete(before) + [line] + after == top + ([s.heading] + s'.body) + below;
    ParseUpdated(d, n, s', SplitInclusive(InsertText(content, entry)));
    SplitBodyUnique(CompletedBody(b, line));
  }

  lemma AddedInUnfinishedLog(content: string, entry: string)
    requires OneLineEntry(entry) && StopsInLog(content)
    ensures EntryAdded(content, entry)
  {
    hide *;
    var d := ParseDoc(SplitInclusive(content));
    var n, line := FirstLog(d.sections), EntryLine(entry);
    UnfinishedDoc(content, entry);
    var b := CompletedBody(SplitBody(d.sections[n].body), line);
    var s' := Section(d.sections[n].heading, RenderBody(b));
    LogWhateverBody(d.sections[n], s'.body);
    UpdatedEntries(content, entry, d, n, s', b);
    CompletedCount(SplitBody(d.sections[n].body), line);
    CountedAsAdded(content, entry, d, n, b.entries);
  }

  lemma StopsHere(content: string)
    requires StopsInLog(content)
    ensures var ss := ParseDoc(SplitInclusive(content)).sections;
      var n := FirstLog(ss);
      n < |ss| && !Joins(content) && InsertionPoint(ss[n]).1 == [] && RenderSections(ss[n + 1..]) == []
  {
    hide ParseDoc, SplitInclusive, FirstLog, SplitBody, Joins, InsertionPoint, RenderSections;
  }

  lemma BodyLines(s: Section)
    ensures s.body == SplitBody(s.body).preamble + Flatten(SplitBody(s.body).entries) + SplitBody(s.body).trailing
    ensures WellFormedBody(SplitBody(s.body))
  {
    hide Flatten, SplitBody, WellFormedBody;
  }

  lemma UnfinishedSection(top: seq<string>, s: Section, b: Body, line: string, before: seq<string>)
    requires b == SplitBody(s.body) && b.entries != [] && b.trailing == [] && WellFormedSection(s)
    requires before == top + ([s.heading] + b.preamble + Flatten(b.entries)) && WellFormed(before)
    requires IsEntry([line])
    ensures Complete(before) + [line] == top + ([s.heading] + RenderBody(CompletedBody(b, line)))
    ensures WellFormedSection(Section(s.heading, RenderBody(CompletedBody(b, line))))
    ensures WellFormedBody(CompletedBody(b, line))
  {
    hide *;
    BodyLines(s);
    SolidContent(b);
    var content := b.preamble + Flatten(b.entries);
    assert s.body == content;
    UnfinishedParts(top, s.heading, b.preamble, Flatten(b.entries));
    LastEntryWellFormed(top + [s.heading] + b.preamble, b.entries);
    CompletedBodyLines(b, line);
    CompletedBodyWellFormed(b, line);
    CompleteTail(top + [s.heading], content);
    TailWellFormed(top + [s.heading], content);
    CompletedSectionWellFormed(s, content, line);
    Reattach(top, s.heading, Complete(content), line);
  }

  lemma UnfinishedParts(top: seq<string>, h: string, p: seq<string>, f: seq<string>)
    ensures top + ([h] + p + f) == (top + [h]) + (p + f)
    ensures top + ([h] + p + f) == (top + [h] + p) + f
  {
  }

  lemma Reattach(top: seq<string>, h: string, x: seq<string>, line: string)
    ensures (top + [h]) + x + [line] == top + ([h] + (x + [line]))
  {
  }

  lemma CompletedSectionWellFormed(s: Section, content: seq<string>, line: string)
    requires WellFormedSection(s) && s.body == content && WellFormed(content) && content != [] && IsEntry([line])
    ensures WellFormedSection(Section(s.heading, Complete(content) + [line]))
  {
    hide Complete, WellFormed, IsHeading;
    CompleteNoHeading(content);
    NoHeadingBullet(Complete(content), line);
  }

  lemma SolidContent(b: Body)
    requires WellFormedBody(b) && b.entries != []
    ensures b.preamble + Flatten(b.entries) != [] && b.entries[|b.entries| - 1] != []
  {
  }

  lemma TailWellFormed(x: seq<string>, y: seq<string>)
    requires WellFormed(x + y)
    ensures WellFormed(y)
  {
    assert forall i :: 0 <= i < |y| ==> (x + y)[|x| + i] == y[i];
  }

  lemma NoHeadingBullet(ls: seq<string>, line: string)
    requires NoHeading(ls) && IsEntry([line])
    ensures NoHeading(ls + [line])
  {
    hide Blank;
    BulletNotBlank(line);
  }

  lemma CompletedCount(b: Body, line: string)
    requires b.entries != []
    ensures |CompletedBody(b, line).entries| == |b.entries| + 1 && [line] in CompletedBody(b, line).entries
  {
    hide Complete;
    var es := CompletedBody(b, line).entries;
    assert es[|es| - 1] == [line];
  }

  lemma UpdatedEntries(content: string, entry: string, d: Doc, n: nat, s: Section, b: Body)
    requires d == ParseDoc(SplitInclusive(content)) && n < |d.sections| && IsLog(s)
    requires ParseDoc(SplitInclusive(InsertText(content, entry))) == Doc(d.preface, d.sections[n := s])
    requires SplitBody(s.body).entries == b.entries
    ensures LogEntriesOf(InsertText(content, entry))
         == LogEntries(d.sections[..n]) + b.entries + LogEntries(d.sections[n + 1..])
  {
    var ss := d.sections[n := s];
    hide ParseDoc, SplitInclusive, InsertText, LogEntries, SplitBody, IsLog;
    LogEntriesAt(ss, n);
    assert ss[..n] == d.sections[..n] && ss[n + 1..] == d.sections[n + 1..];
  }

  lemma CountedAsAdded(content: string, entry: string, d: Doc, n: nat, es: seq<seq<string>>)
    requires d == ParseDoc(SplitInclusive(content)) && n < |d.sections| && IsLog(d.sections[n])
    requires LogEntriesOf(InsertText(content, entry))
          == LogEntries(d.sections[..n]) + es + LogEntries(d.sections[n + 1..])
    requires |es| == |SplitBody(d.sections[n].body).entries| + 1 && [EntryLine(entry)] in es
    ensures EntryAdded(content, entry)
  {
    hide ParseDoc, SplitInclusive, InsertText, LogEntries, SplitBody, IsLog, EntryLine;
    LogEntriesAt(d.sections, n);
  }

  // ----- the text that joins -----

  /** The section whose last line the entry is written behind. */
  function JoinedSection(s: Section, line: string): Section {
    if s.body == [] then Section(s.heading + line, []) else Section(s.heading, JoinedLast(s.body, line))
  }

  lemma JoinedSectionLines(top: seq<string>, s: Section, line: string)
    ensures JoinedLast(top + ([s.heading] + s.body), line)
         == top + ([JoinedSection(s, line).heading] + JoinedSection(s, line).body)
  {
    var ls := top + ([s.heading] + s.body);
    if s.body == [] {
      assert ls[..|ls| - 1] == top && ls[|ls| - 1] == s.heading;
    } else {
      assert ls[..|ls| - 1] == top + ([s.heading] + s.body[..|s.body| - 1]);
      assert ls[|ls| - 1] == s.body[|s.body| - 1];
    }
  }

  lemma JoinedChars(l: string, line: string)
    requires l != "" && IsBullet(line)
    ensures IsHeading(l + line) <==> IsHeading(l)
    ensures IsBullet(l + line) <==> IsBullet(l)
  {
    HeadingChars(l);
    HeadingChars(l + line);
    BulletChars(l);
    BulletChars(l + line);
    BulletChars(line);
    assert (l + line)[|l|] == line[0];
    if |l| == 1 {
      assert (l + line)[1] == '-';
    } else if |l| == 2 {
      assert (l + line)[2] == '-';
    }
  }

  lemma JoinedSectionHasNoEntry(s: Section, line: string)
    requires WellFormedSection(s) && NoBullet(s.body) && IsBullet(line)
    requires s.body != [] ==> s.body[|s.body| - 1] != ""
    ensures WellFormedSection(JoinedSection(s, line)) && SplitBody(JoinedSection(s, line).body).entries == []
  {
    hide IsHeading, IsBullet, SplitBody;
    var t := JoinedSection(s, line);
    if s.body == [] {
      HeadingChars(s.heading);
      HeadingChars(s.heading + line);
    } else {
      JoinedChars(s.body[|s.body| - 1], line);
      assert forall i :: 0 <= i < |s.body| ==> !IsBullet(s.body[i]) && !IsHeading(s.body[i]);
    }
    assert t.body + [] == t.body;
    SplitWithoutEntries(t.body, []);
  }

  /** The parts of a text that joins: its Change Log ends the file and has no entry. */
  lemma JoinsParts(content: string, d: Doc, n: nat)
    requires Joins(content) && d == ParseDoc(SplitInclusive(content)) && n == FirstLog(d.sections)
    ensures n == |d.sections| - 1 && NoBullet(d.sections[n].body) && SplitBody(d.sections[n].body).entries == []
    ensures InsertionPoint(d.sections[n]) == ([d.sections[n].heading] + d.sections[n].body, [])
    ensures DetectOrder(SplitBody(d.sections[n].body).entries) != OldestFirst
    ensures content != "" && !Terminated(content)
  {
    hide SplitInclusive, FirstLog;
    var s := d.sections[n];
    BodyLines(s);
    var b := SplitBody(s.body);
    assert b.entries == [] && b.trailing == [];
    hide SplitBody, ParseDoc;
    assert Dates([]) == [] by { assert Map(DateOf, []) == []; }
    assert s.body == b.preamble;
    assert Flatten(b.entries) == [];
    assert InsertionPoint(s).0 == [s.heading] + s.body && InsertionPoint(s).1 == [];
    EmptyHasNoSections();
  }

  lemma EmptyHasNoSections()
    ensures ParseDoc(SplitInclusive("")).sections == []
  {
    SplitIsWellFormed("");
    RenderParsed([]);
    hide ParseDoc;
    RenderedEmpty(ParseDoc([]).sections);
  }

  lemma JoinedText(content: string, entry: string, d: Doc, n: nat)
    requires Joins(content) && OneLineEntry(entry)
    requires d == ParseDoc(SplitInclusive(content)) && n == FirstLog(d.sections)
    ensures SplitInclusive(content) != []
    ensures SplitInclusive(InsertText(content, entry)) == JoinedLast(SplitInclusive(content), EntryLine(entry))
    ensures n == |d.sections| - 1
    ensures SplitInclusive(content) == d.preface + RenderSections(d.sections[..n])
                                       + ([d.sections[n].heading] + d.sections[n].body)
  {
    hide *;
    var lines, line := SplitInclusive(content), EntryLine(entry);
    JoinsParts(content, d, n);
    RenderParsed(lines);
    RenderedAsPreface(d, n);
    SplitIsWellFormed(content);
    TerminatedText(content);
    EntryLineIsBullet(entry);
    JoinsAround(content, entry, d, n);
    SplitThenFlatten(content);
    WholeOf(content);
    SplitJoined(content, line);
  }

  lemma RenderedAsPreface(d: Doc, n: nat)
    requires n == |d.sections| - 1
    ensures Render(d) == d.preface + RenderSections(d.sections[..n]) + ([d.sections[n].heading] + d.sections[n].body)
    ensures RenderSections(d.sections[n + 1..]) == []
  {
    RenderAt(d.sections, n);
    RenderedEmpty(d.sections[n + 1..]);
    hide RenderSections;
    var x, y := RenderSections(d.sections[..n]), [d.sections[n].heading] + d.sections[n].body;
    assert d.preface + (x + y + []) == d.preface + x + y;
  }

  lemma JoinsAround(content: string, entry: string, d: Doc, n: nat)
    requires Joins(content) && d == ParseDoc(SplitInclusive(content)) && n == FirstLog(d.sections)
    ensures InsertText(content, entry) == Flatten(SplitInclusive(content)) + EntryLine(entry)
  {
    JoinsParts(content, d, n);
    RenderedAsPreface(d, n);
    RenderParsed(SplitInclusive(content));
    hide SplitInclusive, ParseDoc, FirstLog, InsertionPoint, RenderSections, Render, Joins, SplitBody, DetectOrder,
         EntryLine, NoBullet, InsertText;
    var s := d.sections[n];
    var top, x := d.preface + RenderSections(d.sections[..n]), [s.heading] + s.body;
    assert Around(content, top + x, [] + RenderSections(d.sections[n + 1..]));
    InsertTextAround(content, entry, top + x, [] + RenderSections(d.sections[n + 1..]));
    FlattenNothing([] + RenderSections(d.sections[n + 1..]));
    hide Flatten, EnsureFinalNewline;
    NewlineNotAdded(Flatten(top + x), false);
  }

  lemma FlattenNothing(ls: seq<string>)
    requires ls == []
    ensures Flatten(ls) == ""
  {
  }

  lemma LostByJoining(content: string, entry: string)
    requires Joins(content) && OneLineEntry(entry)
    ensures !EntryAdded(content, entry)
  {
    hide *;
    var d := ParseDoc(SplitInclusive(content));
    var n, line := FirstLog(d.sections), EntryLine(entry);
    JoinsParts(content, d, n);
    var s := d.sections[n];
    var t := JoinedSection(s, line);
    var top := d.preface + RenderSections(d.sections[..n]);
    JoinedText(content, entry, d, n);
    JoinedSectionLines(top, s, line);
    EntryLineIsBullet(entry);
    ParsedWellFormed(SplitInclusive(content));
    SectionOf(d, n);
    SplitIsWellFormed(content);
    LastLineNotEmpty(top, s, SplitInclusive(content));
    JoinedSectionHasNoEntry(s, line);
    RenderedAsPreface(d, n);
    assert top + ([t.heading] + t.body) + [] == top + ([t.heading] + t.body);
    ParseUpdated(d, n, t, SplitInclusive(InsertText(content, entry)));
    NoEntriesLeft(d.sections[n := t], n, t);
    NothingAdded(content, entry, d.sections[n := t]);
  }

  lemma SectionOf(d: Doc, n: nat)
    requires WellFormedDoc(d) && n < |d.sections|
    ensures WellFormedSection(d.sections[n])
  {
  }

  lemma LastLineNotEmpty(top: seq<string>, s: Section, lines: seq<string>)
    requires lines == top + ([s.heading] + s.body) && WellFormed(lines)
    ensures s.body != [] ==> s.body[|s.body| - 1] != ""
  {
    if s.body != [] {
      assert lines[|lines| - 1] == s.body[|s.body| - 1];
    }
  }

  lemma NoEntriesLeft(ss: seq<Section>, n: nat, t: Section)
    requires n == |ss| - 1 && ss[n] == t && SplitBody(t.body).entries == []
    requires forall i :: 0 <= i < n ==> SectionKind(ss[i].heading) != Some(ChangeLog)
    ensures LogEntries(ss) == []
  {
    hide LogEntries, SplitBody, SectionKind;
    assert ss == ss[..n] + [t];
    LogEntriesNone(ss[..n]);
    LogEntriesAppend(ss[..n], [t]);
    LogEntriesOne(t);
  }

  lemma NothingAdded(content: string, entry: string, ss: seq<Section>)
    requires ParseDoc(SplitInclusive(InsertText(content, entry))).sections == ss && LogEntries(ss) == []
    ensures !EntryAdded(content, entry)
  {
    hide ParseDoc, SplitInclusive, InsertText, LogEntries, EntryLine;
  }

  /** A one-line entry is added to the Change Log just when the text does not stop in the
      middle of a Change Log that has no entries yet. */
  lemma EntryAddedExactly(content: string, entry: string)
    requires OneLineEntry(entry)
    ensures EntryAdded(content, entry) <==> !Joins(content)
  {
    var ss := ParseDoc(SplitInclusive(content)).sections;
    FirstLogNone(ss);
    WhichCase(content);
    hide *;
    if Joins(content) {
      LostByJoining(content, entry);
    } else if FirstLog(ss) == |ss| {
      AddedInNewSection(content, entry);
    } else if EndsBeforeInsertion(content) {
      AddedInSection(content, entry);
    } else {
      AddedInUnfinishedLog(content, entry);
    }
  }

  lemma WhichCase(content: string)
    ensures var ss := ParseDoc(SplitInclusive(content)).sections;
      FirstLog(ss) < |ss| && !Joins(content) ==> EndsBeforeInsertion(content) || StopsInLog(content)
  {
    hide ParseDoc, SplitInclusive, FirstLog, Joins, InsertionPoint, RenderSections;
  }

  /** A Change Log that is just a heading at the end of a file without a final line end: the
      entry is written into the heading. */
  lemma JoiningExample()
    ensures Joins("## Change Log") && OneLineEntry("- x")
    ensures InsertText("## Change Log", "- x") == "## Change Log" + "- x\n"
    ensures !EntryAdded("## Change Log", "- x")
  {
    ExampleEntry();
    BareHeading();
    hide *;
    BareHeadingJoins("## Change Log", "- x");
    EntryAddedExactly("## Change Log", "- x");
  }

  lemma ExampleEntry()
    ensures OneLineEntry("- x") && EntryLine("- x") == "- x\n"
  {
    assert TrimNewlines("- x") == "- x";
  }

  lemma BareHeading()
    ensures NoNewline("## Change Log") && SectionKind("## Change Log") == Some(ChangeLog) && IsHeading("## Change Log")
  {
    TrimEndUnique("## Change Log", "");
    assert "## Change Log" + "" == "## Change Log";
  }

  lemma BareHeadingJoins(c: string, entry: string)
    requires NoNewline(c) && SectionKind(c) == Some(ChangeLog) && IsHeading(c)
    ensures Joins(c) && InsertText(c, entry) == c + EntryLine(entry)
  {
    hide *;
    HeadingWithoutBreak(c);
    BareHeadingIsLast(c);
    FirstLineOfLine(c);
    BareHeadingDoc(c);
    BareHeadingParts(c);
    JoinsAround(c, entry, ParseDoc([c]), 0);
    FlattenOne(c);
  }

  lemma BareHeadingParts(c: string)
    requires IsHeading(c) && SectionKind(c) == Some(ChangeLog)
    ensures FirstLog([Section(c, [])]) == 0
  {
    hide SectionKind, IsHeading;
  }

  lemma BareHeadingIsLast(c: string)
    requires NoNewline(c) && SectionKind(c) == Some(ChangeLog) && IsHeading(c)
    ensures c != "" && !Terminated(c) && Joins(c)
  {
    hide *;
    HeadingWithoutBreak(c);
    FirstLineOfLine(c);
    BareHeadingDoc(c);
    EmptyBody();
    BareHeadingParts(c);
    JoinsIs(c);
  }

  lemma HeadingWithoutBreak(c: string)
    requires NoNewline(c) && IsHeading(c)
    ensures c != "" && !Terminated(c) && IsLine(c)
  {
    HeadingChars(c);
  }

  lemma JoinsIs(content: string)
    ensures Joins(content) <==>
      var ss := ParseDoc(SplitInclusive(content)).sections;
      var n := FirstLog(ss);
      n == |ss| - 1 && SplitBody(ss[n].body).entries == [] && SplitBody(ss[n].body).trailing == [] && !Terminated(content)
  {
    hide ParseDoc, SplitInclusive, FirstLog, SplitBody, Terminated;
  }

  lemma EmptyBody()
    ensures SplitBody([]) == Body([], [], [])
  {
    hide SplitBody;
    assert RenderBody(Body([], [], [])) == [];
    SplitBodyUnique(Body([], [], []));
  }

  lemma BareHeadingDoc(c: string)
    requires IsHeading(c)
    ensures ParseDoc([c]) == Doc([], [Section(c, [])])
  {
    hide ParseDoc, IsHeading;
    var d := Doc([], [Section(c, [])]);
    RenderedEmpty(d.sections[1..]);
    assert RenderSections(d.sections) == [c] + ([] + []);
    assert Render(d) == [c];
    ParseRendered(d);
  }

  // ----- insert, then archive -----

  /** The entries of the Change Log before an insertion, the last one completed if the text stops
      in the middle of it. */
  function EntriesSoFar(content: string): seq<seq<string>> {
    var ss := ParseDoc(SplitInclusive(content)).sections;
    var n := FirstLog(ss);
    if n == |ss| then []
    else
      var es := SplitBody(ss[n].body).entries;
      if StopsInLog(content) && es != [] then es[|es| - 1 := Complete(es[|es| - 1])] else es
  }

  lemma CompletedDate(l: string)
    requires IsLine(l)
    ensures EntryDate(EnsureFinalNewline(l, true)) == EntryDate(l)
  {
    if !Terminated(l) {
      var m := l + "\n";
      BulletChars(l);
      BulletChars(m);
      hide IsBullet;
      if IsBullet(l) {
        assert m[2..] == l[2..] + "\n";
        DateBehind(l[2..]);
      } else {
        assert |l| < 2 || l[0] != '-' || l[1] != ' ';
      }
    }
  }

  /** A line break behind it does not make a date. */
  lemma DateBehind(rest: string)
    ensures var more := rest + "\n";
            var x, y := if "[" <= rest then rest[1..] else rest, if "[" <= more then more[1..] else more;
            (|x| >= 10 && IsDate(x[..10]) <==> |y| >= 10 && IsDate(y[..10])) && (|x| >= 10 ==> y[..10] == x[..10])
  {
    var x := if "[" <= rest then rest[1..] else rest;
    assert rest != "" ==> (rest + "\n")[0] == rest[0];
    if rest != "" { assert (rest + "\n")[1..] == rest[1..] + "\n"; }
    var y := x + "\n";
    if |x| >= 10 {
      assert y[..10] == x[..10];
    } else if |x| == 9 {
      assert y[..10][9] == '\n';
    }
  }

  lemma CompletedDates(es: seq<seq<string>>)
    requires es != [] && IsEntry(es[|es| - 1]) && WellFormed(es[|es| - 1])
    ensures Dates(es[|es| - 1 := Complete(es[|es| - 1])]) == Dates(es)
  {
    hide EntryDate, Flatten, IsBullet, EnsureFinalNewline;
    var e := es[|es| - 1];
    CompletedDate(e[0]);
    assert FirstLine(Complete(e)) == e[0] || FirstLine(Complete(e)) == EnsureFinalNewline(e[0], true);
    assert Map(DateOf, es[|es| - 1 := Complete(e)]) == Map(DateOf, es);
  }

  lemma LastEntryOfLog(content: string)
    requires StopsInLog(content)
    ensures var ss := ParseDoc(SplitInclusive(content)).sections;
      FirstLog(ss) < |ss| &&
      var es := SplitBody(ss[FirstLog(ss)].body).entries;
      es != [] && IsEntry(es[|es| - 1]) && WellFormed(es[|es| - 1]) && DetectOrder(es) == OldestFirst
  {
    hide *;
    StopsHere(content);
    var d, n, s, top, below := LogSection(content);
    var b := SplitBody(s.body);
    StopsInLogParts(content, n, d.sections);
    OldestFirstPoint(s);
    AroundLines(content, top + InsertionPoint(s).0, InsertionPoint(s).1 + below);
    UnfinishedParts(top, s.heading, b.preamble, Flatten(b.entries));
    LastEntryWellFormed(top + [s.heading] + b.preamble, b.entries);
    BodyLines(s);
    LastIsEntry(b);
  }

  lemma LastIsEntry(b: Body)
    requires WellFormedBody(b) && b.entries != []
    ensures IsEntry(b.entries[|b.entries| - 1])
  {
    hide IsEntry;
  }

  lemma EntriesSoFarIs(content: string)
    ensures var ss := ParseDoc(SplitInclusive(content)).sections;
      var n := FirstLog(ss);
      && (n == |ss| ==> EntriesSoFar(content) == [])
      && (n < |ss| && !StopsInLog(content) ==> EntriesSoFar(content) == SplitBody(ss[n].body).entries)
      && (n < |ss| && StopsInLog(content) && SplitBody(ss[n].body).entries != [] ==>
            var es := SplitBody(ss[n].body).entries;
            EntriesSoFar(content) == es[|es| - 1 := Complete(es[|es| - 1])])
  {
    hide ParseDoc, SplitInclusive, FirstLog, SplitBody, StopsInLog, Complete;
  }

  lemma SameDatesSameOrder(a: seq<seq<string>>, b: seq<seq<string>>, line: string)
    requires Dates(a) == Dates(b)
    ensures DetectOrder(a) == DetectOrder(b) && (NotOlderThan(line, a) <==> NotOlderThan(line, b))
  {
    hide Dates, EntryDate, OrderOfDates;
  }

  lemma NewestEndIs(es: seq<seq<string>>, line: string)
    ensures WithEntry(es, line) == if DetectOrder(es) == OldestFirst then (es + [[line]], |es|) else ([[line]] + es, 0)
  {
    hide DetectOrder;
  }

  /** Where the new entry stands: at the newest end of the first Change Log, which otherwise has
      the entries it had. */
  lemma InsertedEntries(content: string, entry: string) returns (n: nat)
    requires OneLineEntry(entry) && !Joins(content)
    ensures var ss := ParseDoc(SplitInclusive(InsertText(content, entry))).sections;
      n == FirstLog(ss) < |ss| && IsLog(ss[n])
      && SplitBody(ss[n].body).entries == WithEntry(EntriesSoFar(content), EntryLine(entry)).0
  {
    var line := EntryLine(entry);
    var ss := ParseDoc(SplitInclusive(content)).sections;
    FirstLogNone(ss);
    WhichCase(content);
    hide *;
    n := FirstLog(ss);
    EntriesSoFarIs(content);
    NewestEndIs(EntriesSoFar(content), line);
    if n == |ss| {
      EntryLineIsBullet(entry);
      var above := NewSectionDoc(content, entry);
      n := |above|;
      NewHeading();
      LogWhateverBody(Section(NEW_SECTION_HEADING, []), [line]);
      SplitOfOneEntry(line);
      assert [[line]] + [] == [[line]] && [] + [[line]] == [[line]];
      FirstLogBehind(above, Section(NEW_SECTION_HEADING, [line]));
    } else {
      FirstIsLog(ss);
      if StopsInLog(content) {
        UnfinishedDoc(content, entry);
        LastEntryOfLog(content);
        var es := SplitBody(ss[n].body).entries;
        CompletedDates(es);
        SameDatesSameOrder(es, EntriesSoFar(content), line);
        CompletedEntries(SplitBody(ss[n].body), line);
        var t := Section(ss[n].heading, RenderBody(CompletedBody(SplitBody(ss[n].body), line)));
        LogWhateverBody(ss[n], t.body);
        FirstLogUpdated(ss, t);
      } else {
        InsertedDoc(content, entry);
        WithEntryParts(ss[n].body, line);
        var t := Section(ss[n].heading, RenderBody(WithEntryBody(ss[n].body, line)));
        LogWhateverBody(ss[n], t.body);
        FirstLogUpdated(ss, t);
      }
    }
  }

  lemma FirstLogUpdated(ss: seq<Section>, t: Section)
    requires FirstLog(ss) < |ss| && IsLog(t)
    ensures FirstLog(ss[FirstLog(ss) := t]) == FirstLog(ss)
  {
    hide SectionKind;
    FirstLogIs(ss[FirstLog(ss) := t], FirstLog(ss));
  }

  lemma FirstLogBehind(above: seq<Section>, s: Section)
    requires HasNone(IsLog, above) && IsLog(s)
    ensures FirstLog(above + [s]) == |above|
  {
    hide SectionKind, IsLog;
    assert (above + [s])[..|above|] == above;
    FirstLogIs(above + [s], |above|);
  }

  lemma CompletedEntries(b: Body, line: string)
    requires b.entries != []
    ensures CompletedBody(b, line).entries == b.entries[|b.entries| - 1 := Complete(b.entries[|b.entries| - 1])] + [[line]]
  {
    hide Complete;
  }

  lemma NotOlderSoFar(content: string, line: string)
    requires var ss := ParseDoc(SplitInclusive(content)).sections;
      FirstLog(ss) < |ss| ==> NotOlderThan(line, SplitBody(ss[FirstLog(ss)].body).entries)
    ensures NotOlderThan(line, EntriesSoFar(content))
  {
    hide *;
    var ss := ParseDoc(SplitInclusive(content)).sections;
    EntriesSoFarIs(content);
    NothingIsNewer(line);
    if FirstLog(ss) < |ss| && StopsInLog(content) {
      LastEntryOfLog(content);
      CompletedDates(SplitBody(ss[FirstLog(ss)].body).entries);
      SameDatesSameOrder(SplitBody(ss[FirstLog(ss)].body).entries, EntriesSoFar(content), line);
    }
  }

  lemma NothingIsNewer(line: string)
    ensures NotOlderThan(line, [])
  {
    assert Map(DateOf, []) == [];
  }

  /** A new entry that is not older than the dated ones is never moved by the next archive run,
      whatever order the section is in and even when the section has just been made. */
  lemma InsertThenArchiveKeeps(content: string, entry: string, policy: Policy) returns (n: nat, i: nat)
    requires OneLineEntry(entry) && policy.minEntries >= 1 && !Joins(content)
    requires var ss := ParseDoc(SplitInclusive(content)).sections;
      FirstLog(ss) < |ss| ==> NotOlderThan(EntryLine(entry), SplitBody(ss[FirstLog(ss)].body).entries)
    ensures var ss := ParseDoc(SplitInclusive(InsertText(content, entry))).sections;
      n == FirstLog(ss) < |ss| && IsLog(ss[n]) &&
      var es := SplitBody(ss[n].body).entries;
      var (lo, hi) := KeptRange(ChangeLog, es, policy);
      (es, i) == WithEntry(EntriesSoFar(content), EntryLine(entry)) && lo <= i < hi
  {
    hide *;
    var line, es := EntryLine(entry), EntriesSoFar(content);
    n := InsertedEntries(content, entry);
    i := WithEntry(es, line).1;
    NotOlderSoFar(content, line);
    NewEntryInKeptRange(es, line, policy);
  }

  lemma FirstIsLog(ss: seq<Section>)
    requires FirstLog(ss) < |ss|
    ensures IsLog(ss[FirstLog(ss)])
  {
    hide SectionKind;
  }

  lemma WithEntryParts(body: seq<string>, line: string)
    ensures WithEntryBody(body, line).entries == WithEntry(SplitBody(body).entries, line).0
  {
    hide SplitBody, WithEntry;
  }

  /** The entry's line is in the text the archive run writes back. */
  lemma InsertedLineSurvives(content: string, entry: string, policy: Policy)
    requires OneLineEntry(entry) && policy.minEntries >= 1 && !Joins(content)
    requires var ss := ParseDoc(SplitInclusive(content)).sections;
      FirstLog(ss) < |ss| ==> NotOlderThan(EntryLine(entry), SplitBody(ss[FirstLog(ss)].body).entries)
    ensures EntryLine(entry) in SplitInclusive(PlanText(InsertText(content, entry), policy).newContent)
  {
    hide *;
    var n, i := InsertThenArchiveKeeps(content, entry, policy);
    var text := InsertText(content, entry);
    var d := ParseDoc(SplitInclusive(text));
    var s := d.sections[n];
    PlannedDoc(text, policy);
    PlanSectionsAt(d.sections, policy, n);
    KeptRangeIsKept(ChangeLog, s.body, policy);
    PlanLogIs(s, policy);
    var es := SplitBody(s.body).entries;
    var (lo, hi) := KeptRange(ChangeLog, es, policy);
    var kept := PlanBody(ChangeLog, s.body, policy).kept;
    InFlattened(es, lo, hi, i, EntryLine(entry));
    InMiddle(SplitBody(s.body).preamble, Flatten(es[lo..hi]), SplitBody(s.body).trailing, EntryLine(entry));
    InDoc(d, n, policy, EntryLine(entry));
    RenderParsed(SplitInclusive(PlanText(text, policy).newContent));
  }

  lemma PlanLogIs(s: Section, policy: Policy)
    requires IsLog(s)
    ensures PlanSection(s, policy) == Section(s.heading, PlanBody(ChangeLog, s.body, policy).kept)
  {
    hide PlanBody, SectionKind;
  }

  lemma InFlattened(es: seq<seq<string>>, lo: nat, hi: nat, i: nat, line: string)
    requires lo <= i < hi <= |es| && es[i] == [line]
    ensures line in Flatten(es[lo..hi])
  {
    hide *;
    FlattenThree(es[lo..i], [es[i]], es[i + 1..hi]);
    FlattenOne(es[i]);
    assert es[lo..i] + [es[i]] + es[i + 1..hi] == es[lo..hi];
    InMiddle(Flatten(es[lo..i]), [line], Flatten(es[i + 1..hi]), line);
  }

  lemma InMiddle<T>(a: seq<T>, b: seq<T>, c: seq<T>, x: T)
    requires x in b
    ensures x in a + b + c
  {
  }

  lemma InDoc(d: Doc, n: nat, policy: Policy, line: string)
    requires n < |d.sections| && PlanSections(d.sections, policy)[n] == PlanSection(d.sections[n], policy)
    requires line in PlanSection(d.sections[n], policy).body
    ensures line in Render(PlanDoc(d, policy))
  {
    hide PlanSection, PlanSections, RenderSections;
    RenderAt(PlanSections(d.sections, policy), n);
  }

  // ----- the loop form of `insert_change_log_entry` -----

  lemma {:induction false} RenderSectionsAppend(a: seq<Section>, b: seq<Section>)
    ensures RenderSections(a + b) == RenderSections(a) + RenderSections(b)
  {
    if a == [] {
      assert a + b == b;
    } else {
      assert (a + b)[1..] == a[1..] + b;
      RenderSectionsAppend(a[1..], b);
    }
  }

  lemma SectionsFrom(lines: seq<string>, n: nat)
    requires n <= |Sections(lines)|
    ensures RenderSections(ParseDoc(lines).sections[n..])
         == lines[if n < |Sections(lines)| then Sections(lines)[n].0 else |lines|..]
  {
    var secs, ss := Sections(lines), ParseDoc(lines).sections;
    hide RenderSections, Sections;
    SectionsConsecutiveFrom(lines, n);
    RenderTiles(lines, secs[n..]);
    assert SectionsAt(lines, secs[n..]) == ss[n..];
  }

  /** The index ranges cut the lines where the document is cut. */
  lemma RangesAround(lines: seq<string>, n: nat)
    requires n < |Sections(lines)|
    ensures var d, r := ParseDoc(lines), Sections(lines)[n];
      && d.preface + RenderSections(d.sections[..n]) == lines[..r.0]
      && RenderSections(d.sections[n + 1..]) == lines[r.1..]
  {
    var d, secs := ParseDoc(lines), Sections(lines);
    hide RenderSections, ParseDoc, Sections;
    SectionCount(lines);
    SectionsFrom(lines, n);
    SectionsFrom(lines, n + 1);
    NextRange(lines, n);
    RenderParsed(lines);
    RenderSectionsAppend(d.sections[..n], d.sections[n..]);
    assert d.sections[..n] + d.sections[n..] == d.sections;
    PrefixOf(d.preface + RenderSections(d.sections[..n]), lines[secs[n].0..], lines, secs[n].0);
    assert d.preface + RenderSections(d.sections[..n]) + lines[secs[n].0..] == lines;
  }

  lemma NextRange(lines: seq<string>, n: nat)
    requires n < |Sections(lines)|
    ensures Sections(lines)[n].1 == if n + 1 < |Sections(lines)| then Sections(lines)[n + 1].0 else |lines|
  {
  }

  lemma PrefixOf(a: seq<string>, b: seq<string>, w: seq<string>, n: nat)
    requires n <= |w| && b == w[n..]
    ensures a + b == w ==> a == w[..n]
  {
    if a + b == w {
      assert a == (a + b)[..|a|];
    }
  }

  lemma FirstLogIs(ss: seq<Section>, n: nat)
    requires n <= |ss| && HasNone(IsLog, ss[..n]) && (n < |ss| ==> IsLog(ss[n]))
    ensures FirstLog(ss) == n
  {
    hide SectionKind;
    var m := FirstLog(ss);
    assert m < n ==> !IsLog(ss[..n][m]);
  }

  lemma EntriesTerminated(prev: string, h: string, b: Body)
    requires WellFormed([h] + RenderBody(b)) && b.trailing != [] && Terminated(prev)
    ensures Terminated(prev + Flatten(Flatten(b.entries)))
  {
    var es := Flatten(b.entries);
    assert [h] + RenderBody(b) == ([h] + b.preamble + es) + b.trailing;
    hide Flatten, WellFormed, RenderBody;
    UnterminatedIsLast([h] + b.preamble + es, b.trailing);
    HasNoneThree(Unterminated, [h], b.preamble, es);
    if es == [] {
      FlattenNothing(es);
      assert prev + Flatten(es) == prev;
    } else {
      FlattenTerminated(es);
      TerminatedAppend(prev, Flatten(es));
    }
  }

  lemma ParsedSection(lines: seq<string>, n: nat)
    requires n < |Sections(lines)|
    ensures |ParseDoc(lines).sections| == |Sections(lines)|
    ensures ParseDoc(lines).sections[n] == SectionAt(lines, Sections(lines)[n])
  {
  }

  lemma OneMoreNotLog(ss: seq<Section>, n: nat)
    requires n < |ss| && HasNone(IsLog, ss[..n]) && SectionKind(ss[n].heading) != Some(ChangeLog)
    ensures HasNone(IsLog, ss[..n + 1])
  {
    hide SectionKind;
    assert ss[..n + 1] == ss[..n] + [ss[n]];
  }

  lemma FoundLog(ss: seq<Section>, n: nat)
    requires n < |ss| && HasNone(IsLog, ss[..n]) && SectionKind(ss[n].heading) == Some(ChangeLog)
    ensures FirstLog(ss) == n
  {
    hide SectionKind;
    FirstLogIs(ss, n);
  }

  lemma EntryLineTerminated(entry: string)
    ensures Terminated(EntryLine(entry))
  {
  }

  lemma PointParts(s: Section)
    ensures var b := SplitBody(s.body);
      InsertionPoint(s) == if DetectOrder(b.entries) == OldestFirst
        then ([s.heading] + b.preamble + Flatten(b.entries), b.trailing)
        else ([s.heading] + b.preamble, Flatten(b.entries) + b.trailing)
  {
    hide SplitBody, DetectOrder, Flatten;
  }

  /** The pieces the insertion writes, in order. */
  lemma InsertAssembled(content: string, entry: string, lines: seq<string>, n: nat, r: (nat, nat), b: Body)
    requires lines == SplitInclusive(content) && n < |Sections(lines)| && r == Sections(lines)[n]
    requires n == FirstLog(ParseDoc(lines).sections) && b == SplitBody(lines[r.0 + 1..r.1])
    ensures var head, e, below := Flatten(lines[..r.0 + 1]) + Flatten(b.preamble), EntryLine(entry), Flatten(lines[r.1..]);
      InsertText(content, entry) ==
      if DetectOrder(b.entries) == OldestFirst
      then EnsureFinalNewline(head + Flatten(Flatten(b.entries)), true) + e + Flatten(b.trailing) + below
      else head + e + Flatten(Flatten(b.entries)) + Flatten(b.trailing) + below
  {
    hide *;
    var d, e := ParseDoc(lines), EntryLine(entry);
    ParsedSection(lines, n);
    var s := d.sections[n];
    SectionAtParts(lines, r);
    RangesAround(lines, n);
    PointParts(s);
    var before := lines[..r.0] + InsertionPoint(s).0;
    var after := InsertionPoint(s).1 + lines[r.1..];
    AroundIs(content, n, before, after);
    InsertTextAround(content, entry, before, after);
    var f := Flatten(b.entries);
    HeadText(lines, r.0, b.preamble, f);
    if DetectOrder(b.entries) == OldestFirst {
      assert before == lines[..r.0] + ([lines[r.0]] + b.preamble + f);
      FlattenAppend(b.trailing, lines[r.1..]);
    } else {
      assert before == lines[..r.0] + ([lines[r.0]] + b.preamble);
      FlattenThree(f, b.trailing, lines[r.1..]);
      NewlineNotAdded(Flatten(before), false);
    }
  }

  lemma HeadText(lines: seq<string>, i: nat, p: seq<string>, f: seq<string>)
    requires i < |lines|
    ensures Flatten(lines[..i] + ([lines[i]] + p)) == Flatten(lines[..i + 1]) + Flatten(p)
    ensures Flatten(lines[..i] + ([lines[i]] + p + f)) == Flatten(lines[..i + 1]) + Flatten(p) + Flatten(f)
  {
    hide *;
    assert lines[..i] + ([lines[i]] + p) == lines[..i + 1] + p;
    assert lines[..i] + ([lines[i]] + p + f) == lines[..i + 1] + p + f;
    FlattenAppend(lines[..i + 1], p);
    FlattenThree(lines[..i + 1], p, f);
  }

  lemma SectionAtParts(lines: seq<string>, r: (nat, nat))
    requires r.0 < r.1 <= |lines|
    ensures SectionAt(lines, r).heading == lines[r.0] && SectionAt(lines, r).body == lines[r.0 + 1..r.1]
  {
  }

  lemma AroundIs(content: string, n: nat, before: seq<string>, after: seq<string>)
    requires var d := ParseDoc(SplitInclusive(content));
      && n == FirstLog(d.sections) && n < |d.sections|
      && before == d.preface + RenderSections(d.sections[..n]) + InsertionPoint(d.sections[n]).0
      && after == InsertionPoint(d.sections[n]).1 + RenderSections(d.sections[n + 1..])
    ensures Around(content, before, after)
  {
    hide ParseDoc, SplitInclusive, FirstLog, RenderSections, InsertionPoint;
  }

  /** The loop form of `insert_change_log_entry`. */
  method InsertChangeLogEntry(content: string, entry: string) returns (out: string)
    ensures out == InsertText(content, entry)
  {
    hide *;
    var entryLine := EntryLine(entry);
    EntryLineTerminated(entry);
    var lines := SplitInclusive(content);
    SplitIsWellFormed(content);
    var secs := Sections(lines);
    ghost var d := ParseDoc(lines);
    var n := 0;
    SectionCount(lines);
    NothingIsLog(d.sections[..0]);
    while n < |secs| && SectionKind(lines[secs[n].0]) != Some(ChangeLog)
      invariant n <= |secs| == |d.sections| && HasNone(IsLog, d.sections[..n])
    {
      ParsedSection(lines, n);
      SectionAtParts(lines, secs[n]);
      OneMoreNotLog(d.sections, n);
      n := n + 1;
    }
    if n == |secs| {
      assert d.sections[..n] == d.sections;
      FirstLogNone(d.sections);
      InsertTextNew(content, entry);
      return TrimEnd(content) + "\n\n" + NEW_SECTION_HEADING + entryLine;
    }
    var (start, end) := secs[n];
    ParsedSection(lines, n);
    SectionAtParts(lines, secs[n]);
    FoundLog(d.sections, n);
    SliceWellFormed(lines, start, end);
    var parts := SplitBodyLoop(lines[start + 1..end]);
    var order := DetectOrder(parts.entries);
    out := Flatten(lines[..start + 1]);
    out := out + Flatten(parts.preamble);
    if order == OldestFirst {
      out := out + Flatten(Flatten(parts.entries));
      out := EnsureFinalNewline(out, true);
      TerminatedAppend(out, entryLine);
      out := out + entryLine;
    } else {
      TerminatedAppend(out, entryLine);
      out := out + entryLine;
      if parts.trailing != [] {
        EntriesTerminated(out, lines[start], parts);
      }
      out := out + Flatten(Flatten(parts.entries));
    }
    NewlineNotAdded(out, parts.trailing != []);
    out := EnsureFinalNewline(out, parts.trailing != []);
    out := out + Flatten(parts.trailing);
    out := out + Flatten(lines[end..]);
    InsertAssembled(content, entry, lines, n, secs[n], parts);
  }

  lemma SectionCount(lines: seq<string>)
    ensures |ParseDoc(lines).sections| == |Sections(lines)|
  {
  }

  lemma NothingIsLog(ss: seq<Section>)
    requires ss == []
    ensures HasNone(IsLog, ss)
  {
  }
}
