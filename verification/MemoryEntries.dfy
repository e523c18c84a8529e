/** Whole entries over whole runs of the archiver: the lines of an entry stay together, in
    `memory.md` or in the archive. */
module MemoryEntries {
  import opened Seqs
  import opened Text
  import opened MemoryParse
  import opened MemoryPlan
  import opened MemoryInsert
  import opened MemoryApply

  // ----- completed lines -----

  function Completed(l: string): string {
    EnsureFinalNewline(l, true)
  }

  /** Completing the last line completes every line: the others are complete. */
  lemma CompleteIsMap(ls: seq<string>)
    requires WellFormed(ls)
    ensures Complete(ls) == Map(Completed, ls)
  {
    hide IsLine;
    forall i | 0 <= i < |ls| - 1 ensures Completed(ls[i]) == ls[i] {
      NewlineNotAdded(ls[i], true);
    }
    if ls != [] {
      assert Complete(ls) == ls[..|ls| - 1] + [Completed(ls[|ls| - 1])];
    }
  }

  /** The lines, completed, have the block. */
  ghost predicate Has(ls: seq<string>, b: seq<string>) {
    HasBlock(Map(Completed, ls), b)
  }

  lemma HasInside(a: seq<string>, x: seq<string>, c: seq<string>, b: seq<string>)
    requires Has(x, b)
    ensures Has(a + x + c, b)
  {
    hide HasBlock, Completed, Map;
    MapAppend(Completed, a + x, c);
    MapAppend(Completed, a, x);
    BlockInside(Map(Completed, a), Map(Completed, x), Map(Completed, c), b);
  }

  lemma EndedKinds(l: string)
    ensures IsHeading(Completed(l)) <==> IsHeading(l)
    ensures IsBullet(Completed(l)) <==> IsBullet(l)
    ensures Blank(Completed(l)) <==> Blank(l)
  {
    BlankCompleted(l);
    hide Blank;
    HeadingChars(l);
    HeadingChars(Completed(l));
    BulletChars(l);
    BulletChars(Completed(l));
  }

  // ----- where a block can be -----

  /** What is looked for: a bullet line and lines that are neither bullets nor headings, the last
      one not blank. */
  predicate EntryBlock(b: seq<string>) {
    b != [] && IsBullet(b[0]) && NoBullet(b[1..]) && NoHeading(b) && !Blank(b[|b| - 1])
  }

  lemma BlockLine(ls: seq<string>, i: nat, b: seq<string>, j: nat)
    requires BlockAt(Map(Completed, ls), i, b) && j < |b|
    ensures i + j < |ls| && Completed(ls[i + j]) == b[j]
  {
    hide Completed;
    assert Map(Completed, ls)[i..i + |b|][j] == Map(Completed, ls)[i + j];
  }

  lemma BlockFrom(x: seq<string>, y: seq<string>, i: nat, b: seq<string>)
    requires BlockAt(Map(Completed, x + y), i, b) && |x| <= i
    ensures Has(y, b)
  {
    hide Completed;
    assert Map(Completed, x + y)[i..i + |b|] == Map(Completed, y)[i - |x|..i - |x| + |b|];
    assert BlockAt(Map(Completed, y), i - |x|, b);
  }

  lemma BlockWithin(x: seq<string>, y: seq<string>, i: nat, b: seq<string>)
    requires BlockAt(Map(Completed, x + y), i, b) && i + |b| <= |x|
    ensures Has(x, b)
  {
    hide Completed;
    assert Map(Completed, x + y)[i..i + |b|] == Map(Completed, x)[i..i + |b|];
    assert BlockAt(Map(Completed, x), i, b);
  }

  /** A block without headings is before a heading or behind it. */
  lemma NotAcrossHeading(x: seq<string>, y: seq<string>, b: seq<string>)
    requires Has(x + y, b) && EntryBlock(b) && (y == [] || IsHeading(y[0]))
    ensures Has(x, b) || Has(y, b)
  {
    hide Completed, IsHeading, IsBullet, Blank, BlockAt;
    var i: nat :| BlockAt(Map(Completed, x + y), i, b);
    BlockLine(x + y, i, b, |b| - 1);
    if |x| <= i {
      BlockFrom(x, y, i, b);
    } else if i + |b| <= |x| {
      BlockWithin(x, y, i, b);
    } else {
      BlockLine(x + y, i, b, |x| - i);
      EndedKinds(y[0]);
    }
  }

  /** A block does not start in lines without bullets. */
  lemma NotFromPlain(x: seq<string>, y: seq<string>, b: seq<string>)
    requires Has(x + y, b) && EntryBlock(b) && NoBullet(x)
    ensures Has(y, b)
  {
    hide Completed, IsHeading, IsBullet, Blank, BlockAt;
    var i: nat :| BlockAt(Map(Completed, x + y), i, b);
    BlockLine(x + y, i, b, 0);
    EndedKinds((x + y)[i]);
    BlockFrom(x, y, i, b);
  }

  lemma NotInBlank(t: seq<string>, b: seq<string>)
    requires EntryBlock(b) && AllBlank(t)
    ensures !Has(t, b)
  {
    hide Completed, IsHeading, IsBullet, Blank, BlockAt;
    forall i: nat ensures !BlockAt(Map(Completed, t), i, b) {
      if BlockAt(Map(Completed, t), i, b) {
        BlockLine(t, i, b, |b| - 1);
        EndedKinds(t[i + |b| - 1]);
      }
    }
  }

  /** The lines behind an entry: the next entry, or blank lines. */
  predicate EndsEntry(y: seq<string>) {
    AllBlank(y) || (y != [] && IsBullet(y[0]))
  }

  lemma InEntryOrBehind(e: seq<string>, y: seq<string>, b: seq<string>)
    requires Has(e + y, b) && EntryBlock(b) && IsEntry(e) && EndsEntry(y)
    ensures Has(e, b) || Has(y, b)
  {
    hide Completed, IsHeading, IsBullet, Blank, BlockAt;
    var i: nat :| BlockAt(Map(Completed, e + y), i, b);
    BlockLine(e + y, i, b, |b| - 1);
    if |e| <= i {
      BlockFrom(e, y, i, b);
    } else if i + |b| <= |e| {
      BlockWithin(e, y, i, b);
    } else {
      AcrossEntry(e, y, b, i);
    }
  }

  lemma AcrossEntry(e: seq<string>, y: seq<string>, b: seq<string>, i: nat)
    requires BlockAt(Map(Completed, e + y), i, b) && EntryBlock(b) && EndsEntry(y)
    ensures !(i < |e| < i + |b|)
  {
    hide Completed, IsHeading, IsBullet, Blank, BlockAt;
    if i < |e| < i + |b| {
      BlockLine(e + y, i, b, |b| - 1);
      BlockLine(e + y, i, b, |e| - i);
      EndedKinds(y[0]);
      EndedKinds(y[i + |b| - 1 - |e|]);
    }
  }

  lemma EntriesEnd(es: seq<seq<string>>, t: seq<string>)
    requires AllEntries(es) && AllBlank(t)
    ensures EndsEntry(Flatten(es) + t)
  {
    hide IsBullet, Blank;
    if es != [] {
      assert IsEntry(es[0]);
    } else {
      assert Flatten(es) + t == t;
    }
  }

  /** A block that is in the entries is in one of them. */
  lemma {:induction false} InOneEntry(es: seq<seq<string>>, t: seq<string>, b: seq<string>) returns (j: nat)
    requires Has(Flatten(es) + t, b) && EntryBlock(b) && AllEntries(es) && AllBlank(t)
    ensures j < |es| && Has(es[j], b)
  {
    hide Has, IsEntry, EntryBlock, AllBlank, EndsEntry;
    j := 0;
    if es == [] {
      assert Flatten(es) + t == t;
      NotInBlank(t, b);
    } else {
      var rest := Flatten(es[1..]) + t;
      assert Flatten(es) + t == es[0] + rest;
      EntriesEnd(es[1..], t);
      InEntryOrBehind(es[0], rest, b);
      if !Has(es[0], b) {
        j := InOneEntry(es[1..], t, b);
        j := j + 1;
      }
    }
  }

  lemma {:induction false} EntryInFlatten(es: seq<seq<string>>, j: nat, b: seq<string>)
    requires j < |es| && Has(es[j], b)
    ensures Has(Flatten(es), b)
  {
    hide Has, Flatten;
    assert es == es[..j] + [es[j]] + es[j + 1..];
    FlattenThree(es[..j], [es[j]], es[j + 1..]);
    FlattenOne(es[j]);
    HasInside(Flatten(es[..j]), es[j], Flatten(es[j + 1..]), b);
  }

  // ----- what a plan does to a block -----

  ghost predicate OneHas(es: seq<seq<string>>, b: seq<string>) {
    exists j :: 0 <= j < |es| && Has(es[j], b)
  }

  lemma OneHasAppend(x: seq<seq<string>>, y: seq<seq<string>>, b: seq<string>)
    requires OneHas(x, b) || OneHas(y, b)
    ensures OneHas(x + y, b)
  {
    hide Has;
    if OneHas(x, b) {
      var j :| 0 <= j < |x| && Has(x[j], b);
      assert (x + y)[j] == x[j];
    } else {
      var j :| 0 <= j < |y| && Has(y[j], b);
      assert (x + y)[|x| + j] == y[j];
    }
  }

  lemma BodyParts(body: seq<string>)
    ensures var b := SplitBody(body);
            NoBullet(b.preamble) && AllEntries(b.entries) && AllBlank(b.trailing) && body == RenderBody(b)
  {
    hide IsBullet, Blank, IsEntry;
    assert WellFormedBody(SplitBody(body));
  }

  lemma OneHasAt(es: seq<seq<string>>, j: nat, b: seq<string>)
    requires j < |es| && Has(es[j], b)
    ensures OneHas(es, b)
  {
    hide Has;
  }

  /** One of the entries of three stretches is in the middle one, or in one of the others. */
  lemma MiddleOrOuter(pre: seq<seq<string>>, kept: seq<seq<string>>, post: seq<seq<string>>, j: nat, b: seq<string>)
    requires j < |pre + kept + post| && Has((pre + kept + post)[j], b)
    ensures Has(Flatten(kept), b) || OneHas(pre + post, b)
  {
    hide Has, OneHas, Flatten;
    if j < |pre| {
      OneHasAt(pre + post, j, b);
    } else if j < |pre| + |kept| {
      EntryInFlatten(kept, j - |pre|, b);
    } else {
      OneHasAt(pre + post, j - |kept|, b);
    }
  }

  lemma BodyEntry(body: seq<string>, blk: seq<string>) returns (j: nat)
    requires Has(body, blk) && EntryBlock(blk)
    ensures j < |SplitBody(body).entries| && Has(SplitBody(body).entries[j], blk)
  {
    hide Has, SplitBody, EntryBlock, AllEntries, NoBullet, AllBlank, Flatten;
    var b := SplitBody(body);
    BodyParts(body);
    assert body == b.preamble + (Flatten(b.entries) + b.trailing);
    NotFromPlain(b.preamble, Flatten(b.entries) + b.trailing, blk);
    j := InOneEntry(b.entries, b.trailing, blk);
  }

  /** A section keeps a block, or moves an entry that has it. */
  lemma BodyKeeps(kind: Kind, body: seq<string>, policy: Policy, blk: seq<string>)
    requires Has(body, blk) && EntryBlock(blk)
    ensures Has(PlanBody(kind, body, policy).kept, blk) || OneHas(PlanBody(kind, body, policy).moved, blk)
  {
    hide *;
    var j := BodyEntry(body, blk);
    var b, pre, kept, post := PlanBodySplit(kind, body, policy);
    MiddleOrOuter(pre, kept, post, j, blk);
    if Has(Flatten(kept), blk) {
      HasInside(b.preamble, Flatten(kept), b.trailing, blk);
    }
  }

  lemma HeadingNoBlock(h: string, y: seq<string>, b: seq<string>)
    requires IsHeading(h) && Has([h] + y, b) && EntryBlock(b)
    ensures Has(y, b)
  {
    hide Has, EntryBlock, IsHeading, IsBullet;
    HeadingChars(h);
    BulletChars(h);
    NotFromPlain([h], y, b);
  }

  lemma RenderCons(s: Section, rest: seq<Section>)
    ensures RenderSections([s] + rest) == [s.heading] + (s.body + RenderSections(rest))
  {
    assert ([s] + rest)[1..] == rest;
  }

  lemma PlanCons(s: Section, rest: seq<Section>, policy: Policy)
    ensures PlanSections([s] + rest, policy) == [PlanSection(s, policy)] + PlanSections(rest, policy)
    ensures Moved(ChangeLog, [s] + rest, policy) == MovedOf(ChangeLog, s, policy) + Moved(ChangeLog, rest, policy)
    ensures Moved(Instincts, [s] + rest, policy) == MovedOf(Instincts, s, policy) + Moved(Instincts, rest, policy)
  {
    hide PlanSection, MovedOf;
    assert ([s] + rest)[1..] == rest;
  }

  lemma RenderOpens(ss: seq<Section>)
    requires forall i :: 0 <= i < |ss| ==> WellFormedSection(ss[i])
    ensures RenderSections(ss) == [] || IsHeading(RenderSections(ss)[0])
  {
    hide IsHeading;
    if ss != [] { assert WellFormedSection(ss[0]); }
  }

  /** What becomes of a block in one section. */
  lemma SectionKeeps(s: Section, policy: Policy, b: seq<string>)
    requires Has(s.body, b) && EntryBlock(b)
    ensures Has(PlanSection(s, policy).body, b) || OneHas(MovedOf(ChangeLog, s, policy), b)
      || OneHas(MovedOf(Instincts, s, policy), b)
    ensures PlanSection(s, policy).heading == s.heading
  {
    hide Has, OneHas, EntryBlock, PlanBody, SectionKind;
    var kind := SectionKind(s.heading);
    match kind {
      case None =>
      case Some(ChangeLog) => BodyKeeps(ChangeLog, s.body, policy, b);
      case Some(Instincts) => BodyKeeps(Instincts, s.body, policy, b);
    }
  }

  ghost predicate SomeMoved(ss: seq<Section>, policy: Policy, b: seq<string>) {
    OneHas(Moved(ChangeLog, ss, policy), b) || OneHas(Moved(Instincts, ss, policy), b)
  }

  lemma SomeMovedCons(s: Section, rest: seq<Section>, policy: Policy, b: seq<string>)
    requires OneHas(MovedOf(ChangeLog, s, policy), b) || OneHas(MovedOf(Instincts, s, policy), b)
      || SomeMoved(rest, policy, b)
    ensures SomeMoved([s] + rest, policy, b)
  {
    hide OneHas, MovedOf, Moved;
    PlanCons(s, rest, policy);
    if OneHas(MovedOf(ChangeLog, s, policy), b) || OneHas(Moved(ChangeLog, rest, policy), b) {
      OneHasAppend(MovedOf(ChangeLog, s, policy), Moved(ChangeLog, rest, policy), b);
    } else {
      OneHasAppend(MovedOf(Instincts, s, policy), Moved(Instincts, rest, policy), b);
    }
  }

  /** A block of the sections is in the planned sections, or in a moved entry. */
  lemma {:induction false} SectionsKeep(ss: seq<Section>, policy: Policy, b: seq<string>)
    requires forall i :: 0 <= i < |ss| ==> WellFormedSection(ss[i])
    requires Has(RenderSections(ss), b) && EntryBlock(b)
    ensures Has(RenderSections(PlanSections(ss, policy)), b) || SomeMoved(ss, policy, b)
  {
    hide *;
    if ss == [] {
      NothingHasNothing(b);
    } else {
      var s, rest := ss[0], ss[1..];
      assert ss == [s] + rest;
      RenderCons(s, rest);
      PlanCons(s, rest, policy);
      RenderOpens(rest);
      FirstIsWellFormed(ss);
      HeadingNoBlock(s.heading, s.body + RenderSections(rest), b);
      NotAcrossHeading(s.body, RenderSections(rest), b);
      var p, planned := PlanSection(s, policy), PlanSections(rest, policy);
      RenderCons(p, planned);
      if Has(s.body, b) {
        SectionKeeps(s, policy, b);
        if Has(p.body, b) {
          HasInside([p.heading], p.body, RenderSections(planned), b);
          assert [p.heading] + p.body + RenderSections(planned) == [p.heading] + (p.body + RenderSections(planned));
        } else {
          SomeMovedCons(s, rest, policy, b);
        }
      } else {
        SectionsKeep(rest, policy, b);
        if Has(RenderSections(planned), b) {
          HasInside([p.heading] + p.body, RenderSections(planned), [], b);
          assert [p.heading] + p.body + RenderSections(planned) + [] == [p.heading] + (p.body + RenderSections(planned));
        } else {
          SomeMovedCons(s, rest, policy, b);
        }
      }
    }
  }

  lemma FirstIsWellFormed(ss: seq<Section>)
    requires ss != [] && forall i :: 0 <= i < |ss| ==> WellFormedSection(ss[i])
    ensures IsHeading(ss[0].heading)
  {
    assert WellFormedSection(ss[0]);
  }

  lemma NothingHasNothing(b: seq<string>)
    requires EntryBlock(b)
    ensures !Has(RenderSections([]), b)
  {
    hide Has, EntryBlock, AllBlank;
    NoBlankLines();
    NotInBlank([], b);
  }

  lemma NoBlankLines()
    ensures AllBlank([]) && RenderSections([]) == []
  {
  }

  // ----- texts -----

  lemma FullLinesAre(text: string)
    ensures FullLines(text) == Map(Completed, SplitInclusive(text))
  {
    hide SplitInclusive, WellFormed;
    SplitIsWellFormed(text);
    CompleteIsMap(SplitInclusive(text));
  }

  lemma HeldIsHas(text: string, e: seq<string>)
    ensures Held(text, e) <==> Has(SplitInclusive(text), Archival(e))
  {
    hide FullLines, SplitInclusive, Archival, HasBlock;
    FullLinesAre(text);
  }

  lemma ArchivalIsBlock(e: seq<string>)
    requires MovedEntry(e)
    ensures EntryBlock(Archival(e))
  {
    hide Archival, IsBullet, IsHeading, Blank, Complete;
    ArchivalOf(e);
    hide MovedEntry;
    var a := Archival(e);
    MovedTail(e);
    forall i | 0 <= i < |a[1..]| ensures !IsBullet(a[1..][i]) {
      assert a[i + 1] == Complete(e)[i + 1];
    }
  }

  lemma MovedTail(e: seq<string>)
    requires MovedEntry(e)
    ensures forall i :: 0 < i < |Complete(e)| ==> !IsBullet(Complete(e)[i])
  {
    hide IsBullet, WellFormed, Complete;
    CompleteIsMap(e);
    forall i | 0 < i < |e| ensures !IsBullet(Completed(e[i])) {
      EndedKinds(e[i]);
      assert e[1..][i - 1] == e[i];
    }
  }

  /** A block of an entry is in what the archive keeps of it. */
  lemma BlockInArchival(e: seq<string>, b: seq<string>)
    requires MovedEntry(e) && Has(e, b) && EntryBlock(b)
    ensures HasBlock(Archival(e), b)
  {
    var n := ContentEnd(e);
    hide ContentEnd, Completed, IsHeading, IsBullet, Blank;
    assert e == e[..n] + e[n..];
    SolidPartOf(e, n, b);
    PrefixWellFormedEntry(e, n);
    CompleteIsMap(e[..n]);
  }

  lemma PrefixWellFormedEntry(e: seq<string>, n: nat)
    requires WellFormed(e) && n <= |e|
    ensures WellFormed(e[..n])
  {
    hide IsLine;
  }

  lemma BlankBehind(e: seq<string>, n: nat, p: nat)
    requires n <= |e| && AllBlank(e[n..]) && p < |e|
    ensures n <= p ==> Blank(e[p])
  {
    hide Blank;
    if n <= p { assert e[n..][p - n] == e[p]; }
  }

  lemma SolidPartOf(e: seq<string>, n: nat, b: seq<string>)
    requires n <= |e| && AllBlank(e[n..]) && Has(e, b) && EntryBlock(b)
    ensures Has(e[..n], b)
  {
    hide Completed, IsHeading, IsBullet, Blank, BlockAt;
    var i: nat :| BlockAt(Map(Completed, e), i, b);
    assert e == e[..n] + e[n..];
    BlockLine(e, i, b, |b| - 1);
    EndedKinds(e[i + |b| - 1]);
    BlankBehind(e, n, i + |b| - 1);
    BlockWithin(e[..n], e[n..], i, b);
  }

  lemma SelectedIs(original: string, policy: Policy)
    ensures var ss := ParseDoc(SplitInclusive(original)).sections;
            Selected(original, policy) == Moved(ChangeLog, ss, policy) + Moved(Instincts, ss, policy)
  {
  }

  lemma PlannedLinesAre(original: string, policy: Policy)
    ensures var d := ParseDoc(SplitInclusive(original));
            && PlannedLines(original, policy) == d.preface + RenderSections(PlanSections(d.sections, policy))
            && SplitInclusive(original) == d.preface + RenderSections(d.sections)
            && NoHeading(d.preface) && forall i :: 0 <= i < |d.sections| ==> WellFormedSection(d.sections[i])
  {
    hide SplitInclusive, ParseDoc, IsHeading;
    RenderParsed(SplitInclusive(original));
    ParsedWellFormed(SplitInclusive(original));
  }

  lemma InPrefaceOrSections(preface: seq<string>, ss: seq<Section>, b: seq<string>)
    requires Has(preface + RenderSections(ss), b) && EntryBlock(b)
    requires forall i :: 0 <= i < |ss| ==> WellFormedSection(ss[i])
    ensures Has(preface, b) || Has(RenderSections(ss), b)
  {
    hide *;
    RenderOpens(ss);
    NotAcrossHeading(preface, RenderSections(ss), b);
  }

  /** A block of the original is in the planned text, or in a selected entry. */
  lemma PlanKeepsBlock(original: string, policy: Policy, b: seq<string>)
    requires Has(SplitInclusive(original), b) && EntryBlock(b)
    ensures Has(SplitInclusive(PlanText(original, policy).newContent), b) || OneHas(Selected(original, policy), b)
  {
    hide *;
    var d := ParseDoc(SplitInclusive(original));
    PlannedLinesAre(original, policy);
    PlannedLinesKeepOrder(original, policy);
    SelectedIs(original, policy);
    InPrefaceOrSections(d.preface, d.sections, b);
    var planned := RenderSections(PlanSections(d.sections, policy));
    if Has(d.preface, b) {
      HasInside([], d.preface, planned, b);
      assert [] + d.preface + planned == d.preface + planned;
    } else {
      SectionsKeep(d.sections, policy, b);
      if Has(planned, b) {
        HasInside(d.preface, planned, [], b);
        assert d.preface + planned + [] == d.preface + planned;
      } else {
        MovedIsSelected(d.sections, policy, b);
      }
    }
  }

  lemma MovedIsSelected(ss: seq<Section>, policy: Policy, b: seq<string>)
    requires SomeMoved(ss, policy, b)
    ensures OneHas(Moved(ChangeLog, ss, policy) + Moved(Instincts, ss, policy), b)
  {
    hide OneHas, Moved;
    OneHasAppend(Moved(ChangeLog, ss, policy), Moved(Instincts, ss, policy), b);
  }

  lemma SelectedAreMoved(original: string, policy: Policy, i: nat)
    requires i < |Selected(original, policy)|
    ensures MovedEntry(Selected(original, policy)[i])
  {
    hide Selected, MovedEntry, PlanText, Map, Flatten;
    var log, instincts := PlannedTexts(original, policy);
  }

  lemma HasBlockInside(ls: seq<string>, x: seq<string>, b: seq<string>)
    requires HasBlock(ls, x) && HasBlock(x, b)
    ensures HasBlock(ls, b)
  {
    var i: nat :| BlockAt(ls, i, x);
    assert ls == ls[..i] + x + ls[i + |x|..];
    BlockInside(ls[..i], x, ls[i + |x|..], b);
  }

  /** Replacing keeps every entry's lines together, in the new text or in the archive. */
  lemma ReplaceKeepsEntry(archive: string, original: string, policy: Policy, e: seq<string>)
    requires AllHeld(archive, original, policy) && MovedEntry(e) && Held(original, e)
    ensures Held(PlanText(original, policy).newContent, e) || Held(archive, e)
  {
    hide Has, HasBlock, Archival, SplitInclusive, PlanText, Selected, MovedEntry, EntryBlock, FullLines, Held;
    var b := Archival(e);
    HeldIsHas(original, e);
    HeldIsHas(PlanText(original, policy).newContent, e);
    ArchivalIsBlock(e);
    PlanKeepsBlock(original, policy, b);
    if !Has(SplitInclusive(PlanText(original, policy).newContent), b) {
      var i :| 0 <= i < |Selected(original, policy)| && Has(Selected(original, policy)[i], b);
      var x := Selected(original, policy)[i];
      SelectedAreMoved(original, policy, i);
      BlockInArchival(x, b);
      HeldMeans(archive, x);
      HeldMeans(archive, e);
      HasBlockInside(FullLines(archive), Archival(x), b);
    }
  }

  lemma HeldMeans(text: string, e: seq<string>)
    ensures Held(text, e) <==> HasBlock(FullLines(text), Archival(e))
  {
  }

  // ----- runs -----

  /** The lines of the entry stand together in `memory.md` or in the archive. */
  ghost predicate EntryPresent(s: State, e: seq<string>) {
    (s.memory.Some? && Held(s.memory.value, e)) || Held(s.archive, e)
  }

  /** The writer, if it is the one that steps, keeps the lines of the entry together. */
  ghost predicate WriterKeepsEntry(s: State, step: Step, e: seq<string>) {
    step.Write? && s.memory.Some? && Held(s.memory.value, e) ==> step.text.Some? && Held(step.text.value, e)
  }

  ghost predicate WriterKeepsEntryInRun(s: State, steps: seq<Step>, e: seq<string>)
    decreases |steps|
  {
    steps == [] || (WriterKeepsEntry(s, steps[0], e) && WriterKeepsEntryInRun(After(s, steps[0]), steps[1..], e))
  }

  lemma StepKeepsEntry(s: State, step: Step, e: seq<string>)
    requires Safe(s) && Admissible(s, step) && WriterKeepsEntry(s, step, e) && MovedEntry(e) && EntryPresent(s, e)
    ensures EntryPresent(After(s, step), e)
  {
    hide Held, AllHeld, NoneSkipped, PlanText, Addition, GoesOn, NoNewline, MovedEntry;
    if step.Append? && s.phase.Planned? && Held(s.archive, e) {
      AppendKeepsHeld(s, step.name, step.stamp, e);
    } else if step.Replace? && s.phase.Appended? && s.memory == Some(s.phase.original) && Held(s.memory.value, e) {
      ReplaceKeepsEntry(s.archive, s.phase.original, s.phase.policy, e);
    }
  }

  /** In every run in which no append passes over a selected entry, with any policies, any
      interleaving of a writer and any crash, an entry whose lines the writer leaves together stands
      together in `memory.md` or in the archive. */
  lemma {:induction false} RunKeepsEntry(s: State, steps: seq<Step>, e: seq<string>)
    requires Safe(s) && AdmissibleRun(s, steps) && WriterKeepsEntryInRun(s, steps, e)
    requires MovedEntry(e) && EntryPresent(s, e)
    ensures EntryPresent(Run(s, steps), e)
    decreases |steps|
  {
    hide Safe, Admissible, After, WriterKeepsEntry, EntryPresent, MovedEntry;
    if steps != [] {
      StepKeepsSafe(s, steps[0]);
      StepKeepsEntry(s, steps[0], e);
      RunKeepsEntry(After(s, steps[0]), steps[1..], e);
    }
  }

  // ----- selected entries -----

  lemma EntryHasArchival(e: seq<string>)
    requires MovedEntry(e)
    ensures Has(e, Archival(e))
  {
    hide Archival, Completed, Complete;
    ArchivalOf(e);
    hide MovedEntry;
    MovedIsWellFormed(e);
    CompleteIsMap(e);
    assert BlockAt(Map(Completed, e), 0, Archival(e));
  }

  lemma MovedIsWellFormed(e: seq<string>)
    requires MovedEntry(e)
    ensures WellFormed(e)
  {
  }

  lemma MovedInBody(kind: Kind, body: seq<string>, policy: Policy, i: nat, b: seq<string>)
    requires i < |PlanBody(kind, body, policy).moved| && Has(PlanBody(kind, body, policy).moved[i], b)
    ensures Has(body, b)
  {
    hide Has, PlanBody, Flatten;
    var parts, pre, kept, post := PlanBodySplit(kind, body, policy);
    var j := if i < |pre| then i else i + |kept|;
    assert parts.entries[j] == (pre + post)[i];
    EntryInFlatten(parts.entries, j, b);
    FlattenThree(pre, kept, post);
    HasInside(parts.preamble, Flatten(parts.entries), parts.trailing, b);
  }

  /** A moved entry is in the sections. */
  lemma {:induction false} MovedInSections(kind: Kind, ss: seq<Section>, policy: Policy, i: nat, b: seq<string>)
    requires i < |Moved(kind, ss, policy)| && Has(Moved(kind, ss, policy)[i], b)
    ensures Has(RenderSections(ss), b)
  {
    hide Has, PlanBody, SectionKind;
    var s, rest := ss[0], ss[1..];
    var n := |MovedOf(kind, s, policy)|;
    assert ss == [s] + rest;
    RenderCons(s, rest);
    if i < n {
      MovedInBody(kind, s.body, policy, i, b);
      HasInside([s.heading], s.body, RenderSections(rest), b);
      assert [s.heading] + s.body + RenderSections(rest) == [s.heading] + (s.body + RenderSections(rest));
    } else {
      MovedInSections(kind, rest, policy, i - n, b);
      HasInside([s.heading] + s.body, RenderSections(rest), [], b);
      assert [s.heading] + s.body + RenderSections(rest) + [] == [s.heading] + (s.body + RenderSections(rest));
    }
  }

  /** A selected entry stands in the text it is selected from. */
  lemma SelectedStands(original: string, policy: Policy, i: nat)
    requires i < |Selected(original, policy)|
    ensures Held(original, Selected(original, policy)[i]) && MovedEntry(Selected(original, policy)[i])
  {
    hide *;
    var d := ParseDoc(SplitInclusive(original));
    var e := Selected(original, policy)[i];
    SelectedAreMoved(original, policy, i);
    EntryHasArchival(e);
    SelectedIs(original, policy);
    PlannedLinesAre(original, policy);
    var log := Moved(ChangeLog, d.sections, policy);
    if i < |log| {
      MovedInSections(ChangeLog, d.sections, policy, i, Archival(e));
    } else {
      MovedInSections(Instincts, d.sections, policy, i - |log|, Archival(e));
    }
    HasInside(d.preface, RenderSections(d.sections), [], Archival(e));
    assert d.preface + RenderSections(d.sections) + [] == d.preface + RenderSections(d.sections);
    HeldIsHas(original, e);
  }

  /** So no entry that a plan selects is lost in such a run. */
  lemma SelectedStays(s: State, policy: Policy, i: nat, steps: seq<Step>)
    requires s.phase == Idle && s.memory.Some? && i < |Selected(s.memory.value, policy)|
    requires AdmissibleRun(s, steps) && WriterKeepsEntryInRun(s, steps, Selected(s.memory.value, policy)[i])
    ensures EntryPresent(Run(s, steps), Selected(s.memory.value, policy)[i])
  {
    hide *;
    SelectedStands(s.memory.value, policy, i);
    IdleIsSafe(s, Selected(s.memory.value, policy)[i]);
    RunKeepsEntry(s, steps, Selected(s.memory.value, policy)[i]);
  }

  lemma IdleIsSafe(s: State, e: seq<string>)
    requires s.phase == Idle && s.memory.Some? && Held(s.memory.value, e)
    ensures Safe(s) && EntryPresent(s, e)
  {
    hide Held;
  }
}
