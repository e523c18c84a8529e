/** The applying half of `memory_archive.rs`: what is appended to the archive, and the
    protocol read, append, compare-and-replace beside other writers and crashes. */
module MemoryApply {
  import opened Seqs
  import opened Text
  import Words
  import opened MemoryParse
  import opened MemoryPlan
  import opened MemoryInsert

  // ----- the appended text -----

  /** The first line of an entry as it is looked up in the archive. */
  function FirstKey(entry: string): Option<string> {
    if Lines(entry) == [] then None else Some(TrimEnd(Lines(entry)[0]))
  }

  /** The lines of the archive, without the blank space at their ends. */
  function Already(archive: string): set<string> {
    set l | l in Lines(archive) :: TrimEnd(l)
  }

  predicate Fresh(entry: string, already: set<string>) {
    FirstKey(entry).None? || FirstKey(entry).value !in already
  }

  function FreshOnes(entries: seq<string>, already: set<string>): seq<string> {
    if entries == [] then []
    else (if Fresh(entries[0], already) then [entries[0]] else []) + FreshOnes(entries[1..], already)
  }

  function BlockHeading(title: string, count: nat, stamp: string): string {
    "## Archived " + stamp + " — " + title + " (" + Words.NatText(count) + " entries)\n"
  }

  function ArchiveBlock(title: string, entries: seq<string>, already: set<string>, stamp: string): string {
    var found := FreshOnes(entries, already);
    if found == [] then ""
    else "\n" + BlockHeading(title, |found|, stamp) + "\n" + Flatten(Map(Ended, found))
  }

  const ARCHIVE_NOTE :=
    "Older entries moved out of `memory.md` by `raios memory-archive` so agents read a " +
    "smaller file. Nothing here was deleted or edited; entries keep their original text. " +
    "Search this file when `memory.md` does not have what you need."

  function ArchiveHeader(name: string): string {
    "# Memory Archive: " + name + "\n\n" + ARCHIVE_NOTE + "\n"
  }

  /** What a run appends to the archive. */
  function Addition(archive: string, plan: Plan, name: string, stamp: string): string {
    var already := Already(archive);
    (if archive == "" then ArchiveHeader(name) else "")
    + ArchiveBlock("Change Log", plan.changeLog, already, stamp)
    + ArchiveBlock("Instincts", plan.instincts, already, stamp)
  }

  /** The loop of `archive_block`. */
  method ArchiveBlockLoop(title: string, entries: seq<string>, already: set<string>, stamp: string)
    returns (block: string)
    ensures block == ArchiveBlock(title, entries, already, stamp)
  {
    hide Fresh, Flatten, BlockHeading;
    var found := FreshOnes(entries, already);
    if found == [] {
      return "";
    }
    block := "\n" + BlockHeading(title, |found|, stamp) + "\n";
    ghost var start := block;
    NothingEnded(found[..0]);
    for i := 0 to |found|
      invariant block == start + Flatten(Map(Ended, found[..i]))
    {
      MapFlattenSnoc(found[..i], found[i]);
      assert found[..i + 1] == found[..i] + [found[i]];
      block := block + found[i];
      if !Terminated(found[i]) {
        block := block + "\n";
      }
    }
    assert found[..|found|] == found;
  }

  lemma MapFlattenSnoc(a: seq<string>, e: string)
    ensures Flatten(Map(Ended, a + [e])) == Flatten(Map(Ended, a)) + Ended(e)
  {
    hide Ended;
    MapAppend(Ended, a, [e]);
    assert Map(Ended, [e]) == [Ended(e)];
    FlattenAppend(Map(Ended, a), [Ended(e)]);
    FlattenOne(Ended(e));
  }

  lemma NothingEnded(a: seq<string>)
    requires a == []
    ensures Flatten(Map(Ended, a)) == ""
  {
  }

  // ----- the archive as lines -----

  /** The lines of a text, the last one completed. */
  function FullLines(text: string): seq<string> {
    Complete(SplitInclusive(text))
  }

  lemma FullLinesWellFormed(text: string)
    ensures WellFormed(FullLines(text)) && HasNone(Unterminated, FullLines(text))
    ensures Terminated(text) ==> FullLines(text) == SplitInclusive(text)
    ensures text == "" <==> FullLines(text) == []
  {
    hide SplitInclusive, WellFormed, Complete;
    SplitIsWellFormed(text);
    if text == "" {
      assert Complete([]) == [] by { EmptyComplete(); }
    } else {
      TerminatedText(text);
      CompleteWellFormed(SplitInclusive(text));
      CompleteLength(SplitInclusive(text));
    }
  }

  lemma EmptyComplete()
    ensures Complete([]) == [] && HasNone(Unterminated, []) && WellFormed([])
  {
  }

  lemma CompleteLength(ls: seq<string>)
    ensures |Complete(ls)| == |ls|
  {
  }

  lemma StripEolPrefix(l: string) returns (n: nat)
    ensures n <= |l| && StripEol(l) == l[..n] && AllSpace(l[n..])
  {
    n := |StripEol(l)|;
  }

  lemma TrimEolSame(l: string)
    ensures TrimEnd(StripEol(l)) == TrimEnd(l)
    ensures TrimEnd(EnsureFinalNewline(l, true)) == TrimEnd(l)
  {
    hide TrimEnd, StripEol, IsSpace;
    var n := StripEolPrefix(l);
    TrimShorter(l, n);
    BreakIsSpace();
    assert (l + "\n")[|l|..] == "\n" && (l + "\n")[..|l|] == l;
    TrimShorter(l + "\n", |l|);
  }

  lemma BreakIsSpace()
    ensures AllSpace("\n")
  {
  }

  /** Cutting off blank space leaves the trimmed text alone. */
  lemma TrimShorter(l: string, n: nat)
    requires n <= |l| && AllSpace(l[n..])
    ensures TrimEnd(l[..n]) == TrimEnd(l)
  {
    hide *;
    TrimEndParts(l[..n]);
    var c := TrimEnd(l[..n]);
    var x, y := l[..n][|c|..], l[n..];
    SpaceAppend(x, y);
    TrimEndUnique(c, x + y);
    assert c + x == l[..n];
    assert l[..n] + y == l;
    assert c + (x + y) == c + x + y;
  }

  lemma SpaceAppend(x: string, y: string)
    requires AllSpace(x) && AllSpace(y)
    ensures AllSpace(x + y)
  {
    hide IsSpace;
  }

  /** A key is already in the archive just when one of its full lines has it. */
  lemma AlreadyLine(archive: string, key: string)
    ensures key in Already(archive)
       <==> exists i :: 0 <= i < |FullLines(archive)| && TrimEnd(FullLines(archive)[i]) == key
  {
    hide SplitInclusive, TrimEnd, StripEol, EnsureFinalNewline;
    var ls, full := SplitInclusive(archive), FullLines(archive);
    forall i | 0 <= i < |ls|
      ensures TrimEnd(Lines(archive)[i]) == TrimEnd(full[i])
    {
      TrimEolSame(ls[i]);
    }
    if key in Already(archive) {
      var l :| l in Lines(archive) && TrimEnd(l) == key;
      var i :| 0 <= i < |ls| && Lines(archive)[i] == l;
      assert TrimEnd(full[i]) == key;
    }
    if i :| 0 <= i < |full| && TrimEnd(full[i]) == key {
      assert Lines(archive)[i] in Lines(archive);
    }
  }

  // ----- moved entries as lines -----

  /** What every moved entry is: lines of a section body starting at a bullet. */
  predicate MovedEntry(e: seq<string>) {
    IsEntry(e) && WellFormed(e) && NoHeading(e)
  }

  predicate AllMovedEntries(es: seq<seq<string>>) {
    forall i :: 0 <= i < |es| ==> MovedEntry(es[i])
  }

  function Key(e: seq<string>): string {
    TrimEnd(FirstLine(e))
  }

  function FreshEntries(es: seq<seq<string>>, already: set<string>): (r: seq<seq<string>>)
    ensures forall e :: e in r ==> e in es && Key(e) !in already
    ensures forall e :: e in es && Key(e) !in already ==> e in r
  {
    if es == [] then []
    else
      assert es == [es[0]] + es[1..];
      (if Key(es[0]) !in already then [es[0]] else []) + FreshEntries(es[1..], already)
  }

  lemma FirstKeyOf(e: seq<string>)
    requires MovedEntry(e)
    ensures FirstKey(Flatten(e)) == Some(Key(e))
  {
    hide SplitInclusive, StripEol, TrimEnd, Flatten, NoHeading;
    FlattenThenSplit(e);
    TrimEolSame(e[0]);
  }

  lemma {:induction false} FreshOnesOf(es: seq<seq<string>>, already: set<string>)
    requires AllMovedEntries(es)
    ensures FreshOnes(Map(Flatten, es), already) == Map(Flatten, FreshEntries(es, already))
  {
    hide MovedEntry, Flatten, FirstKey, Key;
    if es != [] {
      FirstKeyOf(es[0]);
      FreshOnesOf(es[1..], already);
      assert Map(Flatten, es)[1..] == Map(Flatten, es[1..]);
    }
  }

  function BlockLines(title: string, es: seq<seq<string>>, stamp: string): seq<string> {
    if es == [] then []
    else ["\n"] + [BlockHeading(title, |es|, stamp)] + ["\n"] + Flatten(Map(Complete, es))
  }

  lemma EndedEntry(e: seq<string>)
    requires MovedEntry(e)
    ensures Ended(Flatten(e)) == Flatten(Complete(e))
  {
    hide Flatten;
    assert IsLine(e[|e| - 1]);
    CompleteText(e);
    FlattenLast(e);
  }

  lemma {:induction false} EndedEntries(es: seq<seq<string>>)
    requires AllMovedEntries(es)
    ensures Flatten(Map(Ended, Map(Flatten, es))) == Flatten(Flatten(Map(Complete, es)))
  {
    if es != [] {
      hide Ended, MovedEntry, Complete;
      EndedEntry(es[0]);
      EndedEntries(es[1..]);
      assert Map(Ended, Map(Flatten, es))[1..] == Map(Ended, Map(Flatten, es[1..]));
      assert Map(Complete, es)[1..] == Map(Complete, es[1..]);
      var x, xs := Complete(es[0]), Flatten(Map(Complete, es[1..]));
      assert Flatten(Map(Complete, es)) == x + xs;
      FlattenAppend(x, xs);
    }
  }

  lemma BlockText(title: string, es: seq<seq<string>>, already: set<string>, stamp: string)
    requires AllMovedEntries(es)
    ensures ArchiveBlock(title, Map(Flatten, es), already, stamp)
         == Flatten(BlockLines(title, FreshEntries(es, already), stamp))
  {
    hide Flatten, MovedEntry, FreshEntries, FreshOnes, Ended, Complete, BlockHeading;
    var found := FreshEntries(es, already);
    FreshOnesOf(es, already);
    if found == [] {
      FlattenNothing([]);
      assert BlockLines(title, found, stamp) == [];
    } else {
      forall i | 0 <= i < |found|
        ensures MovedEntry(found[i])
      {
        assert found[i] in es;
      }
      EndedEntries(found);
      var h := BlockHeading(title, |found|, stamp);
      FlattenAppend(["\n"] + [h] + ["\n"], Flatten(Map(Complete, found)));
      FlattenThree(["\n"], [h], ["\n"]);
      FlattenOne("\n");
      FlattenOne(h);
    }
  }

  /** The lines a run adds: a header to a new archive, then a block for each log. */
  function AdditionLines(archive: string, log: seq<seq<string>>, instincts: seq<seq<string>>, name: string, stamp: string): seq<string> {
    var already := Already(archive);
    (if archive == "" then SplitInclusive(ArchiveHeader(name)) else [])
    + BlockLines("Change Log", FreshEntries(log, already), stamp)
    + BlockLines("Instincts", FreshEntries(instincts, already), stamp)
  }

  lemma AdditionText(archive: string, log: seq<seq<string>>, instincts: seq<seq<string>>, plan: Plan, name: string, stamp: string)
    requires AllMovedEntries(log) && AllMovedEntries(instincts)
    requires plan.changeLog == Map(Flatten, log) && plan.instincts == Map(Flatten, instincts)
    ensures Addition(archive, plan, name, stamp) == Flatten(AdditionLines(archive, log, instincts, name, stamp))
  {
    hide Flatten, MovedEntry, FreshEntries, ArchiveBlock, Already, ArchiveHeader, SplitInclusive, BlockLines, Map;
    var already := Already(archive);
    BlockText("Change Log", log, already, stamp);
    BlockText("Instincts", instincts, already, stamp);
    SplitThenFlatten(ArchiveHeader(name));
    FlattenNothing([]);
    FlattenThree(if archive == "" then SplitInclusive(ArchiveHeader(name)) else [],
                 BlockLines("Change Log", FreshEntries(log, already), stamp),
                 BlockLines("Instincts", FreshEntries(instincts, already), stamp));
  }

  lemma HeadingLine(title: string, count: nat, stamp: string)
    requires NoNewline(title) && NoNewline(stamp)
    ensures IsLine(BlockHeading(title, count, stamp)) && Terminated(BlockHeading(title, count, stamp))
    ensures IsHeading(BlockHeading(title, count, stamp)) && !IsBullet(BlockHeading(title, count, stamp))
  {
    Words.NatTextIsWord(count);
    Words.WordHasNoNewline(Words.NatText(count));
    HeadingChars(BlockHeading(title, count, stamp));
    BulletChars(BlockHeading(title, count, stamp));
    var h := "## Archived " + stamp + " — " + title + " (" + Words.NatText(count) + " entries)";
    assert BlockHeading(title, count, stamp) == h + "\n";
    assert (h + "\n")[..|h|] == h;
  }

  lemma FullAppend(a: seq<string>, b: seq<string>)
    requires FinishedLines(a) && FinishedLines(b)
    ensures FinishedLines(a + b)
  {
    hide IsLine;
    assert forall i :: 0 <= i < |a| ==> !Unterminated(a[i]);
  }

  lemma FullOne(l: string)
    requires IsLine(l) && Terminated(l)
    ensures FinishedLines([l])
  {
  }

  lemma {:induction false} FullEntries(es: seq<seq<string>>)
    requires AllMovedEntries(es)
    ensures FinishedLines(Flatten(Map(Complete, es)))
  {
    if es != [] {
      hide MovedEntry, Complete, FinishedLines;
      FullEntries(es[1..]);
      assert Map(Complete, es)[1..] == Map(Complete, es[1..]);
      MovedEntryFull(es[0]);
      FullAppend(Complete(es[0]), Flatten(Map(Complete, es[1..])));
    }
  }

  lemma MovedEntryFull(e: seq<string>)
    requires MovedEntry(e)
    ensures FinishedLines(Complete(e))
  {
    hide Complete;
    CompleteWellFormed(e);
    NoneUnfinished(Complete(e));
  }

  lemma NoneUnfinished(ls: seq<string>)
    requires WellFormed(ls) && HasNone(Unterminated, ls)
    ensures FinishedLines(ls)
  {
    hide IsLine;
    assert forall i :: 0 <= i < |ls| ==> !Unterminated(ls[i]);
  }

  lemma BlockIsFull(title: string, es: seq<seq<string>>, stamp: string)
    requires AllMovedEntries(es) && NoNewline(title) && NoNewline(stamp)
    ensures FinishedLines(BlockLines(title, es, stamp))
    ensures var ls := BlockLines(title, es, stamp);
      ls == [] || (|ls| > 2 && ls[0] == "\n" && IsHeading(ls[1]))
  {
    if es != [] {
      hide AllMovedEntries, BlockHeading, FinishedLines, IsHeading;
      var h := BlockHeading(title, |es|, stamp);
      FullEntries(es);
      HeadingLine(title, |es|, stamp);
      FullOne(h);
      FullOne("\n");
      FullAppend(["\n"], [h]);
      FullAppend(["\n"] + [h], ["\n"]);
      FullAppend(["\n"] + [h] + ["\n"], Flatten(Map(Complete, es)));
    } else {
      EmptyComplete();
    }
  }

  lemma HeaderIsFull(name: string)
    ensures Terminated(ArchiveHeader(name)) && FinishedLines(SplitInclusive(ArchiveHeader(name)))
    ensures ArchiveHeader(name) != ""
  {
    HeaderEnds("# Memory Archive: " + name + "\n\n" + ARCHIVE_NOTE);
    hide SplitInclusive, FullLines;
    FullLinesWellFormed(ArchiveHeader(name));
  }

  lemma HeaderEnds(s: string)
    ensures Terminated(s + "\n")
  {
  }

  lemma FoundAreMoved(es: seq<seq<string>>, already: set<string>)
    requires AllMovedEntries(es)
    ensures AllMovedEntries(FreshEntries(es, already))
  {
    hide MovedEntry;
    var found := FreshEntries(es, already);
    forall i | 0 <= i < |found|
      ensures MovedEntry(found[i])
    {
      assert found[i] in es;
    }
  }

  lemma TitlesPlain()
    ensures NoNewline("Change Log") && NoNewline("Instincts")
  {
  }

  lemma AdditionIsFull(archive: string, log: seq<seq<string>>, instincts: seq<seq<string>>, name: string, stamp: string)
    requires AllMovedEntries(log) && AllMovedEntries(instincts) && NoNewline(stamp)
    ensures FinishedLines(AdditionLines(archive, log, instincts, name, stamp))
  {
    hide FinishedLines, FreshEntries, Already, AllMovedEntries, BlockLines, ArchiveHeader, SplitInclusive, NoNewline;
    var already := Already(archive);
    TitlesPlain();
    FoundAreMoved(log, already);
    FoundAreMoved(instincts, already);
    BlockIsFull("Change Log", FreshEntries(log, already), stamp);
    BlockIsFull("Instincts", FreshEntries(instincts, already), stamp);
    HeaderIsFull(name);
    assert FinishedLines([]) by { EmptyIsFull(); }
    var h := if archive == "" then SplitInclusive(ArchiveHeader(name)) else [];
    FullAppend(h, BlockLines("Change Log", FreshEntries(log, already), stamp));
    FullAppend(h + BlockLines("Change Log", FreshEntries(log, already), stamp),
               BlockLines("Instincts", FreshEntries(instincts, already), stamp));
  }

  lemma EmptyIsFull()
    ensures FinishedLines([])
  {
  }

  /** The lines that come behind those the archive had: the first new line end may only finish
      the line the archive stopped in. */
  function Tail(archive: string, added: seq<string>): seq<string> {
    if archive != "" && !Terminated(archive) && added != [] then added[1..] else added
  }

  lemma FullIsComplete(ls: seq<string>)
    requires FinishedLines(ls)
    ensures Complete(ls) == ls && (ls != [] ==> SplitInclusive(Flatten(ls)) == ls)
    ensures FullLines(Flatten(ls)) == ls
  {
    hide Flatten, SplitInclusive;
    FlattenThenSplit(ls);
    if ls != [] {
      assert !Unterminated(ls[|ls| - 1]);
      NewlineNotAdded(ls[|ls| - 1], true);
    }
  }

  lemma UnfinishedText(archive: string)
    requires archive != "" && !Terminated(archive)
    ensures archive + "\n" == Flatten(FullLines(archive))
  {
    hide SplitInclusive, Flatten, Complete;
    SplitThenFlatten(archive);
    SplitIsWellFormed(archive);
    CompleteLines(SplitInclusive(archive));
  }

  lemma AppendToWhole(archive: string, added: seq<string>)
    requires FinishedLines(added) && Terminated(archive)
    ensures FullLines(archive + Flatten(added)) == FullLines(archive) + added
  {
    hide *;
    FullLinesFull(archive);
    FullAppend(FullLines(archive), added);
    FlattenAppend(FullLines(archive), added);
    FullText(archive);
    FullIsComplete(FullLines(archive) + added);
  }

  lemma AppendToUnfinished(archive: string, added: seq<string>)
    requires FinishedLines(added) && archive != "" && !Terminated(archive) && added != [] && added[0] == "\n"
    ensures FullLines(archive + Flatten(added)) == FullLines(archive) + added[1..]
  {
    hide *;
    var rest := added[1..];
    FullLinesFull(archive);
    FullTail(added);
    FlattenAppend(["\n"], rest);
    FlattenOne("\n");
    assert ["\n"] + rest == added;
    UnfinishedText(archive);
    FlattenAppend(FullLines(archive), rest);
    FullAppend(FullLines(archive), rest);
    FullIsComplete(FullLines(archive) + rest);
    assert archive + ("\n" + Flatten(rest)) == archive + "\n" + Flatten(rest);
  }

  /** Appending to the archive keeps its lines and puts the new ones behind them. */
  lemma FullLinesAppend(archive: string, added: seq<string>)
    requires FinishedLines(added) && (archive != "" && added != [] ==> added[0] == "\n")
    ensures FullLines(archive + Flatten(added)) == FullLines(archive) + Tail(archive, added)
  {
    hide FinishedLines, FullLines, Flatten;
    if added == [] {
      FlattenNothing(added);
      assert archive + Flatten(added) == archive;
    } else if archive == "" {
      FullLinesWellFormed(archive);
      FullIsComplete(added);
      assert archive + Flatten(added) == Flatten(added);
    } else if Terminated(archive) {
      AppendToWhole(archive, added);
    } else {
      AppendToUnfinished(archive, added);
    }
  }

  lemma FullLinesFull(text: string)
    ensures FinishedLines(FullLines(text))
  {
    hide FullLines;
    FullLinesWellFormed(text);
  }

  lemma FullText(text: string)
    requires Terminated(text)
    ensures Flatten(FullLines(text)) == text
  {
    hide SplitInclusive, Flatten, FullLines;
    FullLinesWellFormed(text);
    SplitThenFlatten(text);
  }

  lemma FullTail(ls: seq<string>)
    requires FinishedLines(ls) && ls != []
    ensures FinishedLines(ls[1..])
  {
    hide IsLine;
    assert forall i :: 0 <= i < |ls| ==> !Unterminated(ls[i]);
  }

  // ----- an entry held by the archive -----

  /** An entry as the archive keeps it: without blank lines at its end, the last line complete. */
  function Archival(e: seq<string>): seq<string> {
    Complete(e[..ContentEnd(e)])
  }

  predicate BlockAt(ls: seq<string>, i: nat, b: seq<string>) {
    i + |b| <= |ls| && ls[i..i + |b|] == b
  }

  ghost predicate HasBlock(ls: seq<string>, b: seq<string>) {
    exists i: nat :: BlockAt(ls, i, b)
  }

  /** The archive has all lines of the entry, one after the other. */
  ghost predicate Held(archive: string, e: seq<string>) {
    HasBlock(FullLines(archive), Archival(e))
  }

  lemma BlockInside(a: seq<string>, x: seq<string>, c: seq<string>, b: seq<string>)
    requires HasBlock(x, b)
    ensures HasBlock(a + x + c, b)
  {
    var i: nat :| BlockAt(x, i, b);
    var w := a + x + c;
    assert w[|a| + i..|a| + i + |b|] == x[i..i + |b|];
    assert BlockAt(w, |a| + i, b);
  }

  lemma BlockHere(a: seq<string>, b: seq<string>, c: seq<string>)
    ensures HasBlock(a + b + c, b)
  {
    assert BlockAt(a + b + c, |a|, b);
  }

  lemma ArchivalOf(e: seq<string>)
    requires MovedEntry(e)
    ensures Archival(e) <= Complete(e) && Archival(e) != []
    ensures TrimEnd(Archival(e)[0]) == Key(e) && IsBullet(Archival(e)[0]) && NoHeading(Archival(e))
    ensures !Blank(Archival(e)[|Archival(e)| - 1])
  {
    var n := ContentEnd(e);
    var a := e[..n];
    hide ContentEnd, TrimEnd, Blank, IsHeading, IsBullet;
    EntrySolidPart(e);
    TrimEolSame(a[0]);
    TrimEolSame(a[n - 1]);
    assert a[0] == e[0] && IsBullet(a[0]);
    CompleteLast(e, n);
    PrefixWellFormed(e, n);
    assert NoHeading(a);
    CompleteNoHeading(a);
    CompleteEntryStart(a);
    BlankByTrim(a[n - 1]);
    BlankByTrim(Archival(e)[n - 1]);
  }

  lemma PrefixWellFormed(e: seq<string>, n: nat)
    requires WellFormed(e) && n <= |e|
    ensures WellFormed(e[..n])
  {
  }

  lemma CompleteEntryStart(a: seq<string>)
    requires IsEntry(a) && WellFormed(a)
    ensures IsBullet(Complete(a)[0])
    ensures Complete(a)[0] == a[0] || Complete(a)[0] == EnsureFinalNewline(a[0], true)
    ensures Complete(a)[|a| - 1] == EnsureFinalNewline(a[|a| - 1], true)
  {
    hide EnsureFinalNewline, IsLine;
    CompletedEntry(a);
  }

  lemma CompleteLast(e: seq<string>, n: nat)
    requires WellFormed(e) && 0 < n <= |e|
    ensures Complete(e[..n]) <= Complete(e)
  {
    hide IsLine;
    if n < |e| {
      assert Terminated(e[n - 1]);
      NewlineNotAdded(e[n - 1], true);
      assert Complete(e[..n]) == e[..n];
    } else {
      assert e[..n] == e;
    }
  }

  lemma BlankByTrim(l: string)
    ensures Blank(l) <==> TrimEnd(l) == ""
  {
    TrimEndParts(l);
    if TrimEnd(l) != "" {
      NotBlank(l, |TrimEnd(l)| - 1);
    }
  }

  lemma MovedEntryAt(es: seq<seq<string>>, i: nat)
    requires AllMovedEntries(es) && i < |es|
    ensures MovedEntry(es[i])
  {
  }

  lemma FreshInFlatten(es: seq<seq<string>>, i: nat)
    requires AllMovedEntries(es) && i < |es|
    ensures HasBlock(Flatten(Map(Complete, es)), Archival(es[i]))
  {
    hide *;
    var m, a := Map(Complete, es), Archival(es[i]);
    MovedEntryAt(es, i);
    ArchivalOf(es[i]);
    assert m == m[..i] + [m[i]] + m[i + 1..];
    FlattenThree(m[..i], [m[i]], m[i + 1..]);
    FlattenOne(m[i]);
    BlockHere([], a, m[i][|a|..]);
    assert [] + a + m[i][|a|..] == m[i];
    BlockInside(Flatten(m[..i]), m[i], Flatten(m[i + 1..]), a);
  }

  /** A fresh entry is in its block. */
  lemma FreshInBlock(title: string, es: seq<seq<string>>, stamp: string, e: seq<string>)
    requires AllMovedEntries(es) && e in es
    ensures BlockLines(title, es, stamp) != [] && HasBlock(BlockLines(title, es, stamp)[1..], Archival(e))
  {
    hide AllMovedEntries, Archival, Complete, BlockHeading, Flatten, HasBlock, Map;
    var i :| 0 <= i < |es| && es[i] == e;
    FreshInFlatten(es, i);
    var h, f := BlockHeading(title, |es|, stamp), Flatten(Map(Complete, es));
    BlockInside([h] + ["\n"], f, [], Archival(e));
    assert BlockLines(title, es, stamp)[1..] == [h] + ["\n"] + f + [];
  }

  // ----- exactly which moved entries the archive holds afterwards -----

  /** Every bullet among the lines is the first line of one of the keys. */
  predicate BulletsHaveKeys(ls: seq<string>, keys: set<string>) {
    forall i :: 0 <= i < |ls| && IsBullet(ls[i]) ==> TrimEnd(ls[i]) in keys
  }

  lemma KeysAppend(a: seq<string>, b: seq<string>, keys: set<string>)
    requires BulletsHaveKeys(a, keys) && BulletsHaveKeys(b, keys)
    ensures BulletsHaveKeys(a + b, keys)
  {
    hide IsBullet, TrimEnd;
  }

  lemma KeysNoBullet(a: seq<string>, keys: set<string>)
    requires NoBullet(a)
    ensures BulletsHaveKeys(a, keys)
  {
    hide IsBullet, TrimEnd;
  }

  lemma KeysOfEntry(e: seq<string>, keys: set<string>)
    requires MovedEntry(e) && Key(e) in keys
    ensures BulletsHaveKeys(Complete(e), keys)
  {
    hide TrimEnd, IsBullet, IsLine, EnsureFinalNewline, IsHeading;
    CompletedEntry(e);
    TrimEolSame(e[0]);
    var c := Complete(e);
    assert c[0] == e[0] || c[0] == EnsureFinalNewline(e[0], true);
    KeysNoBullet(c[1..], keys);
    KeysAppend([c[0]], c[1..], keys);
    assert c == [c[0]] + c[1..];
  }

  lemma {:induction false} KeysOfEntries(es: seq<seq<string>>, keys: set<string>)
    requires AllMovedEntries(es) && forall i :: 0 <= i < |es| ==> Key(es[i]) in keys
    ensures BulletsHaveKeys(Flatten(Map(Complete, es)), keys)
  {
    if es != [] {
      hide MovedEntry, Complete, BulletsHaveKeys, Key;
      KeysOfEntries(es[1..], keys);
      assert Map(Complete, es)[1..] == Map(Complete, es[1..]);
      KeysOfEntry(es[0], keys);
      KeysAppend(Complete(es[0]), Flatten(Map(Complete, es[1..])), keys);
    } else {
      KeysNoBullet([], keys);
    }
  }

  lemma KeysOfBlock(title: string, es: seq<seq<string>>, stamp: string, keys: set<string>)
    requires AllMovedEntries(es) && NoNewline(title) && NoNewline(stamp)
    requires forall i :: 0 <= i < |es| ==> Key(es[i]) in keys
    ensures BulletsHaveKeys(BlockLines(title, es, stamp), keys)
  {
    hide MovedEntry, Complete, BulletsHaveKeys, Key, BlockHeading, IsBullet;
    var h := BlockHeading(title, |es|, stamp);
    HeadingLine(title, |es|, stamp);
    BulletChars("\n");
    KeysNoBullet([], keys);
    KeysNoBullet(["\n"] + [h] + ["\n"], keys);
    KeysOfEntries(es, keys);
    KeysAppend(["\n"] + [h] + ["\n"], Flatten(Map(Complete, es)), keys);
  }

  function KeysOf(es: seq<seq<string>>): set<string> {
    set e | e in es :: Key(e)
  }

  /** The keys of the entries a run appends. */
  function FreshKeys(archive: string, log: seq<seq<string>>, instincts: seq<seq<string>>): set<string> {
    KeysOf(FreshEntries(log, Already(archive))) + KeysOf(FreshEntries(instincts, Already(archive)))
  }

  lemma FreshKeysNew(archive: string, log: seq<seq<string>>, instincts: seq<seq<string>>, key: string)
    requires key in FreshKeys(archive, log, instincts)
    ensures key !in Already(archive)
  {
    hide Already, Key;
  }

  lemma KeysOfAddition(archive: string, log: seq<seq<string>>, instincts: seq<seq<string>>, name: string, stamp: string)
    requires AllMovedEntries(log) && AllMovedEntries(instincts) && NoNewline(stamp)
    requires archive == "" ==> NoBullet(SplitInclusive(ArchiveHeader(name)))
    ensures BulletsHaveKeys(AdditionLines(archive, log, instincts, name, stamp), FreshKeys(archive, log, instincts))
  {
    hide MovedEntry, FreshEntries, Already, BlockLines, ArchiveHeader, SplitInclusive, NoNewline, BulletsHaveKeys,
         AllMovedEntries, NoBullet, Key;
    var already, keys := Already(archive), FreshKeys(archive, log, instincts);
    TitlesPlain();
    FoundAreMoved(log, already);
    FoundAreMoved(instincts, already);
    var a, b := FreshEntries(log, already), FreshEntries(instincts, already);
    forall i | 0 <= i < |a|
      ensures Key(a[i]) in keys
    {
      assert a[i] in a;
    }
    forall i | 0 <= i < |b|
      ensures Key(b[i]) in keys
    {
      assert b[i] in b;
    }
    KeysOfBlock("Change Log", a, stamp, keys);
    KeysOfBlock("Instincts", b, stamp, keys);
    var h := if archive == "" then SplitInclusive(ArchiveHeader(name)) else [];
    NothingNoBullet();
    KeysNoBullet(h, keys);
    KeysAppend(h, BlockLines("Change Log", a, stamp), keys);
    KeysAppend(h + BlockLines("Change Log", a, stamp), BlockLines("Instincts", b, stamp), keys);
  }

  lemma NothingNoBullet()
    ensures NoBullet([])
  {
  }

  /** Lines that open with a heading, or with a blank line and then a heading. */
  predicate OpensWithHeading(ls: seq<string>) {
    ls == [] || IsHeading(ls[0]) || (|ls| > 1 && Blank(ls[0]) && IsHeading(ls[1]))
  }

  /** A block that has no heading and ends solid, in lines behind which others open with a
      heading, is in the first lines or starts in the others. */
  lemma BlockDoesNotSpan(a: seq<string>, t: seq<string>, b: seq<string>, i: nat)
    requires BlockAt(a + t, i, b) && b != [] && NoHeading(b) && !Blank(b[|b| - 1])
    requires OpensWithHeading(t)
    ensures BlockAt(a, i, b) || (|a| <= i < |a + t| && (a + t)[i] == t[i - |a|])
  {
    hide Blank, IsHeading;
    if i < |a| < i + |b| {
      BlockElements(a, t, b, i);
    } else if i + |b| <= |a| {
      assert a[i..i + |b|] == (a + t)[i..i + |b|];
    }
  }

  lemma BlockElements(a: seq<string>, t: seq<string>, b: seq<string>, i: nat)
    requires BlockAt(a + t, i, b) && i < |a| < i + |b|
    ensures |t| >= i + |b| - |a|
    ensures forall j :: 0 <= j < i + |b| - |a| ==> t[j] == b[|a| - i + j]
  {
    forall j | 0 <= j < i + |b| - |a|
      ensures t[j] == b[|a| - i + j]
    {
      assert (a + t)[i..i + |b|][|a| - i + j] == (a + t)[|a| + j];
    }
  }

  lemma AdditionOpens(archive: string, log: seq<seq<string>>, instincts: seq<seq<string>>, name: string, stamp: string)
    requires AllMovedEntries(log) && AllMovedEntries(instincts) && NoNewline(stamp) && archive != ""
    ensures var added := AdditionLines(archive, log, instincts, name, stamp);
      (added != [] ==> added[0] == "\n") && OpensWithHeading(added) && OpensWithHeading(Tail(archive, added))
  {
    hide FreshEntries, Already, AllMovedEntries, BlockLines, ArchiveHeader, SplitInclusive, NoNewline, IsHeading, Blank,
         FinishedLines;
    var already := Already(archive);
    TitlesPlain();
    FoundAreMoved(log, already);
    FoundAreMoved(instincts, already);
    BlockIsFull("Change Log", FreshEntries(log, already), stamp);
    BlockIsFull("Instincts", FreshEntries(instincts, already), stamp);
    BlankLineEnd();
  }

  lemma BlankLineEnd()
    ensures Blank("\n")
  {
    BlankIsAllSpace("\n");
  }

  lemma AppendedLines(archive: string, log: seq<seq<string>>, instincts: seq<seq<string>>, plan: Plan, name: string, stamp: string)
    requires AllMovedEntries(log) && AllMovedEntries(instincts) && NoNewline(stamp)
    requires plan.changeLog == Map(Flatten, log) && plan.instincts == Map(Flatten, instincts)
    ensures FullLines(archive + Addition(archive, plan, name, stamp))
         == FullLines(archive) + Tail(archive, AdditionLines(archive, log, instincts, name, stamp))
  {
    hide *;
    AdditionText(archive, log, instincts, plan, name, stamp);
    AdditionIsFull(archive, log, instincts, name, stamp);
    if archive != "" {
      AdditionOpens(archive, log, instincts, name, stamp);
    }
    FullLinesAppend(archive, AdditionLines(archive, log, instincts, name, stamp));
  }

  lemma HeldStays(archive: string, more: string, extra: seq<string>, e: seq<string>)
    requires FullLines(archive + more) == FullLines(archive) + extra && Held(archive, e)
    ensures Held(archive + more, e)
  {
    hide HasBlock, FullLines, Archival;
    BlockInside([], FullLines(archive), extra, Archival(e));
    assert [] + FullLines(archive) + extra == FullLines(archive) + extra;
  }

  lemma FreshInAddition(archive: string, log: seq<seq<string>>, instincts: seq<seq<string>>, name: string, stamp: string, e: seq<string>)
    requires AllMovedEntries(log) && AllMovedEntries(instincts) && NoNewline(stamp)
    requires (e in log || e in instincts) && Key(e) !in Already(archive)
    ensures HasBlock(Tail(archive, AdditionLines(archive, log, instincts, name, stamp)), Archival(e))
  {
    hide FreshEntries, Already, AllMovedEntries, BlockLines, ArchiveHeader, SplitInclusive, NoNewline, HasBlock, Archival, Key;
    var already := Already(archive);
    FoundAreMoved(log, already);
    FoundAreMoved(instincts, already);
    var h := if archive == "" then SplitInclusive(ArchiveHeader(name)) else [];
    var x := BlockLines("Change Log", FreshEntries(log, already), stamp);
    var y := BlockLines("Instincts", FreshEntries(instincts, already), stamp);
    var b := Archival(e);
    if e in log {
      FreshInBlock("Change Log", FreshEntries(log, already), stamp, e);
      InLongerTail(archive, h, x, y, b);
    } else {
      FreshInBlock("Instincts", FreshEntries(instincts, already), stamp, e);
      InLongerTail(archive, h + x, y, [], b);
      assert h + x + y + [] == h + x + y;
    }
  }

  lemma InLongerTail(archive: string, h: seq<string>, x: seq<string>, y: seq<string>, b: seq<string>)
    requires x != [] && HasBlock(x[1..], b)
    ensures HasBlock(Tail(archive, h + x + y), b)
  {
    hide HasBlock;
    var whole := h + x + y;
    var head := h + [x[0]];
    assert whole == head + x[1..] + y;
    assert whole[1..] == head[1..] + x[1..] + y;
    BlockInside(head, x[1..], y, b);
    BlockInside(head[1..], x[1..], y, b);
  }

  lemma HeldAfterAppend(archive: string, log: seq<seq<string>>, instincts: seq<seq<string>>, plan: Plan, name: string, stamp: string, e: seq<string>)
    requires AllMovedEntries(log) && AllMovedEntries(instincts) && NoNewline(stamp)
    requires plan.changeLog == Map(Flatten, log) && plan.instincts == Map(Flatten, instincts)
    requires e in log || e in instincts
    requires Key(e) !in Already(archive) || Held(archive, e)
    ensures Held(archive + Addition(archive, plan, name, stamp), e)
  {
    hide *;
    var added := AdditionLines(archive, log, instincts, name, stamp);
    var more, t := Addition(archive, plan, name, stamp), Tail(archive, added);
    AppendedLines(archive, log, instincts, plan, name, stamp);
    if Held(archive, e) {
      HeldStays(archive, more, t, e);
    } else {
      FreshInAddition(archive, log, instincts, name, stamp, e);
      BlockInside(FullLines(archive), t, [], Archival(e));
      assert FullLines(archive) + t + [] == FullLines(archive) + t;
      HeldIs(archive + more, e);
    }
  }

  /** After the append the archive has a moved entry just when the entry's first line was new
      to it, or the whole entry was already there. */
  lemma HeldExactly(archive: string, log: seq<seq<string>>, instincts: seq<seq<string>>, plan: Plan, name: string, stamp: string, e: seq<string>)
    requires AllMovedEntries(log) && AllMovedEntries(instincts) && NoNewline(stamp)
    requires plan.changeLog == Map(Flatten, log) && plan.instincts == Map(Flatten, instincts)
    requires archive == "" ==> NoBullet(SplitInclusive(ArchiveHeader(name)))
    requires e in log || e in instincts
    ensures Held(archive + Addition(archive, plan, name, stamp), e)
       <==> Key(e) !in Already(archive) || Held(archive, e)
  {
    hide *;
    if Key(e) !in Already(archive) || Held(archive, e) {
      HeldAfterAppend(archive, log, instincts, plan, name, stamp, e);
    } else if Held(archive + Addition(archive, plan, name, stamp), e) {
      AppendedLines(archive, log, instincts, plan, name, stamp);
      NotHeldAfter(archive, log, instincts, name, stamp, e, Addition(archive, plan, name, stamp));
    }
  }

  lemma HeldIs(archive: string, e: seq<string>)
    ensures Held(archive, e) <==> HasBlock(FullLines(archive), Archival(e))
  {
  }

  lemma NotHeldAfter(archive: string, log: seq<seq<string>>, instincts: seq<seq<string>>, name: string, stamp: string, e: seq<string>, more: string)
    requires AllMovedEntries(log) && AllMovedEntries(instincts) && NoNewline(stamp) && (e in log || e in instincts)
    requires archive == "" ==> NoBullet(SplitInclusive(ArchiveHeader(name)))
    requires FullLines(archive + more)
          == FullLines(archive) + Tail(archive, AdditionLines(archive, log, instincts, name, stamp))
    requires Held(archive + more, e)
    ensures Held(archive, e) || Key(e) !in Already(archive)
  {
    hide FullLines, Tail, AdditionLines, Archival, AllMovedEntries, NoBullet, Already, Key, MovedEntry, FreshKeys,
         OpensWithHeading, BulletsHaveKeys, IsBullet, TrimEnd, Blank, NoHeading, ArchiveHeader, SplitInclusive, NoNewline;
    MovedEntryIn(log, instincts, e);
    ArchivalOf(e);
    var a, t, b := FullLines(archive), Tail(archive, AdditionLines(archive, log, instincts, name, stamp)), Archival(e);
    var i: nat :| BlockAt(a + t, i, b);
    TailFacts(archive, log, instincts, name, stamp);
    if archive != "" {
      BlockDoesNotSpan(a, t, b, i);
    } else {
      FullLinesWellFormed(archive);
    }
    if |a| <= i {
      assert b[0] == (a + t)[i..i + |b|][0] == t[i - |a|];
      KeyAt(t, i - |a|, FreshKeys(archive, log, instincts));
      FreshKeysNew(archive, log, instincts, Key(e));
    }
  }

  lemma KeyAt(ls: seq<string>, i: nat, keys: set<string>)
    requires BulletsHaveKeys(ls, keys) && i < |ls| && IsBullet(ls[i])
    ensures TrimEnd(ls[i]) in keys
  {
  }

  lemma MovedEntryIn(log: seq<seq<string>>, instincts: seq<seq<string>>, e: seq<string>)
    requires AllMovedEntries(log) && AllMovedEntries(instincts) && (e in log || e in instincts)
    ensures MovedEntry(e)
  {
    hide MovedEntry;
  }

  lemma TailFacts(archive: string, log: seq<seq<string>>, instincts: seq<seq<string>>, name: string, stamp: string)
    requires AllMovedEntries(log) && AllMovedEntries(instincts) && NoNewline(stamp)
    requires archive == "" ==> NoBullet(SplitInclusive(ArchiveHeader(name)))
    ensures var t := Tail(archive, AdditionLines(archive, log, instincts, name, stamp));
      BulletsHaveKeys(t, FreshKeys(archive, log, instincts)) && (archive != "" ==> OpensWithHeading(t))
  {
    hide AdditionLines, AllMovedEntries, NoBullet, FreshKeys, IsBullet, TrimEnd, OpensWithHeading;
    KeysOfAddition(archive, log, instincts, name, stamp);
    if archive != "" {
      AdditionOpens(archive, log, instincts, name, stamp);
    }
  }

  // ----- the protocol -----

  /** Where an archive run stands: it has read a text and planned, or it has also appended. */
  datatype Phase = Idle | Planned(original: string, policy: Policy) | Appended(original: string, policy: Policy)

  /** `memory.md` (which may be missing), `memory.archive.md`, and the run in progress. */
  datatype State = State(memory: Option<string>, archive: string, phase: Phase)

  datatype Step =
    | Begin(policy: Policy)
    | Append(name: string, stamp: string)
    | Replace
    | Write(text: Option<string>)
    | Crash

  function Selected(original: string, policy: Policy): seq<seq<string>> {
    var ss := ParseDoc(SplitInclusive(original)).sections;
    Moved(ChangeLog, ss, policy) + Moved(Instincts, ss, policy)
  }

  /** The run goes on past the plan: there is something to move and no line would be dropped. */
  predicate GoesOn(original: string, policy: Policy) {
    var p := PlanText(original, policy);
    |p.changeLog| + |p.instincts| > 0 && NothingLost(original, p.newContent, p.changeLog + p.instincts)
  }

  /** One step; a step that is not enabled changes nothing. */
  function After(s: State, step: Step): State {
    match step
    case Begin(policy) =>
      if s.phase == Idle && s.memory.Some? && GoesOn(s.memory.value, policy)
      then s.(phase := Planned(s.memory.value, policy)) else s
    case Append(name, stamp) =>
      if s.phase.Planned?
      then State(s.memory, s.archive + Addition(s.archive, PlanText(s.phase.original, s.phase.policy), name, stamp),
                 Appended(s.phase.original, s.phase.policy))
      else s
    case Replace =>
      if s.phase.Appended?
      then State(if s.memory == Some(s.phase.original)
                 then Some(PlanText(s.phase.original, s.phase.policy).newContent) else s.memory,
                 s.archive, Idle)
      else s
    case Write(text) => s.(memory := text)
    case Crash => s.(phase := Idle)
  }

  function Run(s: State, steps: seq<Step>): State
    decreases |steps|
  {
    if steps == [] then s else Run(After(s, steps[0]), steps[1..])
  }

  lemma {:induction false} MovedAreEntries(kind: Kind, content: string, policy: Policy)
    ensures AllMovedEntries(Moved(kind, ParseDoc(SplitInclusive(content)).sections, policy))
  {
    hide *;
    var lines := SplitInclusive(content);
    var d := ParseDoc(lines);
    var moved := Moved(kind, d.sections, policy);
    ParsedWellFormed(lines);
    SectionsOf(d);
    MovedFromSections(kind, d.sections, policy);
    forall i | 0 <= i < |moved|
      ensures MovedEntry(moved[i])
    {
      MovedEntryInSections(kind, d.sections, policy, i);
      SubseqDropped(d.preface, moved[i], RenderSections(d.sections));
      RenderParsed(lines);
      RenderIs(d);
      SplitIsWellFormed(content);
      SubseqWellFormed(moved[i], lines);
      IsMovedEntry(moved[i]);
    }
    AllMovedIs(moved);
  }

  lemma SectionsOf(d: Doc)
    requires WellFormedDoc(d)
    ensures forall i :: 0 <= i < |d.sections| ==> WellFormedSection(d.sections[i])
  {
    hide WellFormedSection;
  }

  lemma RenderIs(d: Doc)
    ensures Render(d) == d.preface + RenderSections(d.sections)
  {
  }

  lemma IsMovedEntry(e: seq<string>)
    requires IsEntry(e) && WellFormed(e) && NoHeading(e)
    ensures MovedEntry(e)
  {
  }

  lemma AllMovedIs(es: seq<seq<string>>)
    requires forall i :: 0 <= i < |es| ==> MovedEntry(es[i])
    ensures AllMovedEntries(es)
  {
    hide MovedEntry;
  }

  lemma {:induction false} MovedFromSections(kind: Kind, ss: seq<Section>, policy: Policy)
    requires forall i :: 0 <= i < |ss| ==> WellFormedSection(ss[i])
    ensures forall i :: 0 <= i < |Moved(kind, ss, policy)| ==>
              IsEntry(Moved(kind, ss, policy)[i]) && NoHeading(Moved(kind, ss, policy)[i])
  {
    hide MovedOf, IsEntry, NoHeading, WellFormedSection;
    if ss != [] {
      MovedFromSections(kind, ss[1..], policy);
      assert WellFormedSection(ss[0]);
      MovedFromSection(kind, ss[0], policy);
    }
  }

  lemma MovedFromSection(kind: Kind, s: Section, policy: Policy)
    requires WellFormedSection(s)
    ensures forall i :: 0 <= i < |MovedOf(kind, s, policy)| ==>
              IsEntry(MovedOf(kind, s, policy)[i]) && NoHeading(MovedOf(kind, s, policy)[i])
  {
    hide PlanBody, SectionKind, IsEntry, IsHeading;
    if SectionKind(s.heading) == Some(kind) {
      forall i | 0 <= i < |MovedOf(kind, s, policy)|
        ensures IsEntry(MovedOf(kind, s, policy)[i]) && NoHeading(MovedOf(kind, s, policy)[i])
      {
        MovedEntryInBody(kind, s.body, policy, i);
        SubseqHasNone(IsHeading, MovedOf(kind, s, policy)[i], s.body);
        MovedIsEntry(kind, s.body, policy, i);
      }
    }
  }

  lemma MovedIsEntry(kind: Kind, body: seq<string>, policy: Policy, i: nat)
    requires i < |PlanBody(kind, body, policy).moved|
    ensures IsEntry(PlanBody(kind, body, policy).moved[i])
  {
    hide PlanBody, SplitBody, Flatten, IsEntry;
    var b, pre, kept, post := PlanBodySplit(kind, body, policy);
    var j := if i < |pre| then i else i + |kept|;
    assert b.entries[j] == PlanBody(kind, body, policy).moved[i];
    BodyEntries(body, j);
  }

  lemma BodyEntries(body: seq<string>, j: nat)
    requires j < |SplitBody(body).entries|
    ensures IsEntry(SplitBody(body).entries[j])
  {
    hide IsEntry;
    assert WellFormedBody(SplitBody(body));
  }

  lemma PlannedTexts(original: string, policy: Policy) returns (log: seq<seq<string>>, instincts: seq<seq<string>>)
    ensures AllMovedEntries(log) && AllMovedEntries(instincts) && Selected(original, policy) == log + instincts
    ensures PlanText(original, policy).changeLog == Map(Flatten, log)
    ensures PlanText(original, policy).instincts == Map(Flatten, instincts)
  {
    hide Moved, ParseDoc, SplitInclusive, AllMovedEntries, Flatten, Render, PlanDoc, Misfiled;
    var ss := ParseDoc(SplitInclusive(original)).sections;
    log, instincts := Moved(ChangeLog, ss, policy), Moved(Instincts, ss, policy);
    MovedAreEntries(ChangeLog, original, policy);
    MovedAreEntries(Instincts, original, policy);
  }

  // ----- no selected entry is lost -----

  /** Every selected entry is new to the archive by its first line, or there in full. */
  ghost predicate NoneSkipped(archive: string, original: string, policy: Policy) {
    forall e :: e in Selected(original, policy) ==> Key(e) !in Already(archive) || Held(archive, e)
  }

  ghost predicate AllHeld(archive: string, original: string, policy: Policy) {
    forall e :: e in Selected(original, policy) ==> Held(archive, e)
  }

  /** Between append and replace every selected entry is in the archive. */
  ghost predicate Safe(s: State) {
    s.phase.Appended? ==> AllHeld(s.archive, s.phase.original, s.phase.policy)
  }

  /** Whether replacing may lose a selected entry is decided when the archive is read. */
  lemma AppendIsSafeExactly(s: State, name: string, stamp: string)
    requires s.phase.Planned? && NoNewline(stamp)
    requires s.archive == "" ==> NoBullet(SplitInclusive(ArchiveHeader(name)))
    ensures Safe(After(s, Append(name, stamp))) <==> NoneSkipped(s.archive, s.phase.original, s.phase.policy)
  {
    hide PlanText, Addition, Selected, Held, Already, Key, AllMovedEntries, NoNewline, NoBullet, SplitInclusive, ArchiveHeader,
         Map, Flatten;
    var p := PlanText(s.phase.original, s.phase.policy);
    var log, instincts := PlannedTexts(s.phase.original, s.phase.policy);
    forall e | e in Selected(s.phase.original, s.phase.policy)
      ensures Held(s.archive + Addition(s.archive, p, name, stamp), e)
         <==> Key(e) !in Already(s.archive) || Held(s.archive, e)
    {
      HeldExactly(s.archive, log, instincts, p, name, stamp, e);
    }
  }

  /** No selected entry is passed over by the append because only its first line is known; which
      is just what makes the step safe. */
  ghost predicate Admissible(s: State, step: Step) {
    && (step.Append? ==> NoNewline(step.stamp))
    && (step.Append? && s.phase.Planned? ==> NoneSkipped(s.archive, s.phase.original, s.phase.policy))
  }

  ghost predicate AdmissibleRun(s: State, steps: seq<Step>)
    decreases |steps|
  {
    steps == [] || (Admissible(s, steps[0]) && AdmissibleRun(After(s, steps[0]), steps[1..]))
  }

  lemma AppendKeepsSafe(s: State, name: string, stamp: string)
    requires s.phase.Planned? && Admissible(s, Append(name, stamp))
    ensures Safe(After(s, Append(name, stamp)))
  {
    hide PlanText, Addition, Selected, Held, Already, Key, AllMovedEntries, NoNewline, Map, Flatten;
    var p := PlanText(s.phase.original, s.phase.policy);
    var log, instincts := PlannedTexts(s.phase.original, s.phase.policy);
    forall e | e in Selected(s.phase.original, s.phase.policy)
      ensures Held(s.archive + Addition(s.archive, p, name, stamp), e)
    {
      HeldAfterAppend(s.archive, log, instincts, p, name, stamp, e);
    }
  }

  lemma StepKeepsSafe(s: State, step: Step)
    requires Safe(s) && Admissible(s, step)
    ensures Safe(After(s, step))
  {
    hide AllHeld, NoneSkipped, PlanText, Addition, GoesOn;
    if step.Append? && s.phase.Planned? {
      AppendKeepsSafe(s, step.name, step.stamp);
    }
  }

  /** In every run in which no append passes over a selected entry, with any writer and any crash,
      every selected entry is in the archive before `memory.md` is replaced. */
  lemma {:induction false} RunIsSafe(s: State, steps: seq<Step>)
    requires Safe(s) && AdmissibleRun(s, steps)
    ensures Safe(Run(s, steps))
    decreases |steps|
  {
    hide Safe, Admissible, After;
    if steps != [] {
      StepKeepsSafe(s, steps[0]);
      RunIsSafe(After(s, steps[0]), steps[1..]);
    }
  }

  // ----- no line is lost -----

  /** A complete line is in `memory.md` or in the archive. */
  predicate Present(s: State, line: string) {
    (s.memory.Some? && line in FullLines(s.memory.value)) || line in FullLines(s.archive)
  }

  /** The writer, if it is the one that steps, does not delete the line. */
  predicate WriterKeeps(s: State, step: Step, line: string) {
    step.Write? && s.memory.Some? && line in FullLines(s.memory.value) ==>
      step.text.Some? && line in FullLines(step.text.value)
  }

  predicate WriterKeepsInRun(s: State, steps: seq<Step>, line: string)
    decreases |steps|
  {
    steps == [] || (WriterKeeps(s, steps[0], line) && WriterKeepsInRun(After(s, steps[0]), steps[1..], line))
  }

  lemma CompletedMember(ls: seq<string>, l: string)
    requires WellFormed(ls) && l in ls
    ensures EnsureFinalNewline(l, true) in Complete(ls)
  {
    hide IsLine;
    var i :| 0 <= i < |ls| && ls[i] == l;
    if i < |ls| - 1 {
      NewlineNotAdded(l, true);
      assert Complete(ls)[i] == l;
    } else {
      assert Complete(ls)[i] == EnsureFinalNewline(l, true);
    }
  }

  lemma MemberCompleted(ls: seq<string>, c: string) returns (l: string)
    requires WellFormed(ls) && c in Complete(ls)
    ensures l in ls && EnsureFinalNewline(l, true) == c
  {
    hide IsLine;
    var i :| 0 <= i < |Complete(ls)| && Complete(ls)[i] == c;
    l := ls[i];
    if i < |ls| - 1 {
      NewlineNotAdded(l, true);
    }
  }

  lemma {:induction false} InFlatten(es: seq<seq<string>>, l: string) returns (i: nat)
    requires l in Flatten(es)
    ensures i < |es| && l in es[i]
  {
    if l in es[0] {
      i := 0;
    } else {
      var j := InFlatten(es[1..], l);
      i := j + 1;
    }
  }

  /** A line of the original is in the planned text or in a moved entry. */
  lemma LineGoesSomewhere(original: string, policy: Policy, l: string)
    requires l in SplitInclusive(original)
    ensures l in PlannedLines(original, policy) || l in Flatten(Selected(original, policy))
  {
    hide Render, ParseDoc, PlanDoc, SplitInclusive, Flatten, Moved;
    var lines := SplitInclusive(original);
    var d := ParseDoc(lines);
    RenderParsed(lines);
    RenderIs(d);
    RenderIs(PlanDoc(d, policy));
    SectionsConserve(d.sections, policy);
    FlattenAppend(Moved(ChangeLog, d.sections, policy), Moved(Instincts, d.sections, policy));
    PlanDocIs(d, policy);
    assert l in multiset(lines);
  }

  lemma PlanDocIs(d: Doc, policy: Policy)
    ensures PlanDoc(d, policy) == Doc(d.preface, PlanSections(d.sections, policy))
  {
  }

  lemma NonBlankInArchival(e: seq<string>, l: string)
    requires MovedEntry(e) && l in e && !Blank(l)
    ensures EnsureFinalNewline(l, true) in Archival(e)
  {
    hide Blank, ContentEnd, Complete, IsEntry, NoHeading;
    var i :| 0 <= i < |e| && e[i] == l;
    ContentEndAbove(e, i);
    assert e[..ContentEnd(e)][i] == l;
    PrefixWellFormed(e, ContentEnd(e));
    CompletedMember(e[..ContentEnd(e)], l);
  }

  lemma HeldLine(archive: string, e: seq<string>, c: string)
    requires Held(archive, e) && c in Archival(e)
    ensures c in FullLines(archive)
  {
    hide FullLines, Archival;
    var b := Archival(e);
    var i: nat :| BlockAt(FullLines(archive), i, b);
    var j :| 0 <= j < |b| && b[j] == c;
    assert FullLines(archive)[i..i + |b|][j] == FullLines(archive)[i + j];
  }

  lemma BlankCompleted(l: string)
    ensures Blank(EnsureFinalNewline(l, true)) <==> Blank(l)
  {
    hide Blank, EnsureFinalNewline;
    BlankByTrim(l);
    BlankByTrim(EnsureFinalNewline(l, true));
    TrimEolSame(l);
  }

  /** What the new text leaves out of the original is in the archive. */
  lemma ReplaceKeepsLine(archive: string, original: string, policy: Policy, line: string)
    requires AllHeld(archive, original, policy)
    requires line in FullLines(original) && !Blank(line)
    ensures line in FullLines(PlanText(original, policy).newContent) || line in FullLines(archive)
  {
    hide SplitInclusive, Flatten, PlannedLines, PlanText, Selected, Held, Blank, MovedEntry, Complete, Archival,
         AllMovedEntries;
    SplitIsWellFormed(original);
    var l := MemberCompleted(SplitInclusive(original), line);
    LineGoesSomewhere(original, policy, l);
    PlannedLinesKeepOrder(original, policy);
    if l in PlannedLines(original, policy) {
      SplitIsWellFormed(PlanText(original, policy).newContent);
      CompletedMember(SplitInclusive(PlanText(original, policy).newContent), l);
    } else {
      var i := InFlatten(Selected(original, policy), l);
      var e := Selected(original, policy)[i];
      var log, instincts := PlannedTexts(original, policy);
      MovedEntryIn(log, instincts, e);
      BlankCompleted(l);
      NonBlankInArchival(e, l);
      HeldLine(archive, e, line);
    }
  }

  lemma AppendKeepsLines(s: State, name: string, stamp: string, line: string)
    requires s.phase.Planned? && NoNewline(stamp) && line in FullLines(s.archive)
    ensures line in FullLines(After(s, Append(name, stamp)).archive)
  {
    hide FullLines, PlanText, Addition, Selected, AllMovedEntries, NoNewline, Map, Flatten, Tail, AdditionLines;
    var p := PlanText(s.phase.original, s.phase.policy);
    var log, instincts := PlannedTexts(s.phase.original, s.phase.policy);
    AppendedLines(s.archive, log, instincts, p, name, stamp);
  }

  lemma StepKeepsLine(s: State, step: Step, line: string)
    requires Safe(s) && Admissible(s, step) && WriterKeeps(s, step, line)
    requires Present(s, line) && !Blank(line)
    ensures Present(After(s, step), line)
  {
    hide FullLines, AllHeld, NoneSkipped, PlanText, Addition, GoesOn, Blank, NoNewline;
    if step.Append? && s.phase.Planned? && line in FullLines(s.archive) {
      AppendKeepsLines(s, step.name, step.stamp, line);
    } else if step.Replace? && s.phase.Appended? && s.memory == Some(s.phase.original)
      && line in FullLines(s.memory.value) {
      ReplaceKeepsLine(s.archive, s.phase.original, s.phase.policy, line);
    }
  }

  /** In every run in which no append passes over a selected entry, with any interleaving of a writer
      and crashes, a line that holds something and that the writer does not delete stays in
      `memory.md` or in the archive. */
  lemma {:induction false} RunKeepsLine(s: State, steps: seq<Step>, line: string)
    requires Safe(s) && AdmissibleRun(s, steps) && WriterKeepsInRun(s, steps, line)
    requires Present(s, line) && !Blank(line)
    ensures Present(Run(s, steps), line)
    decreases |steps|
  {
    hide Safe, Admissible, After, WriterKeeps, Present, Blank;
    if steps != [] {
      StepKeepsSafe(s, steps[0]);
      StepKeepsLine(s, steps[0], line);
      RunKeepsLine(After(s, steps[0]), steps[1..], line);
    }
  }

  /** The date that an append writes is one line. */
  predicate PlainStamps(steps: seq<Step>) {
    forall i :: 0 <= i < |steps| && steps[i].Append? ==> NoNewline(steps[i].stamp)
  }

  /** An entry once in the archive stays there in full, whatever follows. */
  lemma {:induction false} HeldForever(s: State, steps: seq<Step>, e: seq<string>)
    requires Held(s.archive, e) && PlainStamps(steps)
    ensures Held(Run(s, steps).archive, e)
    decreases |steps|
  {
    hide Held, NoNewline, PlanText, Addition, GoesOn;
    if steps != [] {
      if steps[0].Append? && s.phase.Planned? {
        AppendKeepsHeld(s, steps[0].name, steps[0].stamp, e);
      }
      HeldForever(After(s, steps[0]), steps[1..], e);
    }
  }

  lemma AppendKeepsHeld(s: State, name: string, stamp: string, e: seq<string>)
    requires s.phase.Planned? && NoNewline(stamp) && Held(s.archive, e)
    ensures Held(After(s, Append(name, stamp)).archive, e)
  {
    hide FullLines, PlanText, Addition, Selected, AllMovedEntries, NoNewline, Map, Flatten, Tail, AdditionLines, Held;
    var p := PlanText(s.phase.original, s.phase.policy);
    var log, instincts := PlannedTexts(s.phase.original, s.phase.policy);
    AppendedLines(s.archive, log, instincts, p, name, stamp);
    HeldStays(s.archive, Addition(s.archive, p, name, stamp),
              Tail(s.archive, AdditionLines(s.archive, log, instincts, name, stamp)), e);
  }

  // ----- the writer wins -----

  predicate OnlyArchiver(steps: seq<Step>) {
    forall i :: 0 <= i < |steps| ==> !steps[i].Write? && !steps[i].Begin?
  }

  /** A text written while a run is under way, other than the one it has read, is what the file
      still holds when the run is over. */
  lemma {:induction false} WriterWins(s: State, text: Option<string>, steps: seq<Step>)
    requires OnlyArchiver(steps)
    requires !s.phase.Idle? ==> text != Some(s.phase.original)
    ensures Run(After(s, Write(text)), steps).memory == text
    decreases |steps|
  {
    if steps != [] {
      var t := After(After(s, Write(text)), steps[0]);
      hide PlanText, Addition, GoesOn;
      assert t == t.(memory := text);
      WriterWins(t, text, steps[1..]);
      assert After(t, Write(text)) == t;
    }
  }

  // ----- retrying after a crash -----

  lemma KeysKnown(archive: string, log: seq<seq<string>>, instincts: seq<seq<string>>, plan: Plan, name: string, stamp: string, e: seq<string>)
    requires AllMovedEntries(log) && AllMovedEntries(instincts) && NoNewline(stamp)
    requires plan.changeLog == Map(Flatten, log) && plan.instincts == Map(Flatten, instincts)
    requires e in log || e in instincts
    ensures Key(e) in Already(archive + Addition(archive, plan, name, stamp))
  {
    hide FullLines, AdditionLines, Tail, AllMovedEntries, NoNewline, Map, Flatten, Addition, TrimEnd, Already, Key, Archival,
         Held, MovedEntry, Blank, NoHeading, IsBullet;
    var more, t := Addition(archive, plan, name, stamp), Tail(archive, AdditionLines(archive, log, instincts, name, stamp));
    AppendedLines(archive, log, instincts, plan, name, stamp);
    AlreadyLine(archive + more, Key(e));
    MovedEntryIn(log, instincts, e);
    if Key(e) in Already(archive) {
      AlreadyLine(archive, Key(e));
      var i :| 0 <= i < |FullLines(archive)| && TrimEnd(FullLines(archive)[i]) == Key(e);
      assert FullLines(archive + more)[i] == FullLines(archive)[i];
    } else {
      HeldAfterAppend(archive, log, instincts, plan, name, stamp, e);
      ArchivalOf(e);
      HeldLineAt(archive + more, e);
    }
  }

  lemma HeldLineAt(archive: string, e: seq<string>)
    requires Held(archive, e) && Archival(e) != []
    ensures exists i :: 0 <= i < |FullLines(archive)| && TrimEnd(FullLines(archive)[i]) == TrimEnd(Archival(e)[0])
  {
    hide FullLines, Archival, TrimEnd;
    var i: nat :| BlockAt(FullLines(archive), i, Archival(e));
    assert FullLines(archive)[i..i + |Archival(e)|][0] == FullLines(archive)[i];
  }

  lemma {:induction false} NothingFresh(es: seq<seq<string>>, already: set<string>)
    requires forall i :: 0 <= i < |es| ==> Key(es[i]) in already
    ensures FreshEntries(es, already) == []
  {
    hide Key;
    if es != [] {
      NothingFresh(es[1..], already);
    }
  }

  /** Once appended, a plan has nothing more to append. */
  lemma NothingMoreToAdd(archive: string, original: string, policy: Policy, name: string, stamp: string, name': string, stamp': string)
    requires NoNewline(stamp) && Selected(original, policy) != []
    ensures var more := Addition(archive, PlanText(original, policy), name, stamp);
      Addition(archive + more, PlanText(original, policy), name', stamp') == ""
  {
    hide Addition, Selected, AllMovedEntries, NoNewline, Map, Flatten, PlanText, Already, Key, AdditionLines;
    var p := PlanText(original, policy);
    var log, instincts := PlannedTexts(original, policy);
    var grown := archive + Addition(archive, p, name, stamp);
    forall e | e in log || e in instincts
      ensures Key(e) in Already(grown)
    {
      KeysKnown(archive, log, instincts, p, name, stamp, e);
    }
    NothingFresh(log, Already(grown));
    NothingFresh(instincts, Already(grown));
    GrownNotEmpty(archive, p, name, stamp);
    AdditionText(grown, log, instincts, p, name', stamp');
    NoAdditionLines(grown, log, instincts, name', stamp');
    FlattenNothing([]);
  }

  lemma GrownNotEmpty(archive: string, p: Plan, name: string, stamp: string)
    ensures archive + Addition(archive, p, name, stamp) != ""
  {
    HeaderIsFull(name);
    hide ArchiveHeader, ArchiveBlock, Already;
  }

  lemma NoAdditionLines(archive: string, log: seq<seq<string>>, instincts: seq<seq<string>>, name: string, stamp: string)
    requires archive != "" && FreshEntries(log, Already(archive)) == [] && FreshEntries(instincts, Already(archive)) == []
    ensures AdditionLines(archive, log, instincts, name, stamp) == []
  {
    hide FreshEntries, Already;
  }

  lemma GoesOnSelected(original: string, policy: Policy)
    ensures GoesOn(original, policy) <==> Selected(original, policy) != []
  {
    hide Moved, ParseDoc, SplitInclusive, NothingLost, Flatten, Render, PlanDoc, Misfiled;
    PlanLosesNothing(original, policy);
  }

  /** A crash between append and replace: the next run adds nothing to the archive and completes
      the replacement, whatever the archive held before. */
  lemma RetryCompletes(s: State, policy: Policy, name: string, stamp: string, name': string, stamp': string)
    requires s.phase == Idle && s.memory.Some? && GoesOn(s.memory.value, policy) && NoNewline(stamp)
    ensures var crashed := Run(s, [Begin(policy), Append(name, stamp), Crash]);
      && crashed.memory == s.memory
      && Run(crashed, [Begin(policy), Append(name', stamp'), Replace])
         == State(Some(PlanText(s.memory.value, policy).newContent), crashed.archive, Idle)
  {
    hide *;
    var o := s.memory.value;
    GoesOnSelected(o, policy);
    NothingMoreToAdd(s.archive, o, policy, name, stamp, name', stamp');
    RunThree(s, Begin(policy), Append(name, stamp), Crash);
    CrashedRun(s, policy, name, stamp);
    var crashed := Run(s, [Begin(policy), Append(name, stamp), Crash]);
    RunThree(crashed, Begin(policy), Append(name', stamp'), Replace);
    CompletedRun(crashed, policy, name', stamp');
    var archive := s.archive + Addition(s.archive, PlanText(o, policy), name, stamp);
    assert archive + "" == archive;
  }

  lemma CrashedRun(s: State, policy: Policy, name: string, stamp: string)
    requires s.phase == Idle && s.memory.Some? && GoesOn(s.memory.value, policy)
    ensures After(After(After(s, Begin(policy)), Append(name, stamp)), Crash)
         == State(s.memory, s.archive + Addition(s.archive, PlanText(s.memory.value, policy), name, stamp), Idle)
  {
    hide Addition, PlanText, GoesOn;
  }

  lemma CompletedRun(s: State, policy: Policy, name: string, stamp: string)
    requires s.phase == Idle && s.memory.Some? && GoesOn(s.memory.value, policy)
    ensures After(After(After(s, Begin(policy)), Append(name, stamp)), Replace)
         == State(Some(PlanText(s.memory.value, policy).newContent),
                  s.archive + Addition(s.archive, PlanText(s.memory.value, policy), name, stamp), Idle)
  {
    hide Addition, PlanText, GoesOn;
  }

  lemma RunCons(s: State, a: Step, rest: seq<Step>)
    ensures Run(s, [a] + rest) == Run(After(s, a), rest)
  {
    hide After;
    assert ([a] + rest)[1..] == rest;
  }

  lemma RunThree(s: State, a: Step, b: Step, c: Step)
    ensures Run(s, [a, b, c]) == After(After(After(s, a), b), c)
  {
    hide After;
    assert [a, b, c] == [a] + ([b] + ([c] + []));
    RunCons(s, a, [b] + ([c] + []));
    RunCons(After(s, a), b, [c] + []);
    RunCons(After(After(s, a), b), c, []);
  }

  /** After a run has replaced the file, the next one has nothing to do. */
  lemma SecondRunIdle(original: string, archive: string, policy: Policy)
    ensures var s := State(Some(PlanText(original, policy).newContent), archive, Idle);
      After(s, Begin(policy)) == s
  {
    PlanIdempotent(original, policy);
    hide PlanText, NothingLost;
  }

  lemma ExampleKnown()
    ensures TrimEnd("- a\n") in Already("- a\n") && |FullLines("- a\n")| == 1
  {
    FlattenOne("- a\n");
    assert IsLine("- a\n");
    FlattenThenSplit(["- a\n"]);
    hide TrimEnd, SplitInclusive;
    NewlineNotAdded("- a\n", true);
    AlreadyLine("- a\n", TrimEnd("- a\n"));
    assert FullLines("- a\n")[0] == "- a\n";
  }

  // ----- the run itself -----

  datatype Report = Report(changeLogMoved: nat, instinctsMoved: nat, bytesBefore: nat, bytesAfter: nat,
                           applied: bool, skipped: bool, misfiled: nat)

  datatype Outcome = Reported(report: Report) | Unreadable | Refused

  function PlanReport(original: string, p: Plan): Report {
    Report(|p.changeLog|, |p.instincts|, ByteLen(original), ByteLen(p.newContent), false, false, p.misfiled)
  }

  /** The steps of one run; `hook` is what another writer does before the comparison. */
  function RunSteps(policy: Policy, name: string, stamp: string, hook: Option<Option<string>>): seq<Step> {
    if hook.Some? then [Begin(policy), Append(name, stamp), Write(hook.value), Replace]
    else [Begin(policy), Append(name, stamp), Replace]
  }

  /** The two files of a project. */
  class ProjectDir {
    var memory: Option<string>
    var archive: string

    constructor (memory: Option<string>, archive: string)
      ensures this.memory == memory && this.archive == archive
    {
      this.memory, this.archive := memory, archive;
    }

    /** `archive_memory_with`: the method is one run of the protocol. */
    method ArchiveMemoryWith(policy: Policy, dryRun: bool, name: string, stamp: string, hook: Option<Option<string>>)
      returns (outcome: Outcome)
      modifies this
      ensures outcome == Unreadable <==> old(memory).None?
      ensures outcome != Refused
      ensures outcome == Unreadable || dryRun || Selected(old(memory).value, policy) == [] ==>
                memory == old(memory) && archive == old(archive)
      ensures old(memory).Some? && !dryRun && Selected(old(memory).value, policy) != [] ==>
                State(memory, archive, Idle)
                == Run(State(old(memory), old(archive), Idle), RunSteps(policy, name, stamp, hook))
      ensures old(memory).Some? && !dryRun && Selected(old(memory).value, policy) != [] ==>
                var p := PlanText(old(memory).value, policy);
                && archive == old(archive) + Addition(old(archive), p, name, stamp)
                && memory == (if hook.None? || hook.value == old(memory) then Some(p.newContent) else hook.value)
      ensures old(memory).Some? ==>
                var original, p := old(memory).value, PlanText(old(memory).value, policy);
                var writes := !dryRun && |p.changeLog| + |p.instincts| > 0;
                var applied := writes && (hook.None? || hook.value == old(memory));
                outcome == Reported(Report(|p.changeLog|, |p.instincts|, ByteLen(original), ByteLen(p.newContent),
                                           applied, writes && !applied, p.misfiled))
    {
      hide PlanText, Selected, NothingLost, ArchiveBlock, Addition, GoesOn, ByteLen;
      if memory.None? {
        return Unreadable;
      }
      var original := memory.value;
      var plan := PlanLoop(original, policy);
      var report := PlanReport(original, plan);
      GoesOnSelected(original, policy);
      GoesOnIs(original, policy);
      if report.changeLogMoved + report.instinctsMoved == 0 || dryRun {
        return Reported(report);
      }
      if !NothingLost(original, plan.newContent, plan.changeLog + plan.instincts) {
        return Refused;
      }
      var already := Already(archive);
      var addition := "";
      if archive == "" {
        addition := addition + ArchiveHeader(name);
      }
      var block := ArchiveBlockLoop("Change Log", plan.changeLog, already, stamp);
      addition := addition + block;
      block := ArchiveBlockLoop("Instincts", plan.instincts, already, stamp);
      addition := addition + block;
      AdditionIs(archive, plan, name, stamp);
      archive := archive + addition;
      if hook.Some? {
        memory := hook.value;
      }
      RunIs(State(old(memory), old(archive), Idle), policy, name, stamp, hook);
      if memory != Some(original) {
        return Reported(report.(skipped := true));
      }
      memory := Some(plan.newContent);
      return Reported(report.(applied := true));
    }

    /** `archive_if_oversized`: nothing happens to a file that is missing or small enough. */
    method ArchiveIfOversized(policy: Policy, name: string, stamp: string) returns (outcome: Option<Outcome>)
      modifies this
      ensures outcome.None? <==> old(memory).None? || ByteLen(old(memory).value) <= policy.triggerBytes
      ensures outcome.None? ==> memory == old(memory) && archive == old(archive)
      ensures outcome.Some? ==>
                State(memory, archive, Idle)
                == Run(State(old(memory), old(archive), Idle), RunSteps(policy, name, stamp, None))
      ensures outcome.Some? ==>
                var original, p := old(memory).value, PlanText(old(memory).value, policy);
                outcome.value == Reported(Report(|p.changeLog|, |p.instincts|, ByteLen(original), ByteLen(p.newContent),
                                                 |p.changeLog| + |p.instincts| > 0, false, p.misfiled))
    {
      hide ByteLen, Selected, Run, PlanText;
      if memory.None? || ByteLen(memory.value) <= policy.triggerBytes {
        return None;
      }
      if Selected(memory.value, policy) == [] {
        NothingToRun(State(memory, archive, Idle), policy, name, stamp);
      }
      var o := ArchiveMemoryWith(policy, false, name, stamp, None);
      return Some(o);
    }
  }

  lemma GoesOnIs(original: string, policy: Policy)
    ensures var p := PlanText(original, policy);
      && NothingLost(original, p.newContent, p.changeLog + p.instincts)
      && (GoesOn(original, policy) <==> |p.changeLog| + |p.instincts| > 0)
  {
    PlanLosesNothing(original, policy);
    hide PlanText, NothingLost;
  }

  lemma AdditionIs(archive: string, plan: Plan, name: string, stamp: string)
    ensures Addition(archive, plan, name, stamp)
         == "" + (if archive == "" then ArchiveHeader(name) else "")
            + ArchiveBlock("Change Log", plan.changeLog, Already(archive), stamp)
            + ArchiveBlock("Instincts", plan.instincts, Already(archive), stamp)
  {
    hide ArchiveHeader, ArchiveBlock, Already;
  }

  /** What a run does, spelled out. */
  lemma RunIs(s: State, policy: Policy, name: string, stamp: string, hook: Option<Option<string>>)
    requires s.phase == Idle && s.memory.Some? && GoesOn(s.memory.value, policy)
    ensures var p := PlanText(s.memory.value, policy);
      Run(s, RunSteps(policy, name, stamp, hook))
        == State(if hook.None? || hook.value == s.memory then Some(p.newContent) else hook.value,
                 s.archive + Addition(s.archive, p, name, stamp), Idle)
  {
    hide Addition, PlanText, GoesOn;
    var appended := After(After(s, Begin(policy)), Append(name, stamp));
    if hook.Some? {
      assert RunSteps(policy, name, stamp, hook) == [Begin(policy)] + ([Append(name, stamp)] + ([Write(hook.value)] + ([Replace] + [])));
      RunCons(s, Begin(policy), [Append(name, stamp)] + ([Write(hook.value)] + ([Replace] + [])));
      RunCons(After(s, Begin(policy)), Append(name, stamp), [Write(hook.value)] + ([Replace] + []));
      RunCons(appended, Write(hook.value), [Replace] + []);
      RunCons(After(appended, Write(hook.value)), Replace, []);
    } else {
      RunThree(s, Begin(policy), Append(name, stamp), Replace);
    }
  }

  lemma NothingToRun(s: State, policy: Policy, name: string, stamp: string)
    requires s.phase == Idle && s.memory.Some? && Selected(s.memory.value, policy) == []
    ensures Run(s, RunSteps(policy, name, stamp, None)) == s
  {
    hide Addition, PlanText, GoesOn, Selected;
    GoesOnSelected(s.memory.value, policy);
    RunThree(s, Begin(policy), Append(name, stamp), Replace);
  }

  // ----- an entry that is passed over -----

  const EXAMPLE_TEXT := "## Instincts\n" + ("- n\n" + ("- a\n" + "  b\n"))

  const EXAMPLE_LINES := ["## Instincts\n", "- n\n", "- a\n", "  b\n"]

  /** Keeps one entry of each log, however large. */
  const EXAMPLE_POLICY := Policy(0, 0, 1, 0)

  lemma ExampleLines()
    ensures SplitInclusive(EXAMPLE_TEXT) == EXAMPLE_LINES && Terminated(EXAMPLE_TEXT)
  {
    hide SplitInclusive;
    var ls := EXAMPLE_LINES;
    assert ls[1..] == ["- n\n", "- a\n", "  b\n"] && ls[1..][1..] == ["- a\n", "  b\n"];
    assert ls[1..][1..][1..] == ["  b\n"];
    FlattenOne("  b\n");
    assert Flatten(ls) == EXAMPLE_TEXT;
    assert WellFormed(ls);
    FlattenThenSplit(ls);
  }

  lemma ExampleHeading()
    ensures SectionKind("## Instincts\n") == Some(Instincts) && IsHeading("## Instincts\n")
  {
    hide TrimEnd;
    TrimEndUnique("## Instincts", "\n");
    assert "## Instincts" + "\n" == "## Instincts\n";
    assert |"## Change Log"| == 13 && |"## Instincts"| == 12;
  }

  lemma RenderOne(s: Section)
    ensures Render(Doc([], [s])) == [s.heading] + s.body
  {
    assert [s][1..] == [];
    assert RenderSections([]) == [] && s.body + [] == s.body;
    assert [] + RenderSections([s]) == RenderSections([s]);
  }

  lemma ExampleDoc()
    ensures ParseDoc(EXAMPLE_LINES) == Doc([], [Section("## Instincts\n", ["- n\n", "- a\n", "  b\n"])])
  {
    hide ParseDoc, SectionKind;
    var body := ["- n\n", "- a\n", "  b\n"];
    var d := Doc([], [Section("## Instincts\n", body)]);
    ExampleHeading();
    HeadingChars(body[0]);
    HeadingChars(body[1]);
    HeadingChars(body[2]);
    RenderOne(d.sections[0]);
    assert ["## Instincts\n"] + body == EXAMPLE_LINES;
    assert WellFormedDoc(d);
    ParseRendered(d);
  }

  lemma ExampleBody()
    ensures SplitBody(["- n\n", "- a\n", "  b\n"]) == Body([], [["- n\n"], ["- a\n", "  b\n"]], [])
  {
    hide SplitBody;
    var b := Body([], [["- n\n"], ["- a\n", "  b\n"]], []);
    BulletChars("- n\n");
    BulletChars("- a\n");
    BulletChars("  b\n");
    NotBlank("  b\n", 2);
    hide IsBullet, Blank;
    assert b.entries[1..] == [["- a\n", "  b\n"]];
    FlattenOne(b.entries[1]);
    assert Flatten(b.entries) == ["- n\n", "- a\n", "  b\n"];
    assert b.entries[1][1..] == ["  b\n"] && b.entries[0][1..] == [];
    assert WellFormedBody(b) && RenderBody(b) == ["- n\n", "- a\n", "  b\n"];
    SplitBodyUnique(b);
  }

  lemma ExampleSize(es: seq<seq<string>>)
    requires es == [["- n\n"], ["- a\n", "  b\n"]]
    ensures TotalBytes(es) > 0
  {
    hide ByteLen;
    FlattenOne("- n\n");
    ByteLenAppend("-", " n\n");
    assert "- n\n" == "-" + " n\n";
    OneByte();
  }

  lemma OneByte()
    ensures ByteLen("-") == 1
  {
    assert "-"[1..] == "";
  }

  lemma ExamplePlanBody()
    ensures PlanBody(Instincts, ["- n\n", "- a\n", "  b\n"], EXAMPLE_POLICY) ==
      BodyPlan(["- n\n"], [["- a\n", "  b\n"]])
  {
    hide SplitBody, TotalBytes;
    var es := [["- n\n"], ["- a\n", "  b\n"]];
    ExampleBody();
    ExampleSize(es);
    NewestAll(es, NewestFirst);
    assert !Fits(es, NewestFirst, 0, 1, 2) && Fits(es, NewestFirst, 0, 1, 1);
    assert LargestFit(es, NewestFirst, 0, 1, 2) == 1;
    assert KeptCount(Instincts, es, EXAMPLE_POLICY) == 1;
    assert es[..1] == [["- n\n"]] && es[1..] == [["- a\n", "  b\n"]];
    FlattenOne(["- n\n"]);
  }

  lemma ExamplePlan()
    ensures Selected(EXAMPLE_TEXT, EXAMPLE_POLICY) == [["- a\n", "  b\n"]]
    ensures PlanText(EXAMPLE_TEXT, EXAMPLE_POLICY).newContent == "## Instincts\n" + "- n\n"
  {
    hide ParseDoc, SplitInclusive, PlanBody, SectionKind, Misfiled, Flatten;
    var s := Section("## Instincts\n", ["- n\n", "- a\n", "  b\n"]);
    var ss := [s];
    ExampleLines();
    ExampleDoc();
    ExampleHeading();
    ExamplePlanBody();
    assert ss[1..] == [];
    var planned := Section("## Instincts\n", ["- n\n"]);
    assert PlanSections(ss, EXAMPLE_POLICY) == [planned];
    RenderOne(planned);
    FlattenAppend(["## Instincts\n"], ["- n\n"]);
    FlattenOne("## Instincts\n");
    FlattenOne("- n\n");
  }

  /** Nothing is appended to an archive that has the first line of the one entry to move. */
  lemma ExampleAddsNothing(name: string, stamp: string)
    ensures Addition("- a\n", PlanText(EXAMPLE_TEXT, EXAMPLE_POLICY), name, stamp) == ""
  {
    hide Addition, Flatten, Already, TrimEnd, MovedEntry, AdditionLines, PlanText, Selected, Map, FullLines;
    var p := PlanText(EXAMPLE_TEXT, EXAMPLE_POLICY);
    var log, instincts := PlannedTexts(EXAMPLE_TEXT, EXAMPLE_POLICY);
    var e := ["- a\n", "  b\n"];
    ExamplePlan();
    ExampleKnown();
    assert FirstLine(e) == "- a\n";
    forall x | x in log || x in instincts ensures x == e { assert x in log + instincts; }
    assert forall i :: 0 <= i < |log| ==> log[i] in log;
    assert forall i :: 0 <= i < |instincts| ==> instincts[i] in instincts;
    NothingFresh(log, Already("- a\n"));
    NothingFresh(instincts, Already("- a\n"));
    AdditionText("- a\n", log, instincts, p, name, stamp);
    NoAdditionLines("- a\n", log, instincts, name, stamp);
    FlattenNothing([]);
  }

  lemma ShortLines(a: string, b: string)
    requires IsLine(a) && Terminated(a) && IsLine(b) && Terminated(b)
    ensures FullLines(a) == [a] && FullLines(a + b) == [a, b]
  {
    hide SplitInclusive, Complete, IsLine;
    SplitEmpty();
    SplitFirst(b, "");
    assert b + "" == b && a + "" == a;
    SplitFirst(a, b);
    SplitFirst(a, "");
    assert [a] + [b] == [a, b] && [a] + [] == [a] && [b] + [] == [b];
    assert (a + b)[|a + b| - 1] == b[|b| - 1];
    FullLinesWellFormed(a);
    FullLinesWellFormed(a + b);
  }

  lemma ExampleShortLines()
    ensures FullLines("- a\n") == ["- a\n"] && FullLines("## Instincts\n" + "- n\n") == ["## Instincts\n", "- n\n"]
  {
    hide FullLines;
    ShortLines("- a\n", "- n\n");
    ShortLines("## Instincts\n", "- n\n");
  }

  /** The archive knows the first line of an entry but not its second: a run on this text appends
      nothing, replaces memory.md, and the second line is in neither file. */
  lemma SkippedExample(name: string, stamp: string)
    ensures var before := State(Some(EXAMPLE_TEXT), "- a\n", Idle);
            var after := Run(before, [Begin(EXAMPLE_POLICY), Append(name, stamp), Replace]);
            && after == State(Some("## Instincts\n" + "- n\n"), "- a\n", Idle)
            && Present(before, "  b\n") && !Present(after, "  b\n")
  {
    hide *;
    var before := State(Some(EXAMPLE_TEXT), "- a\n", Idle);
    ExamplePlan();
    GoesOnSelected(EXAMPLE_TEXT, EXAMPLE_POLICY);
    RunIs(before, EXAMPLE_POLICY, name, stamp, None);
    StepsAre(EXAMPLE_POLICY, name, stamp);
    ExampleAddsNothing(name, stamp);
    assert "- a\n" + "" == "- a\n";
    ExampleLines();
    FullLinesWellFormed(EXAMPLE_TEXT);
    ExampleShortLines();
    ExamplePresent(before);
    ExampleAbsent(State(Some("## Instincts\n" + "- n\n"), "- a\n", Idle));
  }

  lemma StepsAre(policy: Policy, name: string, stamp: string)
    ensures RunSteps(policy, name, stamp, None) == [Begin(policy), Append(name, stamp), Replace]
  {
  }

  lemma ExamplePresent(s: State)
    requires s.memory == Some(EXAMPLE_TEXT) && FullLines(EXAMPLE_TEXT) == EXAMPLE_LINES
    ensures Present(s, "  b\n")
  {
    hide FullLines;
    assert EXAMPLE_LINES[3] == "  b\n";
  }

  lemma ExampleAbsent(s: State)
    requires s.memory == Some("## Instincts\n" + "- n\n") && s.archive == "- a\n"
    requires FullLines("- a\n") == ["- a\n"] && FullLines("## Instincts\n" + "- n\n") == ["## Instincts\n", "- n\n"]
    ensures !Present(s, "  b\n")
  {
    hide FullLines;
    assert "  b\n"[0] == ' ' && "- a\n"[0] == '-' && "- n\n"[0] == '-' && "## Instincts\n"[0] == '#';
  }
}
