/** What a run appends to the archive, in the archive's own words. */
module ArchiveOutcome {
  import opened Seqs
  import opened Text
  import Words
  import opened MemoryParse
  import opened MemoryPlan
  import opened MemoryApply

  /** The lines are the same but for blank space at their ends. */
  predicate SameButBlanks(a: string, b: string) {
    TrimEnd(a) == TrimEnd(b)
  }

  /** The archive has a line that is the first line of the text. */
  predicate Knows(archive: string, text: string) {
    Lines(text) != [] && exists i :: 0 <= i < |Lines(archive)| && SameButBlanks(Lines(archive)[i], Lines(text)[0])
  }

  function IsNews(archive: string): string -> bool {
    text => !Knows(archive, text)
  }

  /** A block: a blank line, a heading with date, kind and number, a blank line, and the texts, each
      ended; nothing if there are none. */
  predicate IsBlock(block: string, kind: string, texts: seq<string>, stamp: string) {
    if texts == [] then block == ""
    else
      exists n :: 0 <= n <= |block| && BlockWith(block, kind, texts, stamp, block[..n])
  }

  predicate BlockWith(block: string, kind: string, texts: seq<string>, stamp: string, numbered: string) {
    block == numbered + Flatten(Map(Ended, texts)) && IsNumbered(numbered, kind, |texts|, stamp)
  }

  /** The heading, with the number of texts as a decimal numeral. */
  predicate IsNumbered(numbered: string, kind: string, count: nat, stamp: string) {
    var front, back := "\n## Archived " + stamp + " — " + kind + " (", " entries)\n\n";
    |numbered| >= |front| + |back| && front <= numbered && numbered[|numbered| - |back|..] == back &&
    var numeral := numbered[|front|..|numbered| - |back|];
    Words.AllDigits(numeral) && numeral != "" && Words.Value(numeral) == count
  }

  const HEADER_BEHIND_NAME :=
    "\n\n" +
    ("Older entries moved out of `memory.md` by `raios memory-archive` so agents read a " +
     "smaller file. Nothing here was deleted or edited; entries keep their original text. " +
     "Search this file when `memory.md` does not have what you need.") + "\n"

  lemma HeaderIs(name: string)
    ensures ArchiveHeader(name) == "# Memory Archive: " + name + HEADER_BEHIND_NAME
  {
    NoteIs();
    hide ARCHIVE_NOTE, HEADER_BEHIND_NAME;
    assert "# Memory Archive: " + name + "\n\n" + ARCHIVE_NOTE + "\n"
      == "# Memory Archive: " + name + ("\n\n" + ARCHIVE_NOTE + "\n");
  }

  lemma NoteIs()
    ensures "\n\n" + ARCHIVE_NOTE + "\n" == HEADER_BEHIND_NAME
  {
  }

  lemma FreshIs(archive: string, text: string)
    ensures Fresh(text, Already(archive)) <==> IsNews(archive)(text)
  {
    hide TrimEnd, Lines;
    if Knows(archive, text) {
      var i :| 0 <= i < |Lines(archive)| && SameButBlanks(Lines(archive)[i], Lines(text)[0]);
      assert Lines(archive)[i] in Lines(archive);
    }
    if !Fresh(text, Already(archive)) {
      var l :| l in Lines(archive) && TrimEnd(l) == FirstKey(text).value;
      var i :| 0 <= i < |Lines(archive)| && Lines(archive)[i] == l;
      assert SameButBlanks(Lines(archive)[i], Lines(text)[0]);
    }
  }

  lemma {:induction false} FreshOnesAre(archive: string, texts: seq<string>)
    ensures FreshOnes(texts, Already(archive)) == Filter(IsNews(archive), texts)
  {
    hide Fresh, Already, IsNews;
    if texts != [] {
      FreshOnesAre(archive, texts[1..]);
      FreshIs(archive, texts[0]);
      FilterCons(IsNews(archive), texts[0], texts[1..]);
      assert texts == [texts[0]] + texts[1..];
    } else {
      FilterNone(IsNews(archive), texts);
    }
  }

  lemma NumberedIs(kind: string, count: nat, stamp: string)
    ensures IsNumbered("\n" + BlockHeading(kind, count, stamp) + "\n", kind, count, stamp)
  {
    hide Words.NatText;
    Words.NatTextValue(count);
    Words.NatTextIsWord(count);
    var numeral := Words.NatText(count);
    var front, back := "\n## Archived " + stamp + " — " + kind + " (", " entries)\n\n";
    HeadingParts(kind, stamp, numeral);
    var numbered := front + numeral + back;
    assert numbered[|front|..|numbered| - |back|] == numeral;
  }

  lemma HeadingParts(kind: string, stamp: string, numeral: string)
    ensures "\n" + ("## Archived " + stamp + " — " + kind + " (" + numeral + " entries)\n") + "\n" ==
      "\n## Archived " + stamp + " — " + kind + " (" + numeral + " entries)\n\n"
  {
    assert "\n" + "## Archived " == "\n## Archived " && " entries)\n" + "\n" == " entries)\n\n";
    Reassociated("\n", "## Archived ", stamp + " — " + kind + " (" + numeral, " entries)\n", "\n");
    assert "## Archived " + stamp + " — " + kind + " (" + numeral + " entries)\n"
      == "## Archived " + (stamp + " — " + kind + " (" + numeral) + " entries)\n";
    assert "\n## Archived " + stamp + " — " + kind + " (" + numeral + " entries)\n\n"
      == "\n## Archived " + (stamp + " — " + kind + " (" + numeral) + " entries)\n\n";
  }

  lemma Reassociated(a: string, b: string, c: string, d: string, e: string)
    ensures a + (b + c + d) + e == (a + b) + c + (d + e)
  {
  }

  lemma BlockIs(kind: string, texts: seq<string>, archive: string, stamp: string)
    ensures IsBlock(ArchiveBlock(kind, texts, Already(archive), stamp), kind, Filter(IsNews(archive), texts), stamp)
  {
    hide Already, FreshOnes, BlockHeading, IsNumbered, Flatten, Map, Filter;
    FreshOnesAre(archive, texts);
    var found := Filter(IsNews(archive), texts);
    if found != [] {
      var numbered := "\n" + BlockHeading(kind, |found|, stamp) + "\n";
      NumberedIs(kind, |found|, stamp);
      var block := numbered + Flatten(Map(Ended, found));
      assert block[..|numbered|] == numbered;
      assert BlockWith(block, kind, found, stamp, block[..|numbered|]);
    }
  }

  /** What is appended: a header if the archive is new, a block of those Change Log texts whose first
      line it does not have, and such a block of the Instincts. */
  lemma AdditionWrittenOut(archive: string, plan: Plan, name: string, stamp: string)
    ensures exists log, instincts ::
      IsBlock(log, "Change Log", Filter(IsNews(archive), plan.changeLog), stamp)
      && IsBlock(instincts, "Instincts", Filter(IsNews(archive), plan.instincts), stamp)
      && Addition(archive, plan, name, stamp)
         == (if archive == "" then "# Memory Archive: " + name + HEADER_BEHIND_NAME else "") + log + instincts
  {
    hide Already, ArchiveBlock, ArchiveHeader, IsBlock, HEADER_BEHIND_NAME, Filter;
    HeaderIs(name);
    BlockIs("Change Log", plan.changeLog, archive, stamp);
    BlockIs("Instincts", plan.instincts, archive, stamp);
  }
}
