/** What an insertion makes of a text, told in the text's own terms. */
module InsertOutcome {
  import opened Seqs
  import opened Text
  import opened MemoryParse
  import opened MemoryPlan
  import opened MemoryInsert
  import opened MemoryOutcome

  predicate AllBreaks(s: string) {
    forall i :: 0 <= i < |s| ==> s[i] == '\n'
  }

  /** The entry without the line breaks at its end. */
  predicate IsBare(entry: string, core: string) {
    core <= entry && AllBreaks(entry[|core|..]) && (core != "" ==> core[|core| - 1] != '\n')
  }

  lemma {:induction false} BareIs(entry: string, core: string)
    requires IsBare(entry, core)
    ensures EntryLine(entry) == core + "\n"
    decreases |entry|
  {
    if |core| < |entry| {
      var front := entry[..|entry| - 1];
      assert entry[|core|..][|entry| - 1 - |core|] == entry[|entry| - 1];
      assert front[|core|..] == entry[|core|..][..|entry| - 1 - |core|];
      BareIs(front, core);
    } else {
      assert entry == core;
    }
  }

  lemma {:induction false} EveryEntryIsBare(entry: string) returns (core: string)
    ensures IsBare(entry, core)
  {
    if entry != "" && entry[|entry| - 1] == '\n' {
      core := EveryEntryIsBare(entry[..|entry| - 1]);
      var n := |core|;
      assert entry[n..] == entry[..|entry| - 1][n..] + [entry[|entry| - 1]];
    } else {
      core := entry;
    }
  }

  /** The text without the blank space at its end. */
  predicate IsTrimmed(text: string, core: string) {
    core <= text && AllSpace(text[|core|..]) && (core != "" ==> !IsSpace(core[|core| - 1]))
  }

  /** The first section called Change Log, or none. */
  predicate FirstChangeLog(parts: seq<Part>, n: nat) {
    n <= |parts| && (n < |parts| ==> IsChangeLog(parts[n].heading))
    && forall i :: 0 <= i < n ==> !IsChangeLog(parts[i].heading)
  }

  /** The text, with a line break at its end. */
  predicate IsEnded(text: string, ended: string) {
    ended == if text != "" && text[|text| - 1] != '\n' then text + "\n" else text
  }

  /** The text up to the entries of the n-th section. */
  function TextBefore(preface: seq<string>, parts: seq<Part>, n: nat): string
    requires n < |parts|
  {
    Flatten(preface + Flatten(Map(PartLines, parts[..n])) + ([parts[n].heading] + parts[n].preamble))
  }

  /** The text behind the entries of the n-th section. */
  function TextBehind(parts: seq<Part>, n: nat): string
    requires n < |parts|
  {
    Flatten(parts[n].trailing + Flatten(Map(PartLines, parts[n + 1..])))
  }

  lemma FirstLogIs(parts: seq<Part>, n: nat)
    requires FirstChangeLog(parts, n)
    ensures FirstLog(SectionsOf(parts)) == n
  {
    hide SectionKind, IsChangeLog, FirstLog;
    var ss := SectionsOf(parts);
    forall i | 0 <= i < |parts| ensures IsChangeLog(parts[i].heading) <==> SectionKind(ss[i].heading) == Some(ChangeLog) {
      HeadingKinds(parts[i].heading);
    }
    var m := FirstLog(ss);
  }

  lemma PartsBefore(preface: seq<string>, parts: seq<Part>, n: nat)
    requires IsDocument(preface, parts) && n < |parts|
    ensures IsPart(parts[n]) && SplitBody(SectionsOf(parts)[n].body) ==
      Body(parts[n].preamble, parts[n].entries, parts[n].trailing)
    ensures RenderSections(SectionsOf(parts)[..n]) == Flatten(Map(PartLines, parts[..n]))
    ensures RenderSections(SectionsOf(parts)[n + 1..]) == Flatten(Map(PartLines, parts[n + 1..]))
    ensures SectionsOf(parts)[n].heading == parts[n].heading
  {
    hide Flatten, RenderSections, PartLines, SplitBody, IsPart;
    PartIsSection(parts[n]);
    RenderOfParts(parts[..n]);
    RenderOfParts(parts[n + 1..]);
    assert SectionsOf(parts)[..n] == SectionsOf(parts[..n]);
    assert SectionsOf(parts)[n + 1..] == SectionsOf(parts[n + 1..]);
  }

  /** Where the entry goes: behind the entries of a Change Log with the newest at its end, which then
      end their last line; and before them in any other. */
  lemma InsertWrittenOut(preface: seq<string>, parts: seq<Part>, entry: string, core: string, n: nat)
    requires IsDocument(preface, parts) && IsBare(entry, core) && FirstChangeLog(parts, n) && n < |parts|
    ensures var before, entries, behind :=
              TextBefore(preface, parts, n), Flatten(Flatten(parts[n].entries)), TextBehind(parts, n);
            var text := InsertText(DocumentText(preface, parts), entry);
            if OldestOnTop(parts[n].entries) then
              exists ended :: IsEnded(before + entries, ended) && text == ended + (core + "\n") + behind
            else text == before + (core + "\n") + (entries + behind)
  {
    hide SplitInclusive, ParseDoc, IsDocument, EntryLine, FirstLog, DetectOrder, OldestOnTop, RenderSections, SplitBody,
      PartLines, Flatten, IsChangeLog, IsPart, SectionsOf, IsBare;
    BareIs(entry, core);
    FirstLogIs(parts, n);
    DocumentIsParsed(preface, parts);
    PartsBefore(preface, parts, n);
    OrderIs(parts[n].entries);
    AllParts(parts);
    var es, p := parts[n].entries, parts[n];
    var front := preface + Flatten(Map(PartLines, parts[..n]));
    var rest := Flatten(Map(PartLines, parts[n + 1..]));
    if DetectOrder(es) == OldestFirst {
      var head := Flatten(front + ([p.heading] + p.preamble + Flatten(es)));
      assert front + ([p.heading] + p.preamble + Flatten(es)) == front + ([p.heading] + p.preamble) + Flatten(es);
      FlattenAppend(front + ([p.heading] + p.preamble), Flatten(es));
      assert IsEnded(head, EnsureFinalNewline(head, true));
    } else {
      FlattenAppend(Flatten(es), p.trailing + rest);
      assert Flatten(es) + p.trailing + rest == Flatten(es) + (p.trailing + rest);
    }
  }

  /** Without a Change Log the text is trimmed and a new section with the entry put behind it. */
  lemma NewSectionWrittenOut(preface: seq<string>, parts: seq<Part>, entry: string, core: string, trimmed: string)
    requires IsDocument(preface, parts) && IsBare(entry, core) && FirstChangeLog(parts, |parts|)
    requires IsTrimmed(DocumentText(preface, parts), trimmed)
    ensures InsertText(DocumentText(preface, parts), entry) == trimmed + "\n\n## Change Log\n" + core + "\n"
  {
    hide *;
    var text := DocumentText(preface, parts);
    BareIs(entry, core);
    FirstLogIs(parts, |parts|);
    DocumentIsParsed(preface, parts);
    AllParts(parts);
    InsertedAtEnd(text, entry);
    TrimmedIs(text, trimmed);
    assert trimmed + "\n\n" + "## Change Log\n" + (core + "\n") == trimmed + "\n\n## Change Log\n" + core + "\n";
  }

  lemma TrimmedIs(text: string, trimmed: string)
    requires IsTrimmed(text, trimmed)
    ensures TrimEnd(text) == trimmed
  {
    hide TrimEnd;
    assert text == trimmed + text[|trimmed|..];
    TrimEndUnique(trimmed, text[|trimmed|..]);
  }

  lemma InsertedAtEnd(content: string, entry: string)
    requires var ss := ParseDoc(SplitInclusive(content)).sections; FirstLog(ss) == |ss|
    ensures InsertText(content, entry) == TrimEnd(content) + "\n\n" + "## Change Log\n" + EntryLine(entry)
  {
    hide ParseDoc, SplitInclusive, FirstLog, EntryLine, TrimEnd;
  }

  lemma AllParts(parts: seq<Part>)
    ensures |SectionsOf(parts)| == |parts|
  {
  }
}
