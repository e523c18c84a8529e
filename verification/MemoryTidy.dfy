/** Runs on texts in which entries that begin alike are alike: no append of such a run passes over
    an entry, so nothing is ever lost, whatever the order of the steps. */
module MemoryTidy {
  import opened Seqs
  import opened Text
  import opened MemoryParse
  import opened MemoryPlan
  import opened MemoryInsert
  import opened MemoryApply
  import opened MemoryEntries

  // ----- the entries a plan may move -----

  /** The entries of the sections that are logs. */
  function MovableEntries(ss: seq<Section>): seq<seq<string>> {
    if ss == [] then [] else EntriesIn(ss[0]) + MovableEntries(ss[1..])
  }

  function EntriesIn(s: Section): seq<seq<string>> {
    if SectionKind(s.heading).None? then [] else SplitBody(s.body).entries
  }

  function EntriesOf(text: string): seq<seq<string>> {
    MovableEntries(ParseDoc(SplitInclusive(text)).sections)
  }

  /** Every entry is one of these as the archive would keep it. */
  predicate Among(es: seq<seq<string>>, u: set<seq<string>>) {
    forall i :: 0 <= i < |es| ==> Archival(es[i]) in u
  }

  lemma AmongAppend(a: seq<seq<string>>, b: seq<seq<string>>, u: set<seq<string>>)
    ensures Among(a + b, u) <==> (Among(a, u) && Among(b, u))
  {
    hide Archival;
    if Among(a + b, u) {
      forall i | 0 <= i < |a| ensures Archival(a[i]) in u { assert (a + b)[i] == a[i]; }
      forall i | 0 <= i < |b| ensures Archival(b[i]) in u { assert (a + b)[|a| + i] == b[i]; }
    }
  }

  /** An entry without the blank lines at its end is archived in the same form. */
  lemma ArchivalOfSolid(e: seq<string>)
    ensures Archival(e[..ContentEnd(e)]) == Archival(e)
  {
    hide ContentEnd, Complete, Blank;
    var n := ContentEnd(e);
    var solid := e[..n];
    ContentEndOf(solid, []);
    assert solid + [] == solid && solid[..n] == solid;
  }

  lemma SolidifiedAmong(es: seq<seq<string>>, u: set<seq<string>>)
    requires es != [] && Among(es, u)
    ensures Among(Solidified(es), u)
  {
    hide Archival, ContentEnd;
    ArchivalOfSolid(es[|es| - 1]);
  }

  /** The entries that a section keeps are, as the archive would keep them, some it had. */
  lemma KeptAmong(kind: Kind, body: seq<string>, policy: Policy, u: set<seq<string>>)
    requires Among(SplitBody(body).entries, u)
    ensures Among(SplitBody(PlanBody(kind, body, policy).kept).entries, u)
  {
    hide *;
    var b, pre, kept, post := PlanBodySplit(kind, body, policy);
    AmongAppend(pre + kept, post, u);
    AmongAppend(pre, kept, u);
    SplitParts(body, pre, kept, post);
    if kept == [] {
      FlattenNone(b.preamble, kept, b.trailing);
      SplitWithoutEntries(b.preamble, b.trailing);
      AmongNone(u);
    } else {
      SplitOfEntries(b.preamble, kept, b.trailing);
      SolidifiedAmong(kept, u);
    }
  }

  lemma AmongNone(u: set<seq<string>>)
    ensures Among([], u)
  {
  }

  lemma SplitParts(body: seq<string>, pre: seq<seq<string>>, kept: seq<seq<string>>, post: seq<seq<string>>)
    requires SplitBody(body).entries == pre + kept + post
    ensures NoBullet(SplitBody(body).preamble) && AllEntries(kept) && AllBlank(SplitBody(body).trailing)
  {
    hide SplitBody, IsEntry, Blank, IsBullet;
    BodyIsWellFormed(body);
    var b := SplitBody(body);
    forall i | 0 <= i < |kept| ensures IsEntry(kept[i]) { assert b.entries[|pre| + i] == kept[i]; }
  }

  lemma BodyIsWellFormed(body: seq<string>)
    ensures WellFormedBody(SplitBody(body))
  {
  }

  lemma SectionAmong(s: Section, policy: Policy, u: set<seq<string>>)
    requires Among(EntriesIn(s), u)
    ensures Among(EntriesIn(PlanSection(s, policy)), u)
  {
    hide SectionKind, SplitBody, PlanBody, Among;
    var kind := SectionKind(s.heading);
    if kind.Some? { KeptAmong(kind.value, s.body, policy, u); }
  }

  lemma {:induction false} SectionsAmong(ss: seq<Section>, policy: Policy, u: set<seq<string>>)
    requires Among(MovableEntries(ss), u)
    ensures Among(MovableEntries(PlanSections(ss, policy)), u)
  {
    hide Among, EntriesIn, PlanSection;
    if ss != [] {
      AmongAppend(EntriesIn(ss[0]), MovableEntries(ss[1..]), u);
      SectionAmong(ss[0], policy, u);
      SectionsAmong(ss[1..], policy, u);
      var s, rest := PlanSection(ss[0], policy), PlanSections(ss[1..], policy);
      assert ([s] + rest)[1..] == rest;
      AmongAppend(EntriesIn(s), MovableEntries(rest), u);
    }
  }

  /** What a run writes back has no entries but those of the text it read. */
  lemma PlannedAmong(text: string, policy: Policy, u: set<seq<string>>)
    requires Among(EntriesOf(text), u)
    ensures Among(EntriesOf(PlanText(text, policy).newContent), u)
  {
    hide *;
    var d := ParseDoc(SplitInclusive(text));
    PlannedDoc(text, policy);
    PlanDocIs(d, policy);
    EntriesOfIs(text);
    EntriesOfIs(PlanText(text, policy).newContent);
    SectionsAmong(d.sections, policy, u);
  }

  lemma EntriesOfIs(text: string)
    ensures EntriesOf(text) == MovableEntries(ParseDoc(SplitInclusive(text)).sections)
  {
  }

  lemma MovedOfAmong(kind: Kind, s: Section, policy: Policy, u: set<seq<string>>)
    requires Among(EntriesIn(s), u)
    ensures Among(MovedOf(kind, s, policy), u)
  {
    hide SectionKind, PlanBody, SplitBody, Among, Flatten;
    AmongNone(u);
    if SectionKind(s.heading) == Some(kind) {
      var b, pre, kept, post := PlanBodySplit(kind, s.body, policy);
      AmongAppend(pre + kept, post, u);
      AmongAppend(pre, kept, u);
      AmongAppend(pre, post, u);
    }
  }

  lemma {:induction false} MovedAmong(kind: Kind, ss: seq<Section>, policy: Policy, u: set<seq<string>>)
    requires Among(MovableEntries(ss), u)
    ensures Among(Moved(kind, ss, policy), u)
  {
    hide Among, EntriesIn, MovedOf;
    if ss == [] {
      AmongNone(u);
    } else {
      AmongAppend(EntriesIn(ss[0]), MovableEntries(ss[1..]), u);
      MovedOfAmong(kind, ss[0], policy, u);
      MovedAmong(kind, ss[1..], policy, u);
      AmongAppend(MovedOf(kind, ss[0], policy), Moved(kind, ss[1..], policy), u);
    }
  }

  /** A plan selects only entries of the text. */
  lemma SelectedAmong(text: string, policy: Policy, u: set<seq<string>>)
    requires Among(EntriesOf(text), u)
    ensures Among(Selected(text, policy), u)
  {
    hide *;
    var ss := ParseDoc(SplitInclusive(text)).sections;
    EntriesOfIs(text);
    SelectedIs(text, policy);
    MovedAmong(ChangeLog, ss, policy, u);
    MovedAmong(Instincts, ss, policy, u);
    AmongAppend(Moved(ChangeLog, ss, policy), Moved(Instincts, ss, policy), u);
  }

  // ----- entries that begin alike are alike -----

  /** Entries are known by their first lines, and those lines, trimmed, are bullets. */
  predicate Distinct(u: set<seq<string>>) {
    (forall a, b :: a in u && b in u && Key(a) == Key(b) ==> a == b) && (forall a :: a in u ==> IsBullet(Key(a)))
  }

  /** Of these entries the archive holds in full every one whose first line it has. */
  ghost predicate Tidy(archive: string, u: set<seq<string>>) {
    forall a :: a in u && Key(a) in Already(archive) ==> HasBlock(FullLines(archive), a)
  }

  lemma TrimmedBullet(l: string)
    requires IsBullet(TrimEnd(l))
    ensures IsBullet(l)
  {
    hide TrimEnd;
    TrimEndParts(l);
  }

  lemma KeyOfArchival(e: seq<string>)
    requires MovedEntry(e)
    ensures Key(Archival(e)) == Key(e)
  {
    hide Archival, TrimEnd, MovedEntry, Blank, NoHeading, Complete, IsBullet;
    ArchivalOf(e);
  }

  /** A line of the tail that is a key of one of the entries is the first line of an entry that was
      fresh, and this is that entry. */
  lemma FreshWithKey(archive: string, log: seq<seq<string>>, instincts: seq<seq<string>>, key: string)
    returns (e: seq<string>)
    requires key in FreshKeys(archive, log, instincts)
    ensures (e in log || e in instincts) && Key(e) == key && key !in Already(archive)
  {
    hide Key, Already;
    var a, b := FreshEntries(log, Already(archive)), FreshEntries(instincts, Already(archive));
    if key in KeysOf(a) {
      e :| e in a && Key(e) == key;
    } else {
      e :| e in b && Key(e) == key;
    }
  }

  lemma TidyAfterAppend(archive: string, log: seq<seq<string>>, instincts: seq<seq<string>>, plan: Plan, name: string,
                        stamp: string, u: set<seq<string>>, a: seq<string>)
    requires AllMovedEntries(log) && AllMovedEntries(instincts) && NoNewline(stamp)
    requires plan.changeLog == Map(Flatten, log) && plan.instincts == Map(Flatten, instincts)
    requires archive == "" ==> NoBullet(SplitInclusive(ArchiveHeader(name)))
    requires Distinct(u) && Tidy(archive, u) && Among(log + instincts, u)
    requires a in u && Key(a) in Already(archive + Addition(archive, plan, name, stamp))
    ensures HasBlock(FullLines(archive + Addition(archive, plan, name, stamp)), a)
  {
    hide *;
    var t := Tail(archive, AdditionLines(archive, log, instincts, name, stamp));
    var more, f := Addition(archive, plan, name, stamp), FullLines(archive);
    AppendedLines(archive, log, instincts, plan, name, stamp);
    AlreadyLine(archive + more, Key(a));
    var i :| 0 <= i < |f + t| && TrimEnd((f + t)[i]) == Key(a);
    if i < |f| {
      assert TrimEnd(f[i]) == Key(a);
      AlreadyLine(archive, Key(a));
      TidyAt(archive, u, a);
      BlockInside([], f, t, a);
      assert [] + f + t == f + t;
    } else {
      TailFacts(archive, log, instincts, name, stamp);
      DistinctBullet(u, a);
      TrimmedBullet(t[i - |f|]);
      KeyAt(t, i - |f|, FreshKeys(archive, log, instincts));
      var e := FreshWithKey(archive, log, instincts, Key(a));
      MovedEntryIn(log, instincts, e);
      AmongHas(log + instincts, u, e);
      KeyOfArchival(e);
      DistinctSame(u, a, Archival(e));
      HeldAfterAppend(archive, log, instincts, plan, name, stamp, e);
      HeldMeans(archive + more, e);
    }
  }

  lemma AmongHas(es: seq<seq<string>>, u: set<seq<string>>, e: seq<string>)
    requires Among(es, u) && e in es
    ensures Archival(e) in u
  {
    hide Archival;
  }

  lemma TidyAt(archive: string, u: set<seq<string>>, a: seq<string>)
    requires Tidy(archive, u) && a in u && Key(a) in Already(archive)
    ensures HasBlock(FullLines(archive), a)
  {
    hide HasBlock, Already, FullLines, Key;
  }

  lemma DistinctBullet(u: set<seq<string>>, a: seq<string>)
    requires Distinct(u) && a in u
    ensures IsBullet(Key(a))
  {
    hide IsBullet, Key;
  }

  lemma DistinctSame(u: set<seq<string>>, a: seq<string>, b: seq<string>)
    requires Distinct(u) && a in u && b in u && Key(a) == Key(b)
    ensures a == b
  {
    hide IsBullet, Key;
  }

  // ----- runs -----

  /** All texts of a run, as far as they are given from outside, have only these entries; dates are
      one line, and a new archive's header has no bullets. */
  predicate TidyStep(newArchive: bool, step: Step, u: set<seq<string>>) {
    match step
    case Append(name, stamp) => NoNewline(stamp) && (newArchive ==> NoBullet(SplitInclusive(ArchiveHeader(name))))
    case Write(text) => text.Some? ==> Among(EntriesOf(text.value), u)
    case _ => true
  }

  predicate TidySteps(newArchive: bool, steps: seq<Step>, u: set<seq<string>>) {
    forall i :: 0 <= i < |steps| ==> TidyStep(newArchive, steps[i], u)
  }

  ghost predicate TidyState(s: State, u: set<seq<string>>) {
    && (s.memory.Some? ==> Among(EntriesOf(s.memory.value), u))
    && (!s.phase.Idle? ==> Among(EntriesOf(s.phase.original), u))
    && Tidy(s.archive, u)
  }

  lemma AppendKeepsTidy(s: State, name: string, stamp: string, u: set<seq<string>>)
    requires s.phase.Planned? && Distinct(u) && TidyState(s, u) && TidyStep(s.archive == "", Append(name, stamp), u)
    ensures Tidy(After(s, Append(name, stamp)).archive, u)
  {
    hide *;
    var original, policy := s.phase.original, s.phase.policy;
    var log, instincts := PlannedTexts(original, policy);
    TidyStateIs(s, u);
    TidyAppendIs(s.archive == "", name, stamp, u);
    SelectedAmong(original, policy, u);
    AfterAppend(s, name, stamp);
    var plan := PlanText(original, policy);
    var archive := s.archive + Addition(s.archive, plan, name, stamp);
    forall a | a in u && Key(a) in Already(archive) ensures HasBlock(FullLines(archive), a) {
      TidyAfterAppend(s.archive, log, instincts, plan, name, stamp, u, a);
    }
    TidyIs(archive, u);
  }

  lemma TidyIs(archive: string, u: set<seq<string>>)
    requires forall a :: a in u && Key(a) in Already(archive) ==> HasBlock(FullLines(archive), a)
    ensures Tidy(archive, u)
  {
    hide HasBlock, Already, FullLines, Key;
  }

  lemma TidyStateIs(s: State, u: set<seq<string>>)
    ensures TidyState(s, u) <==>
      ((s.memory.Some? ==> Among(EntriesOf(s.memory.value), u))
       && (!s.phase.Idle? ==> Among(EntriesOf(s.phase.original), u)) && Tidy(s.archive, u))
  {
    hide Among, EntriesOf, Tidy;
  }

  lemma TidyAppendIs(newArchive: bool, name: string, stamp: string, u: set<seq<string>>)
    requires TidyStep(newArchive, Append(name, stamp), u)
    ensures NoNewline(stamp) && (newArchive ==> NoBullet(SplitInclusive(ArchiveHeader(name))))
  {
    hide NoNewline, NoBullet, SplitInclusive, ArchiveHeader;
  }

  lemma AfterAppend(s: State, name: string, stamp: string)
    requires s.phase.Planned?
    ensures After(s, Append(name, stamp)).archive ==
      s.archive + Addition(s.archive, PlanText(s.phase.original, s.phase.policy), name, stamp)
  {
    hide Addition, PlanText;
  }

  lemma StepKeepsTidy(s: State, step: Step, u: set<seq<string>>)
    requires Distinct(u) && TidyState(s, u) && TidyStep(s.archive == "", step, u)
    ensures TidyState(After(s, step), u)
  {
    hide Distinct, Among, EntriesOf, Tidy, PlanText, Addition, GoesOn, NoNewline, NoBullet, SplitInclusive, ArchiveHeader;
    if step.Append? && s.phase.Planned? {
      AppendKeepsTidy(s, step.name, step.stamp, u);
    } else if step.Replace? && s.phase.Appended? {
      PlannedAmong(s.phase.original, s.phase.policy, u);
    }
  }

  lemma TidyIsAdmissible(s: State, step: Step, u: set<seq<string>>)
    requires TidyState(s, u) && TidyStep(s.archive == "", step, u)
    ensures Admissible(s, step)
  {
    hide Among, EntriesOf, Tidy, NoNewline, NoBullet, SplitInclusive, ArchiveHeader, Held, Key, Already, Selected;
    if step.Append? && s.phase.Planned? {
      var original, policy := s.phase.original, s.phase.policy;
      SelectedAmong(original, policy, u);
      forall e | e in Selected(original, policy) ensures Key(e) !in Already(s.archive) || Held(s.archive, e) {
        SelectedHeld(s.archive, original, policy, u, e);
      }
    }
  }

  lemma SelectedHeld(archive: string, original: string, policy: Policy, u: set<seq<string>>, e: seq<string>)
    requires Tidy(archive, u) && Among(Selected(original, policy), u) && e in Selected(original, policy)
    ensures Key(e) !in Already(archive) || Held(archive, e)
  {
    hide *;
    if Key(e) in Already(archive) {
      var log, instincts := PlannedTexts(original, policy);
      MovedEntryIn(log, instincts, e);
      AmongHas(Selected(original, policy), u, e);
      KeyOfArchival(e);
      TidyAt(archive, u, Archival(e));
      HeldMeans(archive, e);
    }
  }

  lemma ArchiveGrows(s: State, step: Step)
    ensures s.archive != "" ==> After(s, step).archive != ""
  {
    hide PlanText, Addition, GoesOn;
  }

  lemma TidyTail(newArchive: bool, later: bool, steps: seq<Step>, u: set<seq<string>>)
    requires steps != [] && TidySteps(newArchive, steps, u) && (later ==> newArchive)
    ensures TidyStep(newArchive, steps[0], u) && TidySteps(later, steps[1..], u)
  {
    hide Among, EntriesOf, NoNewline, NoBullet, SplitInclusive, ArchiveHeader;
    forall i | 0 <= i < |steps[1..]| ensures TidyStep(later, steps[1..][i], u) {
      assert TidyStep(newArchive, steps[i + 1], u);
    }
  }

  lemma {:induction false} TidyRunIsAdmissible(s: State, steps: seq<Step>, u: set<seq<string>>)
    requires Distinct(u) && TidyState(s, u) && TidySteps(s.archive == "", steps, u)
    ensures AdmissibleRun(s, steps)
    decreases |steps|
  {
    hide Distinct, TidyState, TidyStep, TidySteps, Admissible, After;
    if steps != [] {
      var next := After(s, steps[0]);
      ArchiveGrows(s, steps[0]);
      TidyTail(s.archive == "", next.archive == "", steps, u);
      TidyIsAdmissible(s, steps[0], u);
      StepKeepsTidy(s, steps[0], u);
      TidyRunIsAdmissible(next, steps[1..], u);
    }
  }

  // ----- the texts of a run -----

  function OptionalText(text: Option<string>): seq<string> {
    match text
    case Some(t) => [t]
    case None => []
  }

  /** The texts that a run is given: that of `memory.md`, the one already read, and those written
      meanwhile. */
  function TextsOf(s: State, steps: seq<Step>): seq<string> {
    OptionalText(s.memory) + (if s.phase.Idle? then [] else [s.phase.original]) + Written(steps)
  }

  function Written(steps: seq<Step>): seq<string> {
    if steps == [] then []
    else (if steps[0].Write? then OptionalText(steps[0].text) else []) + Written(steps[1..])
  }

  /** The entries of the texts, as the archive would keep them. */
  function Forms(texts: seq<string>): set<seq<string>> {
    set t, e | t in texts && e in EntriesOf(t) :: Archival(e)
  }

  /** Entries of all these texts that begin alike are alike; the archive holds in full those it
      knows the first line of; dates are one line, and a new archive's header has no bullets. */
  ghost predicate TidyRun(s: State, steps: seq<Step>) {
    var u := Forms(TextsOf(s, steps));
    && Distinct(u) && Tidy(s.archive, u) && PlainStamps(steps)
    && forall i :: 0 <= i < |steps| && steps[i].Append? && s.archive == "" ==>
         NoBullet(SplitInclusive(ArchiveHeader(steps[i].name)))
  }

  lemma FormsHave(texts: seq<string>, t: string)
    requires t in texts
    ensures Among(EntriesOf(t), Forms(texts))
  {
    hide EntriesOf, Archival;
  }

  lemma {:induction false} WrittenHas(steps: seq<Step>, i: nat)
    requires i < |steps| && steps[i].Write? && steps[i].text.Some?
    ensures steps[i].text.value in Written(steps)
  {
    if i > 0 { WrittenHas(steps[1..], i - 1); }
  }

  lemma GivenStep(s: State, steps: seq<Step>, i: nat)
    requires TidyRun(s, steps) && i < |steps|
    ensures TidyStep(s.archive == "", steps[i], Forms(TextsOf(s, steps)))
  {
    hide Distinct, Tidy, Among, EntriesOf, NoNewline, NoBullet, SplitInclusive, ArchiveHeader, Forms;
    if steps[i].Write? && steps[i].text.Some? {
      WrittenHas(steps, i);
      FormsHave(TextsOf(s, steps), steps[i].text.value);
    }
  }

  lemma GivenState(s: State, steps: seq<Step>)
    requires TidyRun(s, steps)
    ensures TidyState(s, Forms(TextsOf(s, steps)))
  {
    hide Distinct, Tidy, Among, EntriesOf, PlainStamps, NoBullet, SplitInclusive, ArchiveHeader, Forms;
    var texts := TextsOf(s, steps);
    if s.memory.Some? { FormsHave(texts, s.memory.value); }
    if !s.phase.Idle? { FormsHave(texts, s.phase.original); }
  }

  /** On such texts every run is one in which no append passes over an entry, with any policies, any
      order of steps, crashes and retries. */
  lemma NothingPassedOver(s: State, steps: seq<Step>)
    requires TidyRun(s, steps)
    ensures AdmissibleRun(s, steps)
  {
    hide TidyState, TidyStep, Forms, TextsOf, Tidy, PlainStamps, NoBullet, SplitInclusive, ArchiveHeader, AdmissibleRun;
    var u := Forms(TextsOf(s, steps));
    GivenState(s, steps);
    forall i | 0 <= i < |steps| ensures TidyStep(s.archive == "", steps[i], u) {
      GivenStep(s, steps, i);
    }
    TidyRunIsAdmissible(s, steps, u);
  }

  /** So on such texts no entry that a plan selects is ever lost, as long as the writer keeps it. */
  lemma SelectedNeverLost(s: State, policy: Policy, i: nat, steps: seq<Step>)
    requires s.phase == Idle && s.memory.Some? && i < |Selected(s.memory.value, policy)|
    requires TidyRun(s, steps) && WriterKeepsEntryInRun(s, steps, Selected(s.memory.value, policy)[i])
    ensures EntryPresent(Run(s, steps), Selected(s.memory.value, policy)[i])
  {
    hide *;
    NothingPassedOver(s, steps);
    SelectedStays(s, policy, i, steps);
  }

  /** Nor is any line that holds something. */
  lemma LineNeverLost(s: State, steps: seq<Step>, line: string)
    requires s.phase == Idle && TidyRun(s, steps) && WriterKeepsInRun(s, steps, line)
    requires Present(s, line) && !Blank(line)
    ensures Present(Run(s, steps), line)
  {
    hide TidyRun, AdmissibleRun, WriterKeepsInRun, Present, Run, Blank;
    NothingPassedOver(s, steps);
    RunKeepsLine(s, steps, line);
  }
}
