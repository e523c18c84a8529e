/** `save_raios_config` of the tray: the nineteen settings one edit after the other, and exactly
    when all of them arrive in the file. */
module TraySave {
  import opened Seqs
  import opened Text
  import opened TrayConfig
  import Words

  // ----- one edit of any text, and the other settings -----

  lemma CarryingIsTerminated(l: string, s: Setting)
    requires Carries(l, s)
    ensures Terminated(l)
  {
    hide Indent;
    assert l[|l| - 1] == SettingText(s.key, s.value)[|SettingText(s.key, s.value)| - 1];
  }

  /** What is put behind an unfinished last line leaves the settings in place. */
  lemma JoinKeepsSettled(lines: seq<string>, x: string, t: Setting)
    requires lines != [] && !Terminated(lines[|lines| - 1]) && ValidSetting(t) && Settled(lines, t)
    ensures Settled(JoinedLast(lines, x), t)
  {
    hide *;
    var h, k := SettledWitness(lines, t);
    FirstAtParts(lines, t, h, k);
    CarryingIsTerminated(lines[k], t);
    JoinedIs(lines, x);
    var out := JoinedLast(lines, x);
    assert out[..k] == lines[..k] && out[k] == lines[k];
    FirstAtSplice(lines, out, t, h, k);
    SettledAt(out, t, h, k);
  }

  /** The three ways in which an edit acts on the lines of a text. */
  lemma UpsertActs(content: string, s: Setting) returns (before: seq<string>)
    requires ValidSetting(s)
    ensures Whole(content) ==> before == SplitInclusive(content)
    ensures !Whole(content) ==> SplitInclusive(content) != []
    ensures before == SplitInclusive(content)
      || (!Whole(content) && !HasSection(SplitInclusive(content), s.section)
          && before == JoinedLast(SplitInclusive(content), "\n"))
    ensures if !Whole(content) && AtEnd(SplitInclusive(content), s)
      then SplitInclusive(Upsert(content, s)) == JoinedLast(SplitInclusive(content), SettingText(s.key, s.value))
      else SplitInclusive(Upsert(content, s)) == UpsertLines(before, s)
  {
    hide *;
    var lines := SplitInclusive(content);
    before := lines;
    AtEndIs(lines, s);
    if Whole(content) {
      UpsertByLines(content, s);
    } else {
      UnfinishedLast(content);
      if !HasSection(lines, s.section) {
        MissingBreaksFirst(content, s);
        UpsertByLines(content + "\n", s);
        BreakIsLine();
        SplitJoined(content, "\n");
        before := JoinedLast(lines, "\n");
      } else if AtEnd(lines, s) {
        JoinedText(content, s);
      } else {
        WithinByLines(content, s);
      }
    }
  }

  /** For every text, setting one key leaves another key's setting in place. */
  lemma EditKeepsSettled(content: string, s: Setting, t: Setting)
    requires ValidSetting(s) && ValidSetting(t) && s.key != t.key && Settled(SplitInclusive(content), t)
    ensures Settled(SplitInclusive(Upsert(content, s)), t)
  {
    hide *;
    var lines := SplitInclusive(content);
    var before := UpsertActs(content, s);
    if !Whole(content) {
      UnfinishedLast(content);
      JoinKeepsSettled(lines, "\n", t);
      JoinKeepsSettled(lines, SettingText(s.key, s.value), t);
    }
    UpsertKeepsOthers(before, s, t);
  }

  lemma HasNoneRemoved(p: string -> bool, lines: seq<string>, i: nat, x: string, from: nat, to: nat)
    requires from <= i <= to <= |lines| && HasNone(p, Inserted(lines, i, x)[from..to + 1])
    ensures HasNone(p, lines[from..to])
  {
    hide HasNone;
    SliceOfInserted(lines, i, x, from, to);
    HasNoneAround(p, lines[from..to], i - from, x);
  }

  lemma HasNoneAround(p: string -> bool, ls: seq<string>, i: nat, x: string)
    requires i <= |ls| && HasNone(p, Inserted(ls, i, x))
    ensures HasNone(p, ls)
  {
    var out := Inserted(ls, i, x);
    forall j | 0 <= j < |ls| ensures !p(ls[j]) {
      if j < i { assert ls[j] == out[j]; } else { assert ls[j] == out[j + 1]; }
    }
  }

  lemma StartBeforeRemoval(lines: seq<string>, t: Setting, h: nat, i: nat, x: string) returns (h': nat)
    requires i <= |lines| && StartsAt(Inserted(lines, i, x), t, h) && Neutral(x, t.key)
    ensures t.section.Some? && i < h ==> i < h - 1
    ensures h' == if t.section.Some? && i < h then h - 1 else h
    ensures StartsAt(lines, t, h')
  {
    hide *;
    var out := Inserted(lines, i, x);
    InsertedAt(lines, i, x);
    h' := h;
    if t.section.None? {
      StartsAtTop(out, t, h);
      StartsAtTop(lines, t, h);
    } else {
      var section := t.section.value;
      StartsAtNamed(out, t, h);
      NeutralToSection(x, t.key, section);
      assert h - 1 != i;
      if i < h {
        h' := h - 1;
        assert out[..h - 1] == out[0..h - 2 + 1] && lines[..h - 2] == lines[0..h - 2];
        HasNoneRemoved(HeaderOf(section), lines, i, x, 0, h - 2);
        SliceBehindInsertion(lines, i, x, h - 2, h - 2);
        StartsAtNamed(lines, t, h');
      } else {
        assert out[..h] == out[..i][..h] == lines[..i][..h] == lines[..h];
        StartStays(out, lines, t, h);
      }
    }
  }

  lemma RemovalKeepsFirst(lines: seq<string>, t: Setting, h: nat, k: nat, i: nat, x: string) returns (h': nat, k': nat)
    requires i <= |lines| && FirstAt(Inserted(lines, i, x), t, h, k) && Neutral(x, t.key) && k != i
    ensures k' == if k < i then k else k - 1
    ensures FirstAt(lines, t, h', k') && lines[k'] == Inserted(lines, i, x)[k]
  {
    hide *;
    var out := Inserted(lines, i, x);
    FirstAtIs(out, t, h, k);
    InsertedAt(lines, i, x);
    if k < i {
      h', k' := h, k;
      assert out[..k] == out[..i][..k] == lines[..i][..k] == lines[..k];
      assert out[k] == out[..i][k] == lines[k];
      FirstAtSplice(out, lines, t, h, k);
      FirstAtIs(lines, t, h, k);
    } else {
      h' := StartBeforeRemoval(lines, t, h, i, x);
      k' := k - 1;
      SliceBehindInsertion(lines, i, x, k', k');
      if t.section.None? {
        StartsAtTop(out, t, h);
        assert lines[..k'] == lines[0..k'] && out[..k] == out[0..k' + 1];
        HasNoneRemoved(IsHeaderLine, lines, i, x, 0, k');
      }
      if i < h && t.section.Some? {
        SliceBehindInsertion(lines, i, x, h', k');
      } else {
        HasNoneRemoved(AssignmentOf(t.key), lines, i, x, h, k');
      }
      FirstAtIs(lines, t, h', k');
    }
  }

  /** The first assignment of another key, followed back over an edit. */
  lemma UpsertFindsNoOther(lines: seq<string>, s: Setting, t: Setting, h: nat, k: nat) returns (h': nat, k': nat)
    requires ValidSetting(s) && s.key != t.key && HasSection(lines, s.section)
    requires FirstAt(UpsertLines(lines, s), t, h, k) && Assigns(UpsertLines(lines, s)[k], t.key)
    ensures FirstAt(lines, t, h', k') && lines[k'] == UpsertLines(lines, s)[k]
    ensures var i, end := KeyIndex(lines, s.section, s.key), RangeEnd(lines, s.section);
            k' == if i == end < k then k - 1 else k
    ensures k != KeyIndex(lines, s.section, s.key)
  {
    hide *;
    FirstAtIs(UpsertLines(lines, s), t, h, k);
    var i, end := KeyIndex(lines, s.section, s.key), RangeEnd(lines, s.section);
    if i < end {
      PresentCase(lines, s);
      var x := Rewritten(lines[i], s.key, s.value);
      var out := lines[i := x];
      RewrittenIsNeutral(lines[i], s, t.key);
      OtherKeyIsNeutral(lines[i], s.key, t.key);
      NeutralIs(x, t.key);
      assert i != k;
      ReplacementKeepsFirst(out, t, h, k, i, lines[i]);
      assert out[i := lines[i]] == lines;
      h', k' := h, k;
    } else {
      AbsentCase(lines, s);
      var x := SettingText(s.key, s.value);
      SettingTextIsNeutral(s, t.key);
      NeutralIs(x, t.key);
      InsertedAt(lines, end, x);
      h', k' := RemovalKeepsFirst(lines, t, h, k, end, x);
    }
  }

  /** Setting one key puts no other setting in place. */
  lemma UpsertSettlesNoOther(lines: seq<string>, s: Setting, t: Setting)
    requires ValidSetting(s) && ValidSetting(t) && s.key != t.key && Settled(UpsertLines(lines, s), t)
    ensures Settled(lines, t)
  {
    hide *;
    var out := UpsertLines(lines, s);
    var h, k := SettledWitness(out, t);
    FirstAtIs(out, t, h, k);
    if HasSection(lines, s.section) {
      var h', k' := UpsertFindsNoOther(lines, s, t, h, k);
      SettledAt(lines, t, h', k');
    } else {
      MissingCase(lines, s);
      var section, x := s.section.value, SettingText(s.key, s.value);
      SectionLinesAre(section);
      HeaderAssignsNothing(section, t.key);
      SettingTextIsNeutral(s, t.key);
      NeutralIs(x, t.key);
      assert out[|lines|] == "\n" && out[|lines| + 1] == HeaderText(section) + "\n" && out[|lines| + 2] == x;
      assert k < |lines|;
      assert out[..k] == lines[..k] && out[k] == lines[k];
      FirstAtSplice(out, lines, t, h, k);
      SettledAt(lines, t, h, k);
    }
  }

  // ----- `save_raios_config` -----

  function Save(content: string, ss: seq<Setting>): string
    decreases |ss|
  {
    if ss == [] then content else Save(Upsert(content, ss[0]), ss[1..])
  }

  predicate AllValid(ss: seq<Setting>) {
    forall i :: 0 <= i < |ss| ==> ValidSetting(ss[i])
  }

  predicate AllSettled(lines: seq<string>, ss: seq<Setting>) {
    forall i :: 0 <= i < |ss| ==> Settled(lines, ss[i])
  }

  predicate NoKey(ss: seq<Setting>, key: string) {
    forall i :: 0 <= i < |ss| ==> ss[i].key != key
  }

  predicate DistinctKeys(ss: seq<Setting>) {
    forall i, j :: 0 <= i < j < |ss| ==> ss[i].key != ss[j].key
  }

  function KeySet(ss: seq<Setting>): set<string> {
    set i | 0 <= i < |ss| :: ss[i].key
  }

  /** Every setting belongs to the top level or to one section. */
  predicate OnlySection(ss: seq<Setting>, section: string) {
    forall i :: 0 <= i < |ss| ==> ss[i].section == None || ss[i].section == Some(section)
  }

  predicate NamesSection(ss: seq<Setting>) {
    exists i :: 0 <= i < |ss| && ss[i].section.Some?
  }

  lemma ValidTail(ss: seq<Setting>)
    requires AllValid(ss) && ss != []
    ensures ValidSetting(ss[0]) && AllValid(ss[1..])
  {
  }

  lemma DistinctTail(ss: seq<Setting>)
    requires DistinctKeys(ss) && ss != []
    ensures NoKey(ss[1..], ss[0].key) && DistinctKeys(ss[1..])
  {
  }

  lemma SaveStep(content: string, ss: seq<Setting>)
    requires ss != []
    ensures Save(content, ss) == Save(Upsert(content, ss[0]), ss[1..])
  {
  }

  lemma SaveNothing(content: string)
    ensures Save(content, []) == content
  {
  }

  lemma {:induction false} SaveAppend(content: string, ss: seq<Setting>, s: Setting)
    ensures Save(content, ss + [s]) == Upsert(Save(content, ss), s)
    decreases |ss|
  {
    hide *;
    if ss == [] {
      SaveNothing(content);
      assert [] + [s] == [s] && [s][1..] == [];
      SaveStep(content, [s]);
      SaveNothing(Upsert(content, s));
    } else {
      SaveStep(content, ss);
      SaveStep(content, ss + [s]);
      assert (ss + [s])[1..] == ss[1..] + [s];
      SaveAppend(Upsert(content, ss[0]), ss[1..], s);
    }
  }

  lemma NoKeyTail(ss: seq<Setting>, key: string)
    requires NoKey(ss, key) && ss != []
    ensures ss[0].key != key && NoKey(ss[1..], key)
  {
  }

  lemma {:induction false} SaveKeepsSettled(content: string, ss: seq<Setting>, t: Setting)
    requires AllValid(ss) && ValidSetting(t) && NoKey(ss, t.key) && Settled(SplitInclusive(content), t)
    ensures Settled(SplitInclusive(Save(content, ss)), t)
    decreases |ss|
  {
    hide *;
    if ss == [] {
      SaveNothing(content);
    } else {
      ValidTail(ss);
      NoKeyTail(ss, t.key);
      EditKeepsSettled(content, ss[0], t);
      SaveKeepsSettled(Upsert(content, ss[0]), ss[1..], t);
      SaveStep(content, ss);
    }
  }

  /** On a whole text, no setting gets in place while others are set. */
  lemma {:induction false} SaveSettlesNoOther(content: string, ss: seq<Setting>, t: Setting)
    requires Whole(content) && AllValid(ss) && ValidSetting(t) && NoKey(ss, t.key)
    requires Settled(SplitInclusive(Save(content, ss)), t)
    ensures Settled(SplitInclusive(content), t)
    decreases |ss|
  {
    hide *;
    if ss == [] {
      SaveNothing(content);
    } else {
      ValidTail(ss);
      NoKeyTail(ss, t.key);
      UpsertByLines(content, ss[0]);
      SaveStep(content, ss);
      SaveSettlesNoOther(Upsert(content, ss[0]), ss[1..], t);
      UpsertSettlesNoOther(SplitInclusive(content), ss[0], t);
    }
  }

  lemma AllSettledCons(lines: seq<string>, ss: seq<Setting>)
    requires ss != []
    ensures AllSettled(lines, ss) <==> (Settled(lines, ss[0]) && AllSettled(lines, ss[1..]))
  {
    hide Settled;
    assert ss == [ss[0]] + ss[1..];
  }

  lemma AllSettledNone(lines: seq<string>)
    ensures AllSettled(lines, [])
  {
  }

  /** No edit of the save puts its setting behind an unfinished last line that holds something. */
  predicate NeverJoins(content: string, ss: seq<Setting>) {
    forall i :: 0 <= i < |ss| ==> !JoinsLast(Save(content, ss[..i]), ss[i])
  }

  lemma SavePrefix(content: string, ss: seq<Setting>, i: nat)
    requires 0 < i <= |ss|
    ensures Save(content, ss[..i]) == Save(Upsert(content, ss[0]), ss[1..][..i - 1])
  {
    hide *;
    SaveStep(content, ss[..i]);
    assert ss[..i][1..] == ss[1..][..i - 1];
  }

  lemma NeverJoinsStep(content: string, ss: seq<Setting>)
    requires ss != []
    ensures NeverJoins(content, ss) <==> (!JoinsLast(content, ss[0]) && NeverJoins(Upsert(content, ss[0]), ss[1..]))
  {
    hide Save, Upsert, JoinsLast;
    var after, rest := Upsert(content, ss[0]), ss[1..];
    SaveNothing(content);
    assert ss[..0] == [];
    forall i | 0 < i < |ss|
      ensures JoinsLast(Save(content, ss[..i]), ss[i]) == JoinsLast(Save(after, rest[..i - 1]), rest[i - 1])
    {
      SavePrefix(content, ss, i);
    }
    if NeverJoins(content, ss) {
      assert !JoinsLast(Save(content, ss[..0]), ss[0]);
      forall i | 0 <= i < |rest| ensures !JoinsLast(Save(after, rest[..i]), rest[i]) {
        assert !JoinsLast(Save(content, ss[..i + 1]), ss[i + 1]);
      }
    }
  }

  lemma NoSettingNeverJoins(content: string)
    ensures NeverJoins(content, [])
  {
  }

  lemma {:induction false} WholeNeverJoins(content: string, ss: seq<Setting>)
    requires Whole(content) && AllValid(ss)
    ensures NeverJoins(content, ss) && Whole(Save(content, ss))
    decreases |ss|
  {
    hide *;
    if ss == [] {
      NoSettingNeverJoins(content);
      SaveNothing(content);
    } else {
      ValidTail(ss);
      UpsertByLines(content, ss[0]);
      JoinsLastIs(content, ss[0]);
      WholeNeverJoins(Upsert(content, ss[0]), ss[1..]);
      NeverJoinsStep(content, ss);
      SaveStep(content, ss);
    }
  }

  lemma JoinLeavesWhole(content: string, s: Setting)
    requires ValidSetting(s) && JoinsLast(content, s)
    ensures Whole(Upsert(content, s))
  {
    hide *;
    JoinsLastIs(content, s);
    JoinedText(content, s);
    SettingEnds(content, s);
    WholeOf(Upsert(content, s));
  }

  lemma SettingEnds(content: string, s: Setting)
    ensures Terminated(content + SettingText(s.key, s.value))
  {
    var x := SettingText(s.key, s.value);
    assert (content + x)[|content + x| - 1] == x[|x| - 1];
  }

  /** After a save every key's first assignment in its searched range carries its value, exactly
      when no edit of the save is put behind an unfinished last line that holds something. */
  lemma {:induction false} SaveSettlesExactly(content: string, ss: seq<Setting>)
    requires AllValid(ss) && DistinctKeys(ss)
    ensures AllSettled(SplitInclusive(Save(content, ss)), ss) <==> NeverJoins(content, ss)
    decreases |ss|
  {
    hide *;
    if ss == [] {
      AllSettledNone(SplitInclusive(Save(content, ss)));
      NoSettingNeverJoins(content);
    } else {
      var s, rest, after := ss[0], ss[1..], Upsert(content, ss[0]);
      ValidTail(ss);
      DistinctTail(ss);
      SaveStep(content, ss);
      AllSettledCons(SplitInclusive(Save(content, ss)), ss);
      NeverJoinsStep(content, ss);
      UpsertSettlesExactly(content, s);
      SaveSettlesExactly(after, rest);
      if JoinsLast(content, s) {
        JoinLeavesWhole(content, s);
        if Settled(SplitInclusive(Save(after, rest)), s) { SaveSettlesNoOther(after, rest, s); }
      } else {
        SaveKeepsSettled(after, rest, s);
      }
    }
  }

  lemma SettledTextIsKept(content: string, s: Setting)
    requires Settled(SplitInclusive(content), s)
    ensures Upsert(content, s) == content
  {
    hide *;
    SettledHasSection(SplitInclusive(content), s);
    OtherIsFlattened(content, s);
    SettledIsKept(SplitInclusive(content), s);
    SplitThenFlatten(content);
  }

  /** Saving what is in place changes nothing. */
  lemma {:induction false} SavedIsKept(content: string, ss: seq<Setting>)
    requires AllSettled(SplitInclusive(content), ss)
    ensures Save(content, ss) == content
    decreases |ss|
  {
    hide *;
    if ss == [] {
      SaveNothing(content);
    } else {
      AllSettledCons(SplitInclusive(content), ss);
      SettledTextIsKept(content, ss[0]);
      SaveStep(content, ss);
      SavedIsKept(content, ss[1..]);
    }
  }

  lemma SettledHasSection(lines: seq<string>, s: Setting)
    requires Settled(lines, s)
    ensures HasSection(lines, s.section)
  {
  }

  // ----- the condition, read from the text before the save -----

  /** The edit is made before the last line of the text. */
  predicate Passes(lines: seq<string>, s: Setting) {
    HasSection(lines, s.section) && KeyIndex(lines, s.section, s.key) < |lines|
    && (KeyIndex(lines, s.section, s.key) == RangeEnd(lines, s.section)
        || KeyIndex(lines, s.section, s.key) < |lines| - 1)
  }

  /** One of the settings is put behind the unfinished last line, and all before it are set
      before the last line. */
  predicate WillJoin(content: string, ss: seq<Setting>) {
    exists i :: 0 <= i < |ss| && JoinsFirst(content, ss, i)
  }

  predicate JoinsFirst(content: string, ss: seq<Setting>, i: nat)
    requires i < |ss|
  {
    JoinsLast(content, ss[i]) && AllPass(SplitInclusive(content), ss[..i])
  }

  predicate AllPass(lines: seq<string>, ss: seq<Setting>) {
    forall i :: 0 <= i < |ss| ==> Passes(lines, ss[i])
  }

  lemma AllPassCons(lines: seq<string>, ss: seq<Setting>, i: nat)
    requires 0 < i <= |ss|
    ensures AllPass(lines, ss[..i]) <==> (Passes(lines, ss[0]) && AllPass(lines, ss[1..][..i - 1]))
  {
    hide Passes;
    var a, b := ss[..i], ss[1..][..i - 1];
    assert a == [ss[0]] + b;
    if AllPass(lines, a) {
      assert Passes(lines, a[0]);
      forall j | 0 <= j < |b| ensures Passes(lines, b[j]) { assert Passes(lines, a[j + 1]); }
    }
  }

  lemma AllPassNone(lines: seq<string>)
    ensures AllPass(lines, [])
  {
  }

  lemma WillJoinStep(content: string, ss: seq<Setting>)
    requires ss != []
    ensures WillJoin(content, ss) <==>
      (JoinsLast(content, ss[0]) || (Passes(SplitInclusive(content), ss[0]) && WillJoin(content, ss[1..])))
  {
    hide JoinsLast, Passes, AllPass, SplitInclusive;
    var lines, rest := SplitInclusive(content), ss[1..];
    AllPassNone(lines);
    assert ss[..0] == [];
    assert JoinsFirst(content, ss, 0) == JoinsLast(content, ss[0]);
    forall i | 0 < i < |ss|
      ensures JoinsFirst(content, ss, i) == (Passes(lines, ss[0]) && JoinsFirst(content, rest, i - 1))
    {
      AllPassCons(lines, ss, i);
    }
    if Passes(lines, ss[0]) && WillJoin(content, rest) {
      var i :| 0 <= i < |rest| && JoinsFirst(content, rest, i);
      assert JoinsFirst(content, ss, i + 1);
    }
  }

  lemma WillJoinNone(content: string)
    ensures !WillJoin(content, [])
  {
  }

  lemma PassesIs(lines: seq<string>, s: Setting)
    ensures Passes(lines, s) <==>
      (HasSection(lines, s.section) && KeyIndex(lines, s.section, s.key) < |lines|
       && (KeyIndex(lines, s.section, s.key) == RangeEnd(lines, s.section)
           || KeyIndex(lines, s.section, s.key) < |lines| - 1))
  {
    hide HasSection, KeyIndex, RangeEnd;
  }

  /** The first assignment of another key, followed over an edit. */
  lemma UpsertFindsOther(lines: seq<string>, s: Setting, t: Setting, h: nat, k: nat) returns (h': nat, k': nat)
    requires ValidSetting(s) && s.key != t.key && HasSection(lines, s.section)
    requires FirstAt(lines, t, h, k) && Assigns(lines[k], t.key)
    ensures FirstAt(UpsertLines(lines, s), t, h', k') && UpsertLines(lines, s)[k'] == lines[k]
    ensures var i, end := KeyIndex(lines, s.section, s.key), RangeEnd(lines, s.section);
            k' == if i == end <= k then k + 1 else k
  {
    hide *;
    FirstAtIs(lines, t, h, k);
    var i, end := KeyIndex(lines, s.section, s.key), RangeEnd(lines, s.section);
    if i < end {
      PresentCase(lines, s);
      var x := Rewritten(lines[i], s.key, s.value);
      RewrittenIsNeutral(lines[i], s, t.key);
      OtherKeyIsNeutral(lines[i], s.key, t.key);
      NeutralIs(lines[i], t.key);
      assert i != k;
      ReplacementKeepsFirst(lines, t, h, k, i, x);
      FirstAtIs(lines[i := x], t, h, k);
      h', k' := h, k;
    } else {
      AbsentCase(lines, s);
      var x := SettingText(s.key, s.value);
      SettingTextIsNeutral(s, t.key);
      h', k' := InsertionKeepsFirst(lines, t, h, k, end, x);
      FirstAtIs(Inserted(lines, end, x), t, h', k');
    }
  }

  /** Where the key is found, if it is: before the last line, or on it. */
  predicate Found(lines: seq<string>, t: Setting, last: bool) {
    HasSection(lines, t.section) && KeyIndex(lines, t.section, t.key) < RangeEnd(lines, t.section)
    && last == (KeyIndex(lines, t.section, t.key) == |lines| - 1)
  }

  lemma FoundUnfolded(lines: seq<string>, t: Setting, last: bool)
    ensures Found(lines, t, last) <==>
      (HasSection(lines, t.section) && KeyIndex(lines, t.section, t.key) < RangeEnd(lines, t.section)
       && last == (KeyIndex(lines, t.section, t.key) == |lines| - 1))
  {
    hide HasSection, KeyIndex, RangeEnd;
  }

  lemma FoundWitness(lines: seq<string>, t: Setting, last: bool) returns (h: nat, k: nat)
    requires Found(lines, t, last)
    ensures FirstAt(lines, t, h, k) && k < |lines| && Assigns(lines[k], t.key) && last == (k == |lines| - 1)
  {
    hide *;
    FoundUnfolded(lines, t, last);
    h, k := FoundIs(lines, t);
    FirstAtIs(lines, t, h, k);
  }

  lemma FoundWith(lines: seq<string>, t: Setting, h: nat, k: nat)
    requires FirstAt(lines, t, h, k) && Assigns(lines[k], t.key)
    ensures k < |lines| && Found(lines, t, k == |lines| - 1)
  {
    hide *;
    FirstAtIs(lines, t, h, k);
    FoundAt(lines, t, h, k);
    FoundUnfolded(lines, t, k == |lines| - 1);
  }

  /** How many lines an edit adds to a text that has the section. */
  lemma UpsertLength(lines: seq<string>, s: Setting)
    requires HasSection(lines, s.section)
    ensures var i, end := KeyIndex(lines, s.section, s.key), RangeEnd(lines, s.section);
            |UpsertLines(lines, s)| == if i == end then |lines| + 1 else |lines|
  {
    hide *;
    var i, end := KeyIndex(lines, s.section, s.key), RangeEnd(lines, s.section);
    if i < end {
      PresentCase(lines, s);
    } else {
      AbsentCase(lines, s);
      InsertedAt(lines, end, SettingText(s.key, s.value));
    }
  }

  lemma PassKeepsFound(lines: seq<string>, s: Setting, t: Setting, last: bool)
    requires ValidSetting(s) && s.key != t.key && Passes(lines, s)
    ensures Found(UpsertLines(lines, s), t, last) <==> Found(lines, t, last)
  {
    hide *;
    PassesIs(lines, s);
    UpsertLength(lines, s);
    var out := UpsertLines(lines, s);
    if Found(lines, t, last) {
      var h, k := FoundWitness(lines, t, last);
      var h', k' := UpsertFindsOther(lines, s, t, h, k);
      FoundWith(out, t, h', k');
    }
    if Found(out, t, last) {
      var h, k := FoundWitness(out, t, last);
      var h', k' := UpsertFindsNoOther(lines, s, t, h, k);
      FoundWith(lines, t, h', k');
    }
  }

  lemma {:induction false} FirstIndexFilter(p: string -> bool, ls: seq<string>)
    ensures FirstIndex(p, ls) < |ls| <==> Filter(p, ls) != []
  {
    if ls != [] { FirstIndexFilter(p, ls[1..]); }
  }

  lemma HasSectionFilter(lines: seq<string>, section: string)
    ensures HasSection(lines, Some(section)) <==> Filter(HeaderOf(section), lines) != []
  {
    hide FirstIndex, HeaderOf, Filter;
    FirstIndexFilter(HeaderOf(section), lines);
  }

  lemma FreshKey(key: string) returns (other: string)
    ensures other != key
  {
    other := key + "x";
  }

  /** An edit in a section that is there leaves the header lines of the text as they are. */
  lemma UpsertKeepsHeaders(lines: seq<string>, s: Setting, p: string -> bool)
    requires ValidSetting(s) && HasSection(lines, s.section)
    requires forall l :: p(l) ==> IsHeaderLine(l)
    ensures Filter(p, UpsertLines(lines, s)) == Filter(p, lines)
  {
    hide *;
    var other := FreshKey(s.key);
    var i, end := KeyIndex(lines, s.section, s.key), RangeEnd(lines, s.section);
    if i < end {
      PresentCase(lines, s);
      var x := Rewritten(lines[i], s.key, s.value);
      RewrittenIsNeutral(lines[i], s, other);
      OtherKeyIsNeutral(lines[i], s.key, other);
      NeutralIs(x, other);
      NeutralIs(lines[i], other);
      FilterReplaced(p, lines, i, x);
    } else {
      AbsentCase(lines, s);
      var x := SettingText(s.key, s.value);
      SettingTextIsNeutral(s, other);
      NeutralIs(x, other);
      FilterInserted(p, lines, end, x);
    }
  }

  lemma HeaderOfIsHeader(section: string)
    ensures forall l :: HeaderOf(section)(l) ==> IsHeaderLine(l)
  {
    hide *;
    forall l | HeaderOf(section)(l) ensures IsHeaderLine(l) {
      HeaderOfIs(section, l);
      SectionHeaderIsHeader(section, l);
    }
  }

  lemma TopHasSection(lines: seq<string>)
    ensures HasSection(lines, None)
  {
  }

  lemma UpsertKeepsSection(lines: seq<string>, s: Setting, section: Option<string>)
    requires ValidSetting(s) && HasSection(lines, s.section)
    ensures HasSection(UpsertLines(lines, s), section) == HasSection(lines, section)
  {
    hide *;
    if section.None? {
      TopHasSection(lines);
      TopHasSection(UpsertLines(lines, s));
    } else {
      HeaderOfIsHeader(section.value);
      UpsertKeepsHeaders(lines, s, HeaderOf(section.value));
      HasSectionFilter(lines, section.value);
      HasSectionFilter(UpsertLines(lines, s), section.value);
    }
  }

  lemma RangeReaches(lines: seq<string>, t: Setting)
    requires HasSection(lines, t.section)
    ensures RangeEnd(lines, t.section) == |lines| <==> t.section.Some? || Filter(IsHeaderLine, lines) == []
  {
    hide FirstIndex, IsHeaderLine, Filter;
    FirstIndexFilter(IsHeaderLine, lines);
  }

  /** The two questions about an edit, asked of where its key is found. */
  lemma AskedOfFound(lines: seq<string>, t: Setting)
    ensures AtEnd(lines, t) <==>
      (HasSection(lines, t.section) && !Found(lines, t, true) && !Found(lines, t, false)
       && (t.section.Some? || Filter(IsHeaderLine, lines) == []))
    ensures Passes(lines, t) <==>
      (HasSection(lines, t.section) && !Found(lines, t, true) && !AtEnd(lines, t))
  {
    hide *;
    AtEndIs(lines, t);
    PassesIs(lines, t);
    FoundUnfolded(lines, t, true);
    FoundUnfolded(lines, t, false);
    if HasSection(lines, t.section) { RangeReaches(lines, t); }
  }

  lemma PassKeepsAnswers(lines: seq<string>, s: Setting, t: Setting)
    requires ValidSetting(s) && s.key != t.key && Passes(lines, s)
    ensures AtEnd(UpsertLines(lines, s), t) <==> AtEnd(lines, t)
    ensures Passes(UpsertLines(lines, s), t) <==> Passes(lines, t)
  {
    hide *;
    var out := UpsertLines(lines, s);
    PassesIs(lines, s);
    AskedOfFound(lines, t);
    AskedOfFound(out, t);
    PassKeepsFound(lines, s, t, true);
    PassKeepsFound(lines, s, t, false);
    UpsertKeepsSection(lines, s, t.section);
    UpsertKeepsHeaders(lines, s, IsHeaderLine);
  }

  lemma PassKeepsLast(lines: seq<string>, s: Setting)
    requires Passes(lines, s)
    ensures lines != [] && UpsertLines(lines, s) != []
    ensures UpsertLines(lines, s)[|UpsertLines(lines, s)| - 1] == lines[|lines| - 1]
  {
    hide *;
    PassesIs(lines, s);
    var i, end := KeyIndex(lines, s.section, s.key), RangeEnd(lines, s.section);
    if i < end {
      PresentCase(lines, s);
    } else {
      AbsentCase(lines, s);
      InsertedAt(lines, end, SettingText(s.key, s.value));
      SliceBehindInsertion(lines, end, SettingText(s.key, s.value), |lines| - 1, |lines| - 1);
    }
  }

  lemma WholeByLast(content: string)
    ensures Whole(content) <==>
      (SplitInclusive(content) == [] || Terminated(SplitInclusive(content)[|SplitInclusive(content)| - 1]))
  {
    hide *;
    var lines := SplitInclusive(content);
    if !Whole(content) {
      UnfinishedLast(content);
    } else if lines != [] {
      WholeMeansComplete(content);
      CompleteLineAt(lines, |lines| - 1);
    }
  }

  lemma PassStaysUnfinished(content: string, s: Setting)
    requires ValidSetting(s) && !Whole(content) && Passes(SplitInclusive(content), s)
    ensures SplitInclusive(Upsert(content, s)) == UpsertLines(SplitInclusive(content), s)
    ensures !Whole(Upsert(content, s))
  {
    hide *;
    var lines := SplitInclusive(content);
    PassesIs(lines, s);
    WithinByLines(content, s);
    PassKeepsLast(lines, s);
    WholeByLast(content);
    WholeByLast(Upsert(content, s));
  }

  lemma FoundLastFinishes(content: string, s: Setting)
    requires ValidSetting(s) && Found(SplitInclusive(content), s, true)
    ensures Whole(Upsert(content, s))
  {
    hide *;
    var lines := SplitInclusive(content);
    FoundUnfolded(lines, s, true);
    WithinByLines(content, s);
    PresentCase(lines, s);
    var n := |lines| - 1;
    var x := Rewritten(lines[n], s.key, s.value);
    RewrittenCarries(lines[n], s);
    CarryingIsTerminated(x, s);
    assert lines[n := x][n] == x;
    WholeByLast(Upsert(content, s));
  }

  /** An edit that is not made before the last line leaves a whole text. */
  lemma OtherwiseFinishes(content: string, s: Setting)
    requires ValidSetting(s) && !Whole(content) && !Passes(SplitInclusive(content), s)
    ensures Whole(Upsert(content, s))
  {
    hide *;
    var lines := SplitInclusive(content);
    AskedOfFound(lines, s);
    if !HasSection(lines, s.section) {
      MissingBreaksFirst(content, s);
      UpsertByLines(content + "\n", s);
    } else if AtEnd(lines, s) {
      JoinedText(content, s);
      SettingEnds(content, s);
      WholeOf(Upsert(content, s));
    } else {
      FoundLastFinishes(content, s);
    }
  }

  lemma PassKeepsJoin(content: string, s: Setting, t: Setting)
    requires ValidSetting(s) && s.key != t.key && !Whole(content) && Passes(SplitInclusive(content), s)
    ensures JoinsLast(Upsert(content, s), t) <==> JoinsLast(content, t)
    ensures Passes(SplitInclusive(Upsert(content, s)), t) <==> Passes(SplitInclusive(content), t)
  {
    hide *;
    var lines := SplitInclusive(content);
    PassStaysUnfinished(content, s);
    PassKeepsLast(lines, s);
    PassKeepsAnswers(lines, s, t);
    JoinsLastIs(content, t);
    JoinsLastIs(Upsert(content, s), t);
  }

  lemma {:induction false} PassKeepsWillJoin(content: string, s: Setting, ss: seq<Setting>)
    requires ValidSetting(s) && NoKey(ss, s.key) && !Whole(content) && Passes(SplitInclusive(content), s)
    ensures WillJoin(Upsert(content, s), ss) <==> WillJoin(content, ss)
    decreases |ss|
  {
    hide *;
    if ss == [] {
      WillJoinNone(content);
      WillJoinNone(Upsert(content, s));
    } else {
      NoKeyTail(ss, s.key);
      PassKeepsJoin(content, s, ss[0]);
      WillJoinStep(content, ss);
      WillJoinStep(Upsert(content, s), ss);
      PassKeepsWillJoin(content, s, ss[1..]);
    }
  }

  lemma JoinPassesNot(content: string, s: Setting)
    requires JoinsLast(content, s)
    ensures !Whole(content) && !Passes(SplitInclusive(content), s)
  {
    hide *;
    JoinsLastIs(content, s);
    AskedOfFound(SplitInclusive(content), s);
  }

  lemma {:induction false} WholeWillNotJoin(content: string, ss: seq<Setting>)
    requires Whole(content)
    ensures !WillJoin(content, ss)
    decreases |ss|
  {
    hide *;
    if ss == [] {
      WillJoinNone(content);
    } else {
      JoinsLastIs(content, ss[0]);
      WillJoinStep(content, ss);
      WholeWillNotJoin(content, ss[1..]);
    }
  }

  /** Whether an edit of the save joins is seen from the text before the save. */
  lemma {:induction false} JoinIsForeseen(content: string, ss: seq<Setting>)
    requires AllValid(ss) && DistinctKeys(ss)
    ensures NeverJoins(content, ss) <==> !WillJoin(content, ss)
    decreases |ss|
  {
    hide *;
    if ss == [] {
      NoSettingNeverJoins(content);
      WillJoinNone(content);
    } else if Whole(content) {
      WholeNeverJoins(content, ss);
      WholeWillNotJoin(content, ss);
    } else {
      var s, rest, after := ss[0], ss[1..], Upsert(content, ss[0]);
      ValidTail(ss);
      DistinctTail(ss);
      NeverJoinsStep(content, ss);
      WillJoinStep(content, ss);
      if Passes(SplitInclusive(content), s) {
        PassKeepsWillJoin(content, s, rest);
        JoinIsForeseen(after, rest);
        if JoinsLast(content, s) { JoinPassesNot(content, s); }
      } else {
        OtherwiseFinishes(content, s);
        WholeNeverJoins(after, rest);
      }
    }
  }

  // ----- the lines that are not the tray's -----

  predicate NotBlank(l: string) {
    !HasNone(NotSpace, l)
  }

  /** The lines that hold something and assign none of the keys, each with a line break. */
  function OtherLines(lines: seq<string>, keys: set<string>): seq<string> {
    Map(Ended, Filter(NotBlank, Filter(Foreign(keys), lines)))
  }

  predicate IsOther(l: string, keys: set<string>) {
    AssignsNone(l, keys) && NotBlank(l)
  }

  lemma OtherLinesAppend(a: seq<string>, b: seq<string>, keys: set<string>)
    ensures OtherLines(a + b, keys) == OtherLines(a, keys) + OtherLines(b, keys)
  {
    hide Filter, Map, Ended, NotBlank;
    FilterAppend(Foreign(keys), a, b);
    FilterAppend(NotBlank, Filter(Foreign(keys), a), Filter(Foreign(keys), b));
    MapAppend(Ended, Filter(NotBlank, Filter(Foreign(keys), a)), Filter(NotBlank, Filter(Foreign(keys), b)));
  }

  lemma ForeignOf(l: string, keys: set<string>)
    ensures Foreign(keys)(l) == AssignsNone(l, keys)
  {
  }

  lemma OtherLineAlone(l: string, keys: set<string>)
    ensures OtherLines([l], keys) == if IsOther(l, keys) then [Ended(l)] else []
  {
    hide Ended, NotBlank, Foreign, AssignsNone;
    ForeignOf(l, keys);
    FilterOne(Foreign(keys), l);
    FilterOne(NotBlank, l);
    assert Filter(NotBlank, []) == [] && Map(Ended, []) == [];
    assert Map(Ended, [l]) == [Ended(l)];
  }

  /** The last line makes the difference. */
  lemma OtherLinesLast(front: seq<string>, l: string, keys: set<string>)
    ensures OtherLines(front + [l], keys) == OtherLines(front, keys) + if IsOther(l, keys) then [Ended(l)] else []
  {
    hide *;
    OtherLinesAppend(front, [l], keys);
    OtherLineAlone(l, keys);
  }

  lemma OtherLinesOf(lines: seq<string>, more: seq<string>, after: seq<string>, keys: set<string>)
    requires Filter(Foreign(keys), after) == Filter(Foreign(keys), lines) + more
    ensures OtherLines(after, keys) == OtherLines(lines, keys) + Map(Ended, Filter(NotBlank, more))
  {
    hide Filter, Map, Ended, NotBlank;
    FilterAppend(NotBlank, Filter(Foreign(keys), lines), more);
    MapAppend(Ended, Filter(NotBlank, Filter(Foreign(keys), lines)), Filter(NotBlank, more));
  }

  /** The header line that a missing section gets. */
  function Header(lines: seq<string>, section: Option<string>): seq<string> {
    if HasSection(lines, section) then [] else [HeaderText(section.value) + "\n"]
  }

  lemma HeaderIs(lines: seq<string>, section: Option<string>)
    ensures HasSection(lines, section) ==> Header(lines, section) == []
    ensures !HasSection(lines, section) ==>
      section.Some? && Header(lines, section) == [HeaderText(section.value) + "\n"]
  {
  }

  lemma HeaderHolds(section: string)
    ensures NotBlank(HeaderText(section) + "\n") && !NotBlank("\n") && Terminated(HeaderText(section) + "\n")
  {
    var l := HeaderText(section) + "\n";
    assert NotSpace(l[0]);
    assert !NotSpace("\n"[0]);
  }

  lemma AddedHeader(lines: seq<string>, section: Option<string>)
    ensures Map(Ended, Filter(NotBlank, Added(lines, section))) == Header(lines, section)
  {
    hide HeaderText, HasSection, NotBlank, Filter;
    if HasSection(lines, section) {
      AddedIs(lines, section);
      HeaderIs(lines, section);
      FilterNone(NotBlank, []);
    } else {
      AddedMissing(lines, section);
      HeaderIs(lines, section);
      var l := HeaderText(section.value) + "\n";
      HeaderHolds(section.value);
      FilterCons(NotBlank, "\n", [l]);
      FilterOne(NotBlank, l);
      assert ["\n"] + [l] == ["\n", l];
      assert Ended(l) == l;
    }
  }

  lemma UpsertKeepsOtherLines(lines: seq<string>, s: Setting, keys: set<string>)
    requires ValidSetting(s) && s.key in keys
    ensures OtherLines(UpsertLines(lines, s), keys) == OtherLines(lines, keys) + Header(lines, s.section)
  {
    hide *;
    UpsertKeepsForeign(lines, s, keys);
    OtherLinesOf(lines, Added(lines, s.section), UpsertLines(lines, s), keys);
    AddedHeader(lines, s.section);
  }

  /** The setting is put behind an unfinished last line that is not the tray's. */
  predicate Spoils(content: string, s: Setting, keys: set<string>) {
    JoinsLast(content, s) && LastIsForeign(content, keys)
  }

  predicate LastIsForeign(content: string, keys: set<string>) {
    var lines := SplitInclusive(content);
    lines != [] && AssignsNone(lines[|lines| - 1], keys)
  }

  lemma SpoilsIs(content: string, s: Setting, keys: set<string>)
    ensures Spoils(content, s, keys) <==> (JoinsLast(content, s) && LastIsForeign(content, keys))
  {
  }

  lemma LastIsForeignIs(content: string, keys: set<string>)
    ensures LastIsForeign(content, keys) <==>
      (SplitInclusive(content) != [] && AssignsNone(SplitInclusive(content)[|SplitInclusive(content)| - 1], keys))
  {
    hide SplitInclusive, AssignsNone;
  }

  // Text behind an assignment leaves it one, and a line break makes none.

  lemma EqualsStays(tail: string, x: string)
    requires EqualsFirst(tail)
    ensures EqualsFirst(tail + x)
  {
    hide FirstIndex;
    var e := FirstIndex(NotSpace, tail);
    FirstIndexOf(NotSpace, tail[..e], tail[e..] + x);
    assert tail[..e] + (tail[e..] + x) == tail + x;
  }

  lemma BreakIsNoEquals(tail: string)
    requires EqualsFirst(tail + "\n")
    ensures EqualsFirst(tail)
  {
    hide FirstIndex;
    var e := FirstIndex(NotSpace, tail);
    if e < |tail| {
      FirstIndexOf(NotSpace, tail[..e], tail[e..] + "\n");
      assert tail[..e] + (tail[e..] + "\n") == tail + "\n";
    } else {
      assert tail[..e] == tail;
      FirstIndexSkip(NotSpace, tail, "\n");
    }
  }

  lemma AssignsFromStays(rest: string, x: string, key: string)
    requires AssignsFrom(rest, key)
    ensures AssignsFrom(rest + x, key)
  {
    hide *;
    var k := FirstIndex(NotKeyChar, rest);
    AssignsFromAt(rest, key, k);
    EqualsSomewhere(rest[k..]);
    KeyRunEnds(rest, x, k);
    JoinedPieces(rest, k, x);
    EqualsStays(rest[k..], x);
    AssignsFromAt(rest + x, key, k);
  }

  lemma EqualsSomewhere(tail: string)
    requires EqualsFirst(tail)
    ensures tail != ""
  {
  }

  lemma BreakEndsKey(rest: string)
    ensures FirstIndex(NotKeyChar, rest + "\n") == FirstIndex(NotKeyChar, rest)
  {
    hide FirstIndex;
    var k := FirstIndex(NotKeyChar, rest);
    if k < |rest| {
      KeyRunEnds(rest, "\n", k);
    } else {
      assert rest[..k] == rest;
      FirstIndexOf(NotKeyChar, rest, "\n");
    }
  }

  lemma BreakAssignsNot(rest: string, key: string)
    requires AssignsFrom(rest + "\n", key)
    ensures AssignsFrom(rest, key)
  {
    hide *;
    var k := FirstIndex(NotKeyChar, rest);
    BreakEndsKey(rest);
    AssignsFromAt(rest, key, k);
    AssignsFromAt(rest + "\n", key, k);
    JoinedPieces(rest, k, "\n");
    BreakIsNoEquals(rest[k..]);
  }

  lemma IndentStays(l: string, x: string)
    requires Indent(l) < |l|
    ensures Indent(l + x) == Indent(l) && (l + x)[Indent(l)..] == l[Indent(l)..] + x
  {
    hide FirstIndex;
    var n := Indent(l);
    assert l[..n] + (l[n..] + x) == l + x;
    FirstIndexOf(NotSpace, l[..n], l[n..] + x);
  }

  lemma AssignsStays(l: string, x: string, key: string)
    requires Assigns(l, key)
    ensures Assigns(l + x, key)
  {
    hide *;
    AssignsIsAssignment(l, key);
    AssignmentStartsWithKey(l);
    IndentStays(l, x);
    KeyAt(l, Indent(l));
    KeyAt(l + x, Indent(l));
    AssignsFromStays(l[Indent(l)..], x, key);
  }

  lemma IndentIsFirst(l: string)
    ensures Indent(l) == FirstIndex(NotSpace, l) && l[..|l|] == l
    ensures HasNone(NotSpace, l[..Indent(l)]) && !NotSpace('\n')
  {
  }

  lemma BreakLeavesBlank(l: string)
    ensures NotBlank(l + "\n") <==> NotBlank(l)
  {
    if NotBlank(l) {
      var i :| 0 <= i < |l| && NotSpace(l[i]);
      assert NotSpace((l + "\n")[i]);
    } else {
      forall i | 0 <= i < |l + "\n"| ensures !NotSpace((l + "\n")[i]) {
        assert (l + "\n")[i] == if i < |l| then l[i] else '\n';
      }
    }
  }

  lemma BlankHasNoIndent(l: string)
    ensures NotBlank(l) <==> Indent(l) < |l|
  {
    hide FirstIndex;
    IndentIsFirst(l);
  }

  lemma BreakLeavesKey(l: string, key: string)
    ensures Assigns(l + "\n", key) <==> Assigns(l, key)
  {
    hide *;
    if Assigns(l, key) {
      AssignsStays(l, "\n", key);
    } else if Assigns(l + "\n", key) {
      AssignsIsAssignment(l + "\n", key);
      AssignmentStartsWithKey(l + "\n");
      BlankHasNoIndent(l + "\n");
      BreakLeavesBlank(l);
      BlankHasNoIndent(l);
      IndentStays(l, "\n");
      KeyAt(l, Indent(l));
      KeyAt(l + "\n", Indent(l));
      BreakAssignsNot(l[Indent(l)..], key);
    }
  }

  lemma BreakLeavesForeign(l: string, keys: set<string>)
    ensures AssignsNone(l + "\n", keys) <==> AssignsNone(l, keys)
  {
    hide Assigns;
    forall k ensures Assigns(l + "\n", k) <==> Assigns(l, k) { BreakLeavesKey(l, k); }
  }

  lemma IsOtherIs(l: string, keys: set<string>)
    ensures IsOther(l, keys) <==> (AssignsNone(l, keys) && NotBlank(l))
  {
    hide AssignsNone, NotBlank;
  }

  lemma EndedIs(l: string)
    ensures Ended(l) == if Terminated(l) then l else l + "\n"
  {
  }

  lemma BreakLeavesOther(l: string, keys: set<string>)
    requires !Terminated(l)
    ensures IsOther(l + "\n", keys) <==> IsOther(l, keys)
    ensures Ended(l + "\n") == Ended(l)
  {
    hide *;
    IsOtherIs(l, keys);
    IsOtherIs(l + "\n", keys);
    BreakLeavesForeign(l, keys);
    BreakLeavesBlank(l);
    EndedIs(l);
    EndedIs(l + "\n");
    BreakTerminates(l);
  }

  lemma BreakTerminates(l: string)
    ensures Terminated(l + "\n")
  {
  }

  lemma AssignmentIsNotOther(l: string, key: string, keys: set<string>)
    requires key in keys && Assigns(l, key)
    ensures !IsOther(l, keys)
  {
    hide Assigns;
  }

  /** The last line of the joined lines, beside the others. */
  lemma JoinedOtherLines(lines: seq<string>, x: string, keys: set<string>)
    requires lines != []
    ensures var front, l := OtherLines(lines[..|lines| - 1], keys), lines[|lines| - 1];
            OtherLines(lines, keys) == front + (if IsOther(l, keys) then [Ended(l)] else [])
            && OtherLines(JoinedLast(lines, x), keys) == front + if IsOther(l + x, keys) then [Ended(l + x)] else []
  {
    hide *;
    LastAndInit(lines);
    JoinedIs(lines, x);
    OtherLinesLast(lines[..|lines| - 1], lines[|lines| - 1], keys);
    OtherLinesLast(lines[..|lines| - 1], lines[|lines| - 1] + x, keys);
  }

  /** A setting put behind blank space, or behind another of the tray's assignments. */
  lemma JoinedIsOwn(l: string, s: Setting, keys: set<string>)
    requires ValidSetting(s) && s.key in keys && !IsOther(l, keys)
    ensures !IsOther(l + SettingText(s.key, s.value), keys)
  {
    hide *;
    var x := SettingText(s.key, s.value);
    IsOtherIs(l, keys);
    if NotBlank(l) {
      var key := SomeKey(l, keys);
      AssignsStays(l, x, key);
      AssignmentIsNotOther(l + x, key, keys);
    } else {
      NotBlankIs(l);
      BlankThenSetting(l, s);
      CarryingLine(l + x, s);
      AssignmentIsNotOther(l + x, s.key, keys);
    }
  }

  lemma NotBlankIs(l: string)
    ensures NotBlank(l) <==> !HasNone(NotSpace, l)
  {
    hide HasNone;
  }

  lemma SomeKey(l: string, keys: set<string>) returns (key: string)
    requires !AssignsNone(l, keys)
    ensures key in keys && Assigns(l, key)
  {
    hide Assigns;
    key :| key in keys && Assigns(l, key);
  }

  lemma BreakKeepsHeaders(content: string, s: Setting)
    requires !Whole(content) && !HasSection(SplitInclusive(content), s.section)
    ensures SplitInclusive(content) != []
    ensures Header(JoinedLast(SplitInclusive(content), "\n"), s.section) == Header(SplitInclusive(content), s.section)
  {
    hide *;
    var lines := SplitInclusive(content);
    TopHasSection(lines);
    BreakIsLine();
    SplitJoined(content, "\n");
    BreakLeavesSections(content, s.section.value);
    HeaderIs(lines, s.section);
    HeaderIs(JoinedLast(lines, "\n"), s.section);
  }

  lemma JoinedKeepsOtherLines(content: string, s: Setting, keys: set<string>)
    requires ValidSetting(s) && s.key in keys && !Spoils(content, s, keys)
    requires !Whole(content) && AtEnd(SplitInclusive(content), s)
    ensures OtherLines(SplitInclusive(Upsert(content, s)), keys) == OtherLines(SplitInclusive(content), keys)
  {
    hide *;
    var lines, x := SplitInclusive(content), SettingText(s.key, s.value);
    JoinedText(content, s);
    JoinedOtherLines(lines, x, keys);
    var l := lines[|lines| - 1];
    SpoilsIs(content, s, keys);
    LastIsForeignIs(content, keys);
    JoinsLastIs(content, s);
    IsOtherIs(l, keys);
    NotBlankIs(l);
    JoinedIsOwn(l, s, keys);
  }

  /** For every text: unless the setting is put behind a line that is not the tray's, every such
      line stays, and the only new one is the header of a missing section. */
  lemma EditKeepsOtherLines(content: string, s: Setting, keys: set<string>)
    requires ValidSetting(s) && s.key in keys && !Spoils(content, s, keys)
    ensures OtherLines(SplitInclusive(Upsert(content, s)), keys)
      == OtherLines(SplitInclusive(content), keys) + Header(SplitInclusive(content), s.section)
  {
    hide *;
    var lines := SplitInclusive(content);
    var before := UpsertActs(content, s);
    HeaderIs(lines, s.section);
    if !Whole(content) && AtEnd(lines, s) {
      AtEndIs(lines, s);
      JoinedKeepsOtherLines(content, s, keys);
      assert OtherLines(lines, keys) + [] == OtherLines(lines, keys);
    } else {
      UpsertKeepsOtherLines(before, s, keys);
      if before != lines {
        UnfinishedLast(content);
        JoinedOtherLines(lines, "\n", keys);
        BreakLeavesOther(lines[|lines| - 1], keys);
        BreakKeepsHeaders(content, s);
      }
    }
  }

  lemma HeaderIsOther(section: string, l: string, keys: set<string>)
    requires IsSectionHeader(section, l)
    ensures IsOther(l, keys) && IsSectionHeader(section, Ended(l))
  {
    hide *;
    SectionHeaderIsHeader(section, l);
    HeaderLineIsOther(l, keys);
    EndedIs(l);
    BreakLeavesStrip(l);
    IsSectionHeaderIs(section, l);
    IsSectionHeaderIs(section, Ended(l));
  }

  lemma IsSectionHeaderIs(section: string, l: string)
    ensures IsSectionHeader(section, l) <==> Strip(l) == HeaderText(section)
  {
    hide Strip, HeaderText;
  }

  lemma HeaderLineIsOther(l: string, keys: set<string>)
    requires IsHeaderLine(l)
    ensures IsOther(l, keys)
  {
    hide IsHeaderLine, Assigns, Indent, HasNone;
    HeaderStartsWithBracket(l);
    BlankHasNoIndent(l);
    forall k ensures !Assigns(l, k) {
      if Assigns(l, k) {
        AssignsIsAssignment(l, k);
        AssignmentIsNoHeader(l);
      }
    }
  }

  lemma OtherLinesHave(lines: seq<string>, keys: set<string>)
    ensures forall l :: l in lines && IsOther(l, keys) ==> Ended(l) in OtherLines(lines, keys)
    ensures forall m :: m in OtherLines(lines, keys) ==> exists l :: l in lines && m == Ended(l)
  {
    hide AssignsNone, NotBlank, Ended;
    var kept := Filter(NotBlank, Filter(Foreign(keys), lines));
    forall l | l in lines && IsOther(l, keys) ensures Ended(l) in OtherLines(lines, keys) {
      ForeignOf(l, keys);
      assert l in kept;
      var i :| 0 <= i < |kept| && kept[i] == l;
      assert OtherLines(lines, keys)[i] == Ended(l);
    }
    forall m | m in OtherLines(lines, keys) ensures exists l :: l in lines && m == Ended(l) {
      var i :| 0 <= i < |kept| && OtherLines(lines, keys)[i] == m;
      assert kept[i] in lines;
    }
  }

  lemma HasSectionWhen(lines: seq<string>, section: string)
    ensures HasSection(lines, Some(section)) <==> exists l :: l in lines && IsSectionHeader(section, l)
  {
    hide FirstIndex, IsSectionHeader, Filter;
    HasSectionFilter(lines, section);
    var fs := Filter(HeaderOf(section), lines);
    if fs != [] { assert fs[0] in lines && IsSectionHeader(section, fs[0]); }
    if l :| l in lines && IsSectionHeader(section, l) { assert l in fs; }
  }

  lemma EndedHeader(section: string, l: string)
    ensures IsSectionHeader(section, Ended(l)) <==> IsSectionHeader(section, l)
  {
    hide *;
    EndedIs(l);
    BreakLeavesStrip(l);
    IsSectionHeaderIs(section, l);
    IsSectionHeaderIs(section, Ended(l));
  }

  /** Whether the text has a section is seen from the lines that are not the tray's. */
  lemma HasSectionAmongOthers(lines: seq<string>, section: string, keys: set<string>)
    ensures HasSection(lines, Some(section)) <==>
      exists m :: m in OtherLines(lines, keys) && IsSectionHeader(section, m)
  {
    hide *;
    HasSectionWhen(lines, section);
    OtherLinesHave(lines, keys);
    if l :| l in lines && IsSectionHeader(section, l) {
      HeaderIsOther(section, l, keys);
      assert Ended(l) in OtherLines(lines, keys);
    }
    if m :| m in OtherLines(lines, keys) && IsSectionHeader(section, m) {
      var l :| l in lines && m == Ended(l);
      EndedHeader(section, l);
    }
  }

  lemma SameOthersSameSections(a: seq<string>, b: seq<string>, section: string, keys: set<string>)
    requires OtherLines(a, keys) == OtherLines(b, keys)
    ensures HasSection(a, Some(section)) == HasSection(b, Some(section))
  {
    hide *;
    HasSectionAmongOthers(a, section, keys);
    HasSectionAmongOthers(b, section, keys);
  }

  lemma EndsWithHeader(a: seq<string>, b: seq<string>, section: string, keys: set<string>)
    requires OtherLines(b, keys) == OtherLines(a, keys) + [HeaderText(section) + "\n"]
    ensures HasSection(b, Some(section))
  {
    hide *;
    var h := HeaderText(section) + "\n";
    HasSectionAmongOthers(b, section, keys);
    HeaderLineReads(section);
    assert OtherLines(b, keys)[|OtherLines(a, keys)|] == h;
  }

  // ----- which lines a save adds -----

  predicate NeverSpoils(content: string, ss: seq<Setting>, keys: set<string>) {
    NeverJoins(content, ss) || !LastIsForeign(content, keys)
  }

  lemma NeverSpoilsIs(content: string, ss: seq<Setting>, keys: set<string>)
    ensures NeverSpoils(content, ss, keys) <==> (NeverJoins(content, ss) || !LastIsForeign(content, keys))
  {
    hide NeverJoins, LastIsForeign;
  }

  lemma OnlySectionTail(ss: seq<Setting>, section: string)
    requires OnlySection(ss, section) && ss != []
    ensures OnlySection(ss[1..], section) && (ss[0].section == None || ss[0].section == Some(section))
    ensures NamesSection(ss) <==> ss[0].section.Some? || NamesSection(ss[1..])
  {
    if NamesSection(ss) && ss[0].section.None? {
      var i :| 0 <= i < |ss| && ss[i].section.Some?;
      assert ss[1..][i - 1].section.Some?;
    } else if NamesSection(ss[1..]) {
      var i :| 0 <= i < |ss[1..]| && ss[1..][i].section.Some?;
      assert ss[i + 1].section.Some?;
    }
  }

  /** The header a save appends: that of the one section, when it is needed and missing. */
  function Appended(lines: seq<string>, ss: seq<Setting>, section: string): seq<string> {
    if NamesSection(ss) then Header(lines, Some(section)) else []
  }

  lemma AppendedIs(lines: seq<string>, ss: seq<Setting>, section: string)
    ensures Appended(lines, ss, section) == if NamesSection(ss) then Header(lines, Some(section)) else []
  {
    hide NamesSection, Header;
  }

  lemma AppendedStep(lines: seq<string>, after: seq<string>, ss: seq<Setting>, section: string, keys: set<string>)
    requires ss != [] && OnlySection(ss, section)
    requires OtherLines(after, keys) == OtherLines(lines, keys) + Header(lines, ss[0].section)
    ensures Appended(lines, ss, section) == Header(lines, ss[0].section) + Appended(after, ss[1..], section)
  {
    hide *;
    var s := ss[0];
    OnlySectionTail(ss, section);
    AppendedIs(lines, ss, section);
    AppendedIs(after, ss[1..], section);
    TopHasSection(lines);
    HeaderIs(lines, s.section);
    HeaderIs(lines, Some(section));
    HeaderIs(after, Some(section));
    if HasSection(lines, s.section) {
      assert OtherLines(lines, keys) + [] == OtherLines(lines, keys);
      SameOthersSameSections(lines, after, section, keys);
    } else {
      EndsWithHeader(lines, after, section, keys);
    }
  }

  lemma KeySetHas(ss: seq<Setting>, keys: set<string>)
    requires ss != [] && KeySet(ss) <= keys
    ensures ss[0].key in keys && KeySet(ss[1..]) <= keys
  {
    assert ss[0].key in KeySet(ss);
    forall k | k in KeySet(ss[1..]) ensures k in keys {
      var i :| 0 <= i < |ss[1..]| && k == ss[1..][i].key;
      assert ss[i + 1].key in KeySet(ss);
    }
  }

  lemma AppendedNone(lines: seq<string>, section: string)
    ensures Appended(lines, [], section) == []
  {
  }

  /** What an edit before the last line leaves for the edits that follow. */
  lemma NeverSpoilsRest(content: string, ss: seq<Setting>, keys: set<string>)
    requires AllValid(ss) && ss != []
    ensures NeverSpoils(content, ss, keys) <==>
      (!Spoils(content, ss[0], keys) && NeverSpoils(Upsert(content, ss[0]), ss[1..], keys))
  {
    hide *;
    var s, after := ss[0], Upsert(content, ss[0]);
    ValidTail(ss);
    NeverSpoilsIs(content, ss, keys);
    NeverSpoilsIs(after, ss[1..], keys);
    NeverJoinsStep(content, ss);
    SpoilsIs(content, s, keys);
    JoinsLastIs(content, s);
    if Whole(content) {
      UpsertByLines(content, s);
      WholeNeverJoins(after, ss[1..]);
    } else if Passes(SplitInclusive(content), s) {
      PassStaysUnfinished(content, s);
      PassKeepsLast(SplitInclusive(content), s);
      LastIsForeignIs(content, keys);
      LastIsForeignIs(after, keys);
      if JoinsLast(content, s) { JoinPassesNot(content, s); }
    } else {
      OtherwiseFinishes(content, s);
      WholeNeverJoins(after, ss[1..]);
    }
  }

  /** Every line that is not the tray's is still there, unchanged and in order, and nothing else
      of that kind was added but the header of a missing section. */
  lemma {:induction false} SaveKeepsOthers(content: string, ss: seq<Setting>, keys: set<string>, section: string)
    requires AllValid(ss) && KeySet(ss) <= keys && OnlySection(ss, section) && NeverSpoils(content, ss, keys)
    ensures OtherLines(SplitInclusive(Save(content, ss)), keys)
      == OtherLines(SplitInclusive(content), keys) + Appended(SplitInclusive(content), ss, section)
    decreases |ss|
  {
    hide *;
    var lines := SplitInclusive(content);
    if ss == [] {
      SaveNothing(content);
      AppendedNone(lines, section);
      assert OtherLines(lines, keys) + [] == OtherLines(lines, keys);
    } else {
      var after := Upsert(content, ss[0]);
      ValidTail(ss);
      KeySetHas(ss, keys);
      OnlySectionTail(ss, section);
      NeverSpoilsRest(content, ss, keys);
      EditKeepsOtherLines(content, ss[0], keys);
      SaveKeepsOthers(after, ss[1..], keys, section);
      SaveStep(content, ss);
      AppendedStep(lines, SplitInclusive(after), ss, section, keys);
      var a, b, c := OtherLines(lines, keys), Header(lines, ss[0].section),
        Appended(SplitInclusive(after), ss[1..], section);
      assert a + b + c == a + (b + c);
    }
  }

  lemma SettingIsMore(l: string, s: Setting)
    requires ValidSetting(s)
    ensures l + SettingText(s.key, s.value) != l + "\n" && Terminated(l + SettingText(s.key, s.value))
  {
    var x := SettingText(s.key, s.value);
    assert |x| > 1;
    SettingEnds(l, s);
  }

  lemma AppendedHeader(lines: seq<string>, ss: seq<Setting>, section: string)
    ensures Appended(lines, ss, section) == [] || Appended(lines, ss, section) == [HeaderText(section) + "\n"]
  {
    hide *;
    AppendedIs(lines, ss, section);
    HeaderIs(lines, Some(section));
  }

  /** A line that reads as a section's header is not the tray's, whatever is put behind it. */
  lemma HeaderJoined(l: string, section: string, x: string, keys: set<string>)
    requires l + "\n" == HeaderText(section) + "\n"
    ensures IsOther(l + x, keys)
  {
    hide IsHeaderLine, Assigns, HasNone, FirstIndex, IsAssignment;
    assert l == (l + "\n")[..|l|] == (HeaderText(section) + "\n")[..|l|] == HeaderText(section);
    assert "" + (l + x) == l + x && NotSpace(l[0]);
    FirstIndexOf(NotSpace, "", l + x);
    BlankHasNoIndent(l + x);
    BracketIsNoKeyChar();
    forall k ensures !Assigns(l + x, k) {
      if Assigns(l + x, k) {
        AssignsIsAssignment(l + x, k);
        AssignmentStartsWithKey(l + x);
      }
    }
  }

  /** After a setting was put behind a line that is not the tray's, the lines that are not the
      tray's are no longer those of the text before. */
  lemma SpoiledLines(content: string, s: Setting, keys: set<string>, more: seq<string>, section: string)
    requires ValidSetting(s) && Spoils(content, s, keys)
    requires more == [] || more == [HeaderText(section) + "\n"]
    ensures !(OtherLines(SplitInclusive(content), keys) <= OtherLines(SplitInclusive(Upsert(content, s)), keys) + more)
  {
    hide *;
    var lines, x := SplitInclusive(content), SettingText(s.key, s.value);
    SpoilsIs(content, s, keys);
    JoinsLastIs(content, s);
    LastIsForeignIs(content, keys);
    JoinedText(content, s);
    JoinedOtherLines(lines, x, keys);
    UnfinishedLast(content);
    var front, l := OtherLines(lines[..|lines| - 1], keys), lines[|lines| - 1];
    IsOtherIs(l, keys);
    NotBlankIs(l);
    EndedIs(l);
    EndedIs(l + x);
    SettingIsMore(l, s);
    var a, b := OtherLines(lines, keys), OtherLines(SplitInclusive(Upsert(content, s)), keys) + more;
    assert a[|front|] == l + "\n";
    if IsOther(l + x, keys) {
      assert b[|front|] == l + x;
    } else {
      assert b == front + more;
      if l + "\n" == HeaderText(section) + "\n" { HeaderJoined(l, section, x, keys); }
    }
    DifferAt(a, b, |front|);
  }

  lemma DifferAt(a: seq<string>, b: seq<string>, i: nat)
    requires i < |a| && (i < |b| ==> a[i] != b[i])
    ensures !(a <= b)
  {
  }

  /** The lines that are not the tray's come first in what the save leaves of that kind, exactly
      when no edit is put behind such a line. */
  lemma {:induction false} SaveKeepsOthersExactly(content: string, ss: seq<Setting>, keys: set<string>, section: string)
    requires AllValid(ss) && KeySet(ss) <= keys && OnlySection(ss, section)
    ensures OtherLines(SplitInclusive(content), keys) <= OtherLines(SplitInclusive(Save(content, ss)), keys)
      <==> NeverSpoils(content, ss, keys)
    decreases |ss|
  {
    hide *;
    if NeverSpoils(content, ss, keys) {
      SaveKeepsOthers(content, ss, keys, section);
    } else if ss == [] {
      NoSettingNeverJoins(content);
      NeverSpoilsIs(content, ss, keys);
    } else {
      var s, rest, after := ss[0], ss[1..], Upsert(content, ss[0]);
      ValidTail(ss);
      KeySetHas(ss, keys);
      OnlySectionTail(ss, section);
      NeverSpoilsRest(content, ss, keys);
      SaveStep(content, ss);
      if Spoils(content, s, keys) {
        SpoilsIs(content, s, keys);
        JoinLeavesWhole(content, s);
        WholeNeverJoins(after, rest);
        NeverSpoilsIs(after, rest, keys);
        SaveKeepsOthers(after, rest, keys, section);
        AppendedHeader(SplitInclusive(after), rest, section);
        SpoiledLines(content, s, keys, Appended(SplitInclusive(after), rest, section), section);
      } else {
        EditKeepsOtherLines(content, s, keys);
        LaterSpoilsAdds(content, s, rest, keys);
        assert OtherLines(SplitInclusive(content), keys) + [] == OtherLines(SplitInclusive(content), keys);
        SaveKeepsOthersExactly(after, rest, keys, section);
      }
    }
  }

  /** An edit that adds a header leaves a whole text, so that nothing is spoilt later. */
  lemma LaterSpoilsAdds(content: string, s: Setting, rest: seq<Setting>, keys: set<string>)
    requires ValidSetting(s) && AllValid(rest) && !NeverSpoils(Upsert(content, s), rest, keys)
    ensures Header(SplitInclusive(content), s.section) == []
  {
    hide *;
    var after := Upsert(content, s);
    NeverSpoilsIs(after, rest, keys);
    if Whole(after) { WholeNeverJoins(after, rest); }
    PassesIs(SplitInclusive(content), s);
    HeaderIs(SplitInclusive(content), s.section);
    if !HasSection(SplitInclusive(content), s.section) {
      if Whole(content) { UpsertByLines(content, s); } else { OtherwiseFinishes(content, s); }
    }
  }

  // ----- the nineteen keys -----

  const TOP_LEVEL_KEYS: seq<string> := [
    "dev_ops_path", "master_md_path", "skills_path", "vault_projects_path", "system_name", "github_user"
  ]

  const DAEMON_BOOL_KEYS: seq<string> := [
    "startup_bm25_indexing", "startup_cortex_indexing", "enable_health_worker", "enable_sentinel_worker",
    "enable_port_monitor"
  ]

  const DAEMON_INT_KEYS: seq<string> := [
    "health_interval_secs", "git_interval_secs", "sentinel_interval_secs", "port_monitor_interval_secs",
    "port_probe_timeout_ms", "lifecycle_standby_days", "lifecycle_archive_days", "lifecycle_interval_secs"
  ]

  const DAEMON := "daemon"

  /** What the tray holds of the configuration; an absent key has its default. */
  datatype Config = Config(texts: map<string, string>, flags: map<string, bool>, numbers: map<string, int>)

  function HexDigit(n: nat): char
    requires n < 16
  {
    "0123456789abcdef"[n]
  }

  /** How `json.dumps` writes one character with `ensure_ascii=False`. */
  function Escape(c: char): string {
    var u := c as int;
    if c == '\"' || c == '\\' then ['\\', c]
    else if u == 8 then "\\b"
    else if u == 9 then "\\t"
    else if u == 10 then "\\n"
    else if u == 12 then "\\f"
    else if u == 13 then "\\r"
    else if u < 32 then "\\u00" + [HexDigit(u / 16), HexDigit(u % 16)]
    else [c]
  }

  function TomlString(s: string): string {
    "\"" + Flatten(Map(Escape, s)) + "\""
  }

  function TomlBool(b: bool): string {
    if b then "true" else "false"
  }

  function IntText(n: int): string {
    if n < 0 then "-" + Words.NatText(-n) else Words.NatText(n)
  }

  function TextSetting(config: Config): string -> Setting {
    key => Setting(None, key, TomlString(if key in config.texts then config.texts[key] else ""))
  }

  function FlagSetting(config: Config): string -> Setting {
    key => Setting(Some(DAEMON), key, TomlBool(if key in config.flags then config.flags[key] else false))
  }

  function NumberSetting(config: Config): string -> Setting {
    key => Setting(Some(DAEMON), key, IntText(if key in config.numbers then config.numbers[key] else 0))
  }

  function Settings(config: Config): seq<Setting> {
    Map(TextSetting(config), TOP_LEVEL_KEYS)
    + Map(FlagSetting(config), DAEMON_BOOL_KEYS)
    + Map(NumberSetting(config), DAEMON_INT_KEYS)
  }

  lemma {:induction false} EscapedHasNoNewline(s: string)
    ensures NoNewline(Flatten(Map(Escape, s)))
  {
    if s != "" {
      EscapedHasNoNewline(s[1..]);
      assert Map(Escape, s)[1..] == Map(Escape, s[1..]);
      EscapeHasNoNewline(s[0]);
    }
  }

  lemma EscapeHasNoNewline(c: char)
    ensures NoNewline(Escape(c))
  {
  }

  lemma IntTextHasNoNewline(n: int)
    ensures NoNewline(IntText(n))
  {
    var m := if n < 0 then -n else n;
    Words.NatTextIsWord(m);
    Words.WordHasNoNewline(Words.NatText(m));
  }

  predicate AreKeys(keys: seq<string>) {
    forall i :: 0 <= i < |keys| ==> IsKey(keys[i])
  }

  lemma TextsValid(config: Config, keys: seq<string>)
    requires AreKeys(keys)
    ensures AllValid(Map(TextSetting(config), keys))
  {
    hide IsKey, TomlString;
    forall i | 0 <= i < |keys| ensures ValidSetting(Map(TextSetting(config), keys)[i]) {
      var text := if keys[i] in config.texts then config.texts[keys[i]] else "";
      TomlStringHasNoNewline(text);
    }
  }

  lemma TomlStringHasNoNewline(s: string)
    ensures NoNewline(TomlString(s))
  {
    EscapedHasNoNewline(s);
  }

  lemma NumbersValid(config: Config, keys: seq<string>)
    requires AreKeys(keys)
    ensures AllValid(Map(NumberSetting(config), keys))
  {
    hide IsKey, IntText;
    forall i | 0 <= i < |keys| ensures ValidSetting(Map(NumberSetting(config), keys)[i]) {
      IntTextHasNoNewline(if keys[i] in config.numbers then config.numbers[keys[i]] else 0);
    }
  }

  lemma FlagsValid(config: Config, keys: seq<string>)
    requires AreKeys(keys)
    ensures AllValid(Map(FlagSetting(config), keys))
  {
    hide IsKey;
  }

  lemma TopLevelKeys()
    ensures IsKey("dev_ops_path") && IsKey("master_md_path") && IsKey("skills_path")
    ensures IsKey("vault_projects_path") && IsKey("system_name") && IsKey("github_user")
  {
  }

  lemma BoolKeys()
    ensures IsKey("enable_health_worker") && IsKey("enable_sentinel_worker") && IsKey("enable_port_monitor")
  {
  }

  lemma StartupKeys()
    ensures IsKey("startup_bm25_indexing") && IsKey("startup_cortex_indexing")
  {
  }

  lemma IntervalKeys()
    ensures IsKey("health_interval_secs") && IsKey("git_interval_secs")
  {
  }

  lemma MonitorKeys()
    ensures IsKey("sentinel_interval_secs") && IsKey("port_monitor_interval_secs")
  {
  }

  lemma LifecycleKeys()
    ensures IsKey("lifecycle_archive_days") && IsKey("lifecycle_interval_secs")
  {
  }

  lemma OtherIntKeys()
    ensures IsKey("port_probe_timeout_ms") && IsKey("lifecycle_standby_days")
  {
  }

  lemma AllAreKeys()
    ensures AreKeys(TOP_LEVEL_KEYS) && AreKeys(DAEMON_BOOL_KEYS) && AreKeys(DAEMON_INT_KEYS)
  {
    hide IsKey;
    TopLevelKeys();
    BoolKeys();
    StartupKeys();
    IntervalKeys();
    MonitorKeys();
    LifecycleKeys();
    OtherIntKeys();
  }

  lemma KeysAreDistinct()
    ensures var keys := TOP_LEVEL_KEYS + DAEMON_BOOL_KEYS + DAEMON_INT_KEYS;
            forall i, j :: 0 <= i < j < |keys| ==> keys[i] != keys[j]
  {
  }

  lemma SettingKeys(config: Config, i: nat)
    requires i < |Settings(config)|
    ensures |Settings(config)| == |TOP_LEVEL_KEYS + DAEMON_BOOL_KEYS + DAEMON_INT_KEYS|
    ensures Settings(config)[i].key == (TOP_LEVEL_KEYS + DAEMON_BOOL_KEYS + DAEMON_INT_KEYS)[i]
  {
    hide *;
    SettingsParts(config);
    var top, flags, n, m := Map(TextSetting(config), TOP_LEVEL_KEYS), Map(FlagSetting(config), DAEMON_BOOL_KEYS),
      |TOP_LEVEL_KEYS|, |DAEMON_BOOL_KEYS|;
    if i < n {
      SettingOfKey(config, TOP_LEVEL_KEYS[i]);
      assert Settings(config)[i] == top[i];
    } else if i < n + m {
      SettingOfKey(config, DAEMON_BOOL_KEYS[i - n]);
      assert Settings(config)[i] == flags[i - n];
    } else {
      SettingOfKey(config, DAEMON_INT_KEYS[i - n - m]);
    }
  }

  lemma SettingOfKey(config: Config, key: string)
    ensures TextSetting(config)(key).key == FlagSetting(config)(key).key == NumberSetting(config)(key).key == key
    ensures TextSetting(config)(key).section == None
  {
    hide TomlString, TomlBool, IntText;
  }

  lemma SettingSections(config: Config)
    ensures OnlySection(Settings(config), DAEMON) && NamesSection(Settings(config))
  {
    hide TomlString, TomlBool, IntText;
    assert Settings(config)[|TOP_LEVEL_KEYS|].section.Some?;
  }

  lemma AllValidAppend(a: seq<Setting>, b: seq<Setting>)
    requires AllValid(a) && AllValid(b)
    ensures AllValid(a + b)
  {
    hide ValidSetting;
  }

  lemma SettingsParts(config: Config)
    ensures Settings(config) == Map(TextSetting(config), TOP_LEVEL_KEYS)
      + Map(FlagSetting(config), DAEMON_BOOL_KEYS) + Map(NumberSetting(config), DAEMON_INT_KEYS)
  {
  }

  lemma SettingsAreValid(config: Config)
    ensures AllValid(Settings(config)) && DistinctKeys(Settings(config))
  {
    hide *;
    AllAreKeys();
    TextsValid(config, TOP_LEVEL_KEYS);
    FlagsValid(config, DAEMON_BOOL_KEYS);
    NumbersValid(config, DAEMON_INT_KEYS);
    SettingsParts(config);
    AllValidAppend(Map(TextSetting(config), TOP_LEVEL_KEYS), Map(FlagSetting(config), DAEMON_BOOL_KEYS));
    AllValidAppend(Map(TextSetting(config), TOP_LEVEL_KEYS) + Map(FlagSetting(config), DAEMON_BOOL_KEYS),
      Map(NumberSetting(config), DAEMON_INT_KEYS));
    SettingsAreDistinct(config);
  }

  lemma SettingsAreDistinct(config: Config)
    ensures DistinctKeys(Settings(config))
  {
    var ss := Settings(config);
    hide Settings;
    KeysAreDistinct();
    forall i, j | 0 <= i < j < |ss| ensures ss[i].key != ss[j].key {
      SettingKeys(config, i);
      SettingKeys(config, j);
    }
  }

  /** The text the tray writes, given the text it read. */
  function SaveConfig(content: string, config: Config): string {
    Save(content, Settings(config))
  }

  lemma MapStep(f: string -> Setting, keys: seq<string>, i: nat)
    requires i < |keys|
    ensures Map(f, keys[..i + 1]) == Map(f, keys[..i]) + [f(keys[i])]
  {
  }

  lemma MapStart(f: string -> Setting, keys: seq<string>)
    ensures Map(f, keys[..0]) == [] && keys[..|keys|] == keys
  {
  }

  lemma {:induction false} SaveConcat(content: string, a: seq<Setting>, b: seq<Setting>)
    ensures Save(content, a + b) == Save(Save(content, a), b)
    decreases |a|
  {
    hide *;
    if a == [] {
      SaveNothing(content);
      assert a + b == b;
    } else {
      SaveStep(content, a);
      SaveStep(content, a + b);
      assert (a + b)[1..] == a[1..] + b;
      SaveConcat(Upsert(content, a[0]), a[1..], b);
    }
  }

  /** One key loop of `save_raios_config`. */
  method SaveKeys(original: string, setting: string -> Setting, keys: seq<string>) returns (content: string)
    ensures content == Save(original, Map(setting, keys))
  {
    hide *;
    content := original;
    SaveNothing(original);
    MapStart(setting, keys);
    var i := 0;
    while i < |keys|
      invariant 0 <= i <= |keys| && content == Save(original, Map(setting, keys[..i]))
    {
      SaveAppend(original, Map(setting, keys[..i]), setting(keys[i]));
      MapStep(setting, keys, i);
      content := UpsertLoop(content, setting(keys[i]));
      i := i + 1;
    }
  }

  /** The three key loops of `save_raios_config`, one after the other. */
  method SaveConfigLoop(original: string, config: Config) returns (content: string)
    ensures content == SaveConfig(original, config)
  {
    hide *;
    var top, flags, numbers := TextSetting(config), FlagSetting(config), NumberSetting(config);
    content := SaveKeys(original, top, TOP_LEVEL_KEYS);
    content := SaveKeys(content, flags, DAEMON_BOOL_KEYS);
    content := SaveKeys(content, numbers, DAEMON_INT_KEYS);
    SaveConcat(original, Map(top, TOP_LEVEL_KEYS), Map(flags, DAEMON_BOOL_KEYS));
    SaveConcat(original, Map(top, TOP_LEVEL_KEYS) + Map(flags, DAEMON_BOOL_KEYS), Map(numbers, DAEMON_INT_KEYS));
    SettingsParts(config);
    SaveConfigIs(original, config);
  }

  lemma SaveConfigIs(content: string, config: Config)
    ensures SaveConfig(content, config) == Save(content, Settings(config))
  {
  }

  /** A save puts every setting in place, and a second save changes nothing, exactly when no edit
      is put behind an unfinished last line that holds something. */
  lemma SaveIsFixpoint(content: string, config: Config)
    ensures var saved := SaveConfig(content, config);
            (AllSettled(SplitInclusive(saved), Settings(config)) <==> NeverJoins(content, Settings(config)))
            && (SaveConfig(saved, config) == saved <==> NeverJoins(content, Settings(config)))
  {
    hide *;
    var ss := Settings(config);
    SettingsAreValid(config);
    var saved := SaveConfig(content, config);
    SaveConfigIs(content, config);
    SaveConfigIs(saved, config);
    SaveSettlesExactly(content, ss);
    if AllSettled(SplitInclusive(saved), ss) {
      SavedIsKept(saved, ss);
    } else {
      NotSettledIsWhole(content, ss);
      WholeNeverJoins(saved, ss);
      SaveSettlesExactly(saved, ss);
    }
  }

  /** A save that loses a setting leaves a text that ends its last line. */
  lemma {:induction false} NotSettledIsWhole(content: string, ss: seq<Setting>)
    requires AllValid(ss) && !NeverJoins(content, ss)
    ensures Whole(Save(content, ss))
    decreases |ss|
  {
    hide *;
    if ss == [] {
      NoSettingNeverJoins(content);
    } else {
      ValidTail(ss);
      NeverJoinsStep(content, ss);
      SaveStep(content, ss);
      if JoinsLast(content, ss[0]) {
        JoinLeavesWhole(content, ss[0]);
        WholeNeverJoins(Upsert(content, ss[0]), ss[1..]);
      } else {
        NotSettledIsWhole(Upsert(content, ss[0]), ss[1..]);
      }
    }
  }

  /** The same condition, read from the text before the save: one of the settings would be put
      behind the unfinished last line, and all before it go before that line. */
  lemma SaveJoinIsForeseen(content: string, config: Config)
    ensures NeverJoins(content, Settings(config)) <==> !WillJoin(content, Settings(config))
    ensures Whole(content) ==> NeverJoins(content, Settings(config))
  {
    hide *;
    SettingsAreValid(config);
    JoinIsForeseen(content, Settings(config));
    if Whole(content) { WholeNeverJoins(content, Settings(config)); }
  }

  /** The second save always repairs what the first one lost: a third changes nothing. */
  lemma SecondSaveIsFixpoint(content: string, config: Config)
    ensures var second := SaveConfig(SaveConfig(content, config), config);
            AllSettled(SplitInclusive(second), Settings(config)) && SaveConfig(second, config) == second
  {
    hide *;
    var ss := Settings(config);
    SettingsAreValid(config);
    var saved := SaveConfig(content, config);
    SaveConfigIs(content, config);
    SaveIsFixpoint(content, config);
    SaveIsFixpoint(saved, config);
    if !NeverJoins(content, ss) {
      NotSettledIsWhole(content, ss);
      WholeNeverJoins(saved, ss);
    }
  }

  /** A save keeps every line that holds something and assigns none of the nineteen keys,
      unchanged and in order, exactly when no edit is put behind such a line; the only other such
      line it leaves is then the daemon section's header, if that was missing. */
  lemma SaveKeepsOtherLines(content: string, config: Config)
    ensures var keys := KeySet(Settings(config));
            var lines, saved := SplitInclusive(content), SplitInclusive(SaveConfig(content, config));
            var kept := NeverJoins(content, Settings(config)) || !LastIsForeign(content, keys);
            (OtherLines(lines, keys) <= OtherLines(saved, keys) <==> kept)
            && (kept ==> OtherLines(saved, keys) ==
                           OtherLines(lines, keys) + if HasSection(lines, Some(DAEMON)) then [] else ["[daemon]\n"])
  {
    hide *;
    var ss := Settings(config);
    var keys := KeySet(ss);
    SettingsAreValid(config);
    SaveConfigIs(content, config);
    SettingSections(config);
    NeverSpoilsIs(content, ss, keys);
    SaveKeepsOthersExactly(content, ss, keys, DAEMON);
    if NeverSpoils(content, ss, keys) {
      SaveKeepsOthers(content, ss, keys, DAEMON);
      AppendedIs(SplitInclusive(content), ss, DAEMON);
      HeaderIs(SplitInclusive(content), Some(DAEMON));
      DaemonHeader();
    }
  }

  lemma DaemonHeader()
    ensures HeaderText(DAEMON) + "\n" == "[daemon]\n"
  {
  }

  // ----- a file that loses a flag -----

  /** Edits before the last line leave it there, and leave open what is put behind it. */
  lemma {:induction false} PassingSave(content: string, ss: seq<Setting>, t: Setting)
    requires AllValid(ss) && DistinctKeys(ss) && NoKey(ss, t.key) && !Whole(content)
    requires AllPass(SplitInclusive(content), ss)
    ensures !Whole(Save(content, ss)) && (JoinsLast(Save(content, ss), t) <==> JoinsLast(content, t))
    ensures SplitInclusive(content) != [] && SplitInclusive(Save(content, ss)) != []
    ensures var saved := SplitInclusive(Save(content, ss));
            saved[|saved| - 1] == SplitInclusive(content)[|SplitInclusive(content)| - 1]
    decreases |ss|
  {
    hide *;
    if ss == [] {
      SaveNothing(content);
      UnfinishedLast(content);
    } else {
      var s, rest, after := ss[0], ss[1..], Upsert(content, ss[0]);
      ValidTail(ss);
      DistinctTail(ss);
      NoKeyTail(ss, t.key);
      assert ss[..|ss|] == ss && rest[..|ss| - 1] == rest;
      AllPassCons(SplitInclusive(content), ss, |ss|);
      PassStaysUnfinished(content, s);
      PassKeepsLast(SplitInclusive(content), s);
      PassKeepsJoin(content, s, t);
      PassKeepsAll(content, s, rest);
      PassingSave(after, rest, t);
      SaveStep(content, ss);
    }
  }

  lemma PassKeepsAll(content: string, s: Setting, ss: seq<Setting>)
    requires ValidSetting(s) && NoKey(ss, s.key) && !Whole(content)
    requires Passes(SplitInclusive(content), s) && AllPass(SplitInclusive(content), ss)
    ensures AllPass(SplitInclusive(Upsert(content, s)), ss)
  {
    hide Upsert, SplitInclusive, Passes, Whole, ValidSetting;
    forall i | 0 <= i < |ss| ensures Passes(SplitInclusive(Upsert(content, s)), ss[i]) {
      PassKeepsJoin(content, s, ss[i]);
    }
  }

  lemma JoinExampleLines()
    ensures SplitInclusive("[daemon]") == ["[daemon]"] && !Whole("[daemon]")
  {
    assert IsLine("[daemon]");
    FirstLineLengthOf("[daemon]", "");
    assert "[daemon]" + "" == "[daemon]";
    assert "[daemon]"[..8] == "[daemon]" && "[daemon]"[8..] == "";
  }

  lemma DaemonHeaderReads()
    ensures IsSectionHeader("daemon", "[daemon]") && !HasNone(NotSpace, "[daemon]")
  {
    var l := "[daemon]";
    assert HeaderText("daemon") == l;
    FirstIndexOf(NotSpace, "", l);
    assert "" + l == l;
    StripEndOf(l, "");
    assert l + "" == l;
    assert NotSpace(l[0]);
  }

  lemma LoneHeaderAtEnd(lines: seq<string>, s: Setting)
    requires s.section == Some("daemon") && lines == ["[daemon]"]
    ensures AtEnd(lines, s)
  {
    hide FirstIndex, IsSectionHeader, Assigns;
    DaemonHeaderReads();
    assert lines[..0] == [] && lines[1..1] == [];
    StoppedAt(HeaderOf("daemon"), lines, 0);
    StoppedAt(AssignmentOf(s.key), [], 0);
  }

  lemma LoneHeaderPasses(lines: seq<string>, s: Setting)
    requires s.section == None && lines == ["[daemon]"]
    ensures Passes(lines, s)
  {
    hide FirstIndex, IsHeaderLine, Assigns;
    DaemonHeaderReads();
    SectionHeaderIsHeader("daemon", "[daemon]");
    assert lines[..0] == [] && lines[0..0] == [];
    StoppedAt(IsHeaderLine, lines, 0);
    StoppedAt(AssignmentOf(s.key), [], 0);
  }

  lemma TopSettings(config: Config, key: string)
    requires key == DAEMON_BOOL_KEYS[0]
    ensures var ss, n := Settings(config), |TOP_LEVEL_KEYS|;
            n < |ss| && ss[n] == FlagSetting(config)(key) && forall i :: 0 <= i < n ==> ss[i].section == None
  {
    hide *;
    var ss, n := Settings(config), |TOP_LEVEL_KEYS|;
    SettingsParts(config);
    SomeFlag();
    var flags := Map(FlagSetting(config), DAEMON_BOOL_KEYS);
    assert ss[n] == flags[0];
    forall i | 0 <= i < n ensures ss[i].section == None {
      SettingOfKey(config, TOP_LEVEL_KEYS[i]);
    }
  }

  lemma SomeFlag()
    ensures |DAEMON_BOOL_KEYS| > 0
  {
  }

  lemma AllAround(ss: seq<Setting>, n: nat)
    requires AllValid(ss) && DistinctKeys(ss) && n < |ss|
    ensures AllValid(ss[..n]) && DistinctKeys(ss[..n]) && NoKey(ss[..n], ss[n].key)
    ensures ValidSetting(ss[n]) && AllValid(ss[n + 1..]) && NoKey(ss[n + 1..], ss[n].key)
    ensures ss == ss[..n] + ([ss[n]] + ss[n + 1..])
  {
    hide ValidSetting;
  }

  lemma OnlySectionRest(ss: seq<Setting>, n: nat, section: string)
    requires OnlySection(ss, section) && n <= |ss|
    ensures OnlySection(ss[n..], section) && KeySet(ss[n..]) <= KeySet(ss)
  {
    forall k | k in KeySet(ss[n..]) ensures k in KeySet(ss) {
      var i :| 0 <= i < |ss[n..]| && k == ss[n..][i].key;
      assert ss[n + i].key == k;
    }
  }

  lemma FromOtherLines(content: string, l: string, keys: set<string>)
    requires Whole(content) && l in OtherLines(SplitInclusive(content), keys)
    ensures l in SplitInclusive(content)
  {
    hide *;
    var lines := SplitInclusive(content);
    OtherLinesHave(lines, keys);
    var m :| m in lines && l == Ended(m);
    WholeMeansComplete(content);
    var i :| 0 <= i < |lines| && lines[i] == m;
    CompleteLineAt(lines, i);
    EndedIs(m);
  }

  /** A line that reads as a header and has a setting behind it stays like that. */
  lemma JoinedHeaderStays(content: string, s: Setting, rest: seq<Setting>, keys: set<string>, section: string)
    requires ValidSetting(s) && JoinsLast(content, s) && Whole(Upsert(content, s))
    requires AllValid(rest) && KeySet(rest) <= keys && OnlySection(rest, section)
    requires var lines := SplitInclusive(content); lines != [] && lines[|lines| - 1] == HeaderText(section)
    ensures HeaderText(section) + SettingText(s.key, s.value) in SplitInclusive(Save(Upsert(content, s), rest))
  {
    hide *;
    var lines, after, x := SplitInclusive(content), Upsert(content, s), SettingText(s.key, s.value);
    JoinsLastIs(content, s);
    JoinedText(content, s);
    JoinedOtherLines(lines, x, keys);
    var l := lines[|lines| - 1];
    HeaderJoined(l, section, x, keys);
    EndedIs(l + x);
    SettingEnds(l, s);
    WholeNeverJoins(after, rest);
    NeverSpoilsIs(after, rest, keys);
    SaveKeepsOthers(after, rest, keys, section);
    var others := OtherLines(SplitInclusive(after), keys);
    assert others[|others| - 1] == l + x;
    FromOtherLines(Save(after, rest), l + x, keys);
  }

  lemma LoneHeaderAllPass(config: Config)
    ensures AllPass(["[daemon]"], Settings(config)[..|TOP_LEVEL_KEYS|])
  {
    hide Passes, Settings;
    TopSettings(config, DAEMON_BOOL_KEYS[0]);
    var ss := Settings(config)[..|TOP_LEVEL_KEYS|];
    forall i | 0 <= i < |ss| ensures Passes(["[daemon]"], ss[i]) {
      LoneHeaderPasses(["[daemon]"], ss[i]);
    }
  }

  lemma DaemonHeaderText()
    ensures HeaderText(DAEMON) == "[daemon]" && DAEMON_BOOL_KEYS[0] == "startup_bm25_indexing"
  {
  }

  lemma FlagIs(config: Config, key: string)
    ensures FlagSetting(config)(key).section == Some("daemon") && FlagSetting(config)(key).key == key
  {
  }

  /** A file that holds the bare section header and no line break: the first flag is written on
      the header's line and lost, and a second save changes the file again. */
  lemma LostFlagExample(config: Config)
    ensures var flag := FlagSetting(config)("startup_bm25_indexing");
            var saved := SaveConfig("[daemon]", config);
            "[daemon]" + SettingText("startup_bm25_indexing", flag.value) in SplitInclusive(saved)
            && !Settled(SplitInclusive(saved), flag) && SaveConfig(saved, config) != saved
  {
    hide *;
    var ss, n, content := Settings(config), |TOP_LEVEL_KEYS|, "[daemon]";
    DaemonHeaderText();
    TopSettings(config, "startup_bm25_indexing");
    FlagIs(config, "startup_bm25_indexing");
    var flag := ss[n];
    SettingsAreValid(config);
    SettingSections(config);
    AllAround(ss, n);
    JoinExampleLines();
    LoneHeaderAllPass(config);
    LoneHeaderAtEnd(["[daemon]"], flag);
    DaemonHeaderReads();
    JoinsLastIs(content, flag);
    PassingSave(content, ss[..n], flag);
    var before, rest := Save(content, ss[..n]), ss[n + 1..];
    var after := Upsert(before, flag);
    SaveConcat(content, ss[..n], [flag] + rest);
    assert ([flag] + rest)[0] == flag && ([flag] + rest)[1..] == rest;
    SaveStep(before, [flag] + rest);
    SaveConfigIs(content, config);
    JoinLeavesWhole(before, flag);
    OnlySectionRest(ss, n + 1, DAEMON);
    JoinedHeaderStays(before, flag, rest, KeySet(ss), DAEMON);
    UpsertSettlesExactly(before, flag);
    if Settled(SplitInclusive(Save(after, rest)), flag) { SaveSettlesNoOther(after, rest, flag); }
    NotAllSettled(SplitInclusive(SaveConfig(content, config)), ss, n);
    SaveIsFixpoint(content, config);
  }

  lemma NotAllSettled(lines: seq<string>, ss: seq<Setting>, i: nat)
    requires i < |ss| && !Settled(lines, ss[i])
    ensures !AllSettled(lines, ss)
  {
    hide Settled;
  }
}
