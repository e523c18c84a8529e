/** agent_wrapper.rs: the block of shell functions in an rc file, put in, replaced and taken out. */
module AgentWrapper {
  import opened Seqs
  import opened Text

  const BLOCK_BEGIN := "# raios-agent-wrapper-begin"
  const BLOCK_END := "# raios-agent-wrapper-end"

  predicate IsBegin(l: string) {
    TrimStart(l) == BLOCK_BEGIN
  }

  predicate IsEnd(l: string) {
    TrimStart(l) == BLOCK_END
  }

  predicate IsMarker(l: string) {
    IsBegin(l) || IsEnd(l)
  }

  // ----- `make_block` -----

  const ABOUT := "# R-AI-OS: route agent calls" + (" through raios" + (" (UMAI shield" + " + session capture)"))
  const HINT := "# Remove with: raios " + "agent-wrapper remove"

  /** The shell function of one agent, for PowerShell or for a POSIX shell. */
  function AgentLine(windows: bool): string -> string {
    a => if windows then "function " + a + " { raios run " + a + " @args }" else a + "() { raios run " + a + " \"$@\"; }"
  }

  function BlockLines(windows: bool, agents: seq<string>): seq<string> {
    [BLOCK_BEGIN, ABOUT, HINT] + Map(AgentLine(windows), agents) + [BLOCK_END]
  }

  function Block(windows: bool, agents: seq<string>): string {
    "\n" + Flatten(Map(WithBreak, BlockLines(windows, agents)))
  }

  // ----- `strip_block` -----

  function StripLines(ls: seq<string>, skip: bool): seq<string> {
    if ls == [] then []
    else if IsBegin(ls[0]) then StripLines(ls[1..], true)
    else if IsEnd(ls[0]) then StripLines(ls[1..], false)
    else (if skip then [] else [ls[0]]) + StripLines(ls[1..], skip)
  }

  function Strip(content: string): string {
    TrimEnd(JoinLines(StripLines(Lines(content), false))) + "\n"
  }

  predicate ContainsText(s: string, t: string) {
    exists i :: 0 <= i <= |s| && t <= s[i..]
  }

  /** The new text of an rc file. */
  function Install(windows: bool, content: string, agents: seq<string>): string {
    (if ContainsText(content, BLOCK_BEGIN) then Strip(content) else content) + Block(windows, agents)
  }

  // ----- the loops -----

  method MakeBlock(windows: bool, agents: seq<string>) returns (s: string)
    ensures s == Block(windows, agents)
  {
    hide Flatten, Map, AgentLine;
    s := "\n";
    s := s + BLOCK_BEGIN;
    s := s + "\n";
    s := s + ABOUT + "\n";
    s := s + HINT + "\n";
    ghost var head := s;
    NoAgentLines(windows, agents);
    assert head + "" == head;
    for i := 0 to |agents|
      invariant s == head + Flatten(Map(WithBreak, Map(AgentLine(windows), agents[..i])))
    {
      AgentLineNext(windows, agents, i);
      var line := AgentLine(windows)(agents[i]);
      assert s + (line + "\n") == head + (Flatten(Map(WithBreak, Map(AgentLine(windows), agents[..i]))) + (line + "\n"));
      s := s + (line + "\n");
    }
    assert agents[..|agents|] == agents;
    ghost var middle := Flatten(Map(WithBreak, Map(AgentLine(windows), agents)));
    s := s + BLOCK_END;
    s := s + "\n";
    assert s == head + middle + (BLOCK_END + "\n");
    BlockParts(windows, agents, head);
  }

  lemma NoAgentLines(windows: bool, agents: seq<string>)
    ensures Flatten(Map(WithBreak, Map(AgentLine(windows), agents[..0]))) == ""
  {
  }

  lemma EndedNext(ls: seq<string>, l: string)
    ensures Flatten(Map(WithBreak, ls + [l])) == Flatten(Map(WithBreak, ls)) + (l + "\n")
  {
    hide Flatten;
    MapAppend(WithBreak, ls, [l]);
    assert Map(WithBreak, [l]) == [WithBreak(l)];
    FlattenAppend(Map(WithBreak, ls), [WithBreak(l)]);
    FlattenOne(WithBreak(l));
  }

  lemma AgentLineNext(windows: bool, agents: seq<string>, i: nat)
    requires i < |agents|
    ensures Flatten(Map(WithBreak, Map(AgentLine(windows), agents[..i + 1]))) ==
      Flatten(Map(WithBreak, Map(AgentLine(windows), agents[..i]))) + (AgentLine(windows)(agents[i]) + "\n")
  {
    hide Flatten, AgentLine;
    var f := AgentLine(windows);
    assert agents[..i + 1] == agents[..i] + [agents[i]];
    MapAppend(f, agents[..i], [agents[i]]);
    assert Map(f, [agents[i]]) == [f(agents[i])];
    EndedNext(Map(f, agents[..i]), f(agents[i]));
  }

  lemma EndedAppend(a: seq<string>, b: seq<string>)
    ensures Flatten(Map(WithBreak, a + b)) == Flatten(Map(WithBreak, a)) + Flatten(Map(WithBreak, b))
  {
    hide Flatten;
    MapAppend(WithBreak, a, b);
    FlattenAppend(Map(WithBreak, a), Map(WithBreak, b));
  }

  lemma EndedOne(l: string)
    ensures Flatten(Map(WithBreak, [l])) == l + "\n"
  {
    hide Flatten;
    assert Map(WithBreak, [l]) == [WithBreak(l)];
    FlattenOne(WithBreak(l));
  }

  lemma BlockParts(windows: bool, agents: seq<string>, head: string)
    requires head == "\n" + BLOCK_BEGIN + "\n" + (ABOUT + "\n") + (HINT + "\n")
    ensures Block(windows, agents) ==
      head + Flatten(Map(WithBreak, Map(AgentLine(windows), agents))) + (BLOCK_END + "\n")
  {
    hide Flatten, Map, AgentLine, WithBreak;
    var ls := Map(AgentLine(windows), agents);
    EndedAppend([BLOCK_BEGIN, ABOUT, HINT] + ls, [BLOCK_END]);
    EndedAppend([BLOCK_BEGIN, ABOUT, HINT], ls);
    EndedAppend([BLOCK_BEGIN, ABOUT], [HINT]);
    EndedAppend([BLOCK_BEGIN], [ABOUT]);
    EndedOne(BLOCK_BEGIN);
    EndedOne(ABOUT);
    EndedOne(HINT);
    EndedOne(BLOCK_END);
    assert [BLOCK_BEGIN] + [ABOUT] == [BLOCK_BEGIN, ABOUT];
    assert [BLOCK_BEGIN, ABOUT] + [HINT] == [BLOCK_BEGIN, ABOUT, HINT];
    HeadParts(BLOCK_BEGIN, ABOUT, HINT, Flatten(Map(WithBreak, ls)), BLOCK_END);
  }

  lemma HeadParts(a: string, b: string, c: string, m: string, e: string)
    ensures "\n" + ((a + "\n") + (b + "\n") + (c + "\n") + m + (e + "\n")) ==
      "\n" + a + "\n" + (b + "\n") + (c + "\n") + m + (e + "\n")
  {
  }

  lemma {:induction false} StripLinesAppend(a: seq<string>, b: seq<string>, skip: bool)
    ensures StripLines(a + b, skip) == StripLines(a, skip) + StripLines(b, SkipAfter(a, skip))
  {
    hide IsBegin, IsEnd;
    if a == [] {
      assert a + b == b;
    } else {
      assert (a + b)[1..] == a[1..] + b;
      StripLinesAppend(a[1..], b, if IsBegin(a[0]) then true else if IsEnd(a[0]) then false else skip);
    }
  }

  /** Whether lines are skipped behind a. */
  function SkipAfter(a: seq<string>, skip: bool): bool {
    if a == [] then skip
    else SkipAfter(a[1..], if IsBegin(a[0]) then true else if IsEnd(a[0]) then false else skip)
  }

  lemma {:induction false} SkipAfterAppend(a: seq<string>, b: seq<string>, skip: bool)
    ensures SkipAfter(a + b, skip) == SkipAfter(b, SkipAfter(a, skip))
  {
    hide IsBegin, IsEnd;
    if a == [] {
      assert a + b == b;
    } else {
      assert (a + b)[1..] == a[1..] + b;
      SkipAfterAppend(a[1..], b, if IsBegin(a[0]) then true else if IsEnd(a[0]) then false else skip);
    }
  }

  lemma StripOne(l: string, skip: bool)
    ensures StripLines([l], skip) == if IsMarker(l) || skip then [] else [l]
    ensures SkipAfter([l], skip) == if IsBegin(l) then true else if IsEnd(l) then false else skip
  {
    hide IsBegin, IsEnd;
    assert [l][1..] == [];
  }

  /** The loop of `strip_block`. */
  method StripLoop(content: string) returns (r: string)
    ensures r == Strip(content)
  {
    hide Lines, StripLines, SkipAfter, IsBegin, IsEnd, JoinLines, TrimEnd;
    var lines := Lines(content);
    var out, skip := [], false;
    StripNone();
    assert lines[..0] == [];
    for i := 0 to |lines|
      invariant out == StripLines(lines[..i], false) && skip == SkipAfter(lines[..i], false)
    {
      assert lines[..i + 1] == lines[..i] + [lines[i]];
      StripLinesAppend(lines[..i], [lines[i]], false);
      SkipAfterAppend(lines[..i], [lines[i]], false);
      StripOne(lines[i], skip);
      if IsBegin(lines[i]) {
        skip := true;
      } else if IsEnd(lines[i]) {
        skip := false;
      } else if !skip {
        out := out + [lines[i]];
      }
    }
    assert lines[..|lines|] == lines;
    r := TrimEnd(JoinLines(out)) + "\n";
  }

  lemma StripNone()
    ensures StripLines([], false) == [] && SkipAfter([], false) == false
  {
  }

  // ----- lines of a text and their trailing blank space -----

  predicate EndsInReturn(l: string) {
    l != "" && l[|l| - 1] == '\r'
  }

  /** A line as it is read back once a line break is put behind it. */
  predicate Bare(l: string) {
    NoNewline(l) && !EndsInReturn(l)
  }

  predicate AllBare(ls: seq<string>) {
    forall i :: 0 <= i < |ls| ==> Bare(ls[i])
  }

  /** No line of the text has a carriage return at its end, other than that of its line break. */
  predicate PlainEnds(content: string) {
    AllBare(Lines(content))
  }

  lemma BareLine(l: string)
    requires Bare(l)
    ensures IsLine(WithBreak(l)) && Terminated(WithBreak(l)) && StripEol(WithBreak(l)) == l
  {
    assert WithBreak(l)[..|WithBreak(l)| - 1] == l;
  }

  lemma {:induction false} LinesOfEnded(ls: seq<string>, rest: string)
    requires AllBare(ls)
    ensures Lines(Flatten(Map(WithBreak, ls)) + rest) == ls + Lines(rest)
  {
    hide SplitInclusive, StripEol, WithBreak, Bare;
    if ls == [] {
      assert Flatten(Map(WithBreak, ls)) + rest == rest;
      assert ls + Lines(rest) == Lines(rest);
    } else {
      var tail := Flatten(Map(WithBreak, ls[1..])) + rest;
      assert Map(WithBreak, ls) == [WithBreak(ls[0])] + Map(WithBreak, ls[1..]);
      assert Flatten(Map(WithBreak, ls)) + rest == WithBreak(ls[0]) + tail;
      BareLine(ls[0]);
      SplitFirst(WithBreak(ls[0]), tail);
      MapAppend(StripEol, [WithBreak(ls[0])], SplitInclusive(tail));
      assert Map(StripEol, [WithBreak(ls[0])]) == [ls[0]];
      LinesOfEnded(ls[1..], rest);
    }
  }

  lemma LinesOfNothing()
    ensures Lines("") == []
  {
  }

  lemma LinesOfEndedAll(ls: seq<string>)
    requires AllBare(ls)
    ensures Lines(Flatten(Map(WithBreak, ls))) == ls
  {
    hide *;
    LinesOfEnded(ls, "");
    LinesOfNothing();
    assert Flatten(Map(WithBreak, ls)) + "" == Flatten(Map(WithBreak, ls));
    assert ls + [] == ls;
  }

  lemma {:induction false} JoinEnded(ls: seq<string>)
    requires ls != []
    ensures JoinLines(ls) + "\n" == Flatten(Map(WithBreak, ls))
  {
    if |ls| == 1 {
      EndedOne(ls[0]);
      assert ls == [ls[0]];
    } else {
      JoinEnded(ls[1..]);
      assert Map(WithBreak, ls)[1..] == Map(WithBreak, ls[1..]);
    }
  }

  lemma JoinSnoc(ls: seq<string>, l: string)
    requires ls != []
    ensures JoinLines(ls + [l]) == JoinLines(ls) + "\n" + l
  {
    hide JoinLines, Flatten, Map;
    JoinEnded(ls);
    JoinEnded(ls + [l]);
    EndedNext(ls, l);
    SameBeforeBreak(JoinLines(ls + [l]), JoinLines(ls) + "\n" + l);
  }

  lemma SameBeforeBreak(a: string, b: string)
    requires a + "\n" == b + "\n"
    ensures a == b
  {
    assert a == (a + "\n")[..|a + "\n"| - 1];
    assert b == (b + "\n")[..|b + "\n"| - 1];
  }

  /** The lines without the blank ones at the end, the last one trimmed. */
  function TrimTail(ls: seq<string>): seq<string> {
    if ls == [] then []
    else
      var l, rest := ls[|ls| - 1], ls[..|ls| - 1];
      if TrimEnd(l) == "" then TrimTail(rest) else rest + [TrimEnd(l)]
  }

  lemma {:induction false} TrimEndBehind(a: string, b: string)
    ensures TrimEnd(a + b) == if TrimEnd(b) == "" then TrimEnd(a) else a + TrimEnd(b)
    decreases |b|
  {
    var s := a + b;
    if b == "" {
      assert s == a;
    } else if IsSpace(b[|b| - 1]) {
      assert s[..|s| - 1] == a + b[..|b| - 1];
      TrimEndBehind(a, b[..|b| - 1]);
    }
  }

  lemma TrimEndBreak(a: string)
    ensures TrimEnd(a + "\n") == TrimEnd(a)
  {
    assert (a + "\n")[..|a|] == a;
  }

  /** Trimming the joined lines trims the list of lines. */
  lemma {:induction false} TrimJoined(ls: seq<string>)
    ensures TrimEnd(JoinLines(ls)) == JoinLines(TrimTail(ls))
  {
    hide TrimEnd, JoinLines;
    if ls == [] {
      TrimNothing();
    } else {
      var l, rest := ls[|ls| - 1], ls[..|ls| - 1];
      assert ls == rest + [l];
      if rest == [] {
        JoinOne(l);
        JoinOne(TrimEnd(l));
        TrimNothing();
        assert rest + [TrimEnd(l)] == [TrimEnd(l)] && ls == [l];
      } else {
        JoinSnoc(rest, l);
        JoinSnoc(rest, TrimEnd(l));
        TrimEndBehind(JoinLines(rest) + "\n", l);
        TrimEndBreak(JoinLines(rest));
        TrimJoined(rest);
      }
    }
  }

  lemma JoinOne(l: string)
    ensures JoinLines([l]) == l
  {
  }

  lemma TrimNothing()
    ensures TrimEnd("") == "" && JoinLines([]) == "" && TrimTail([]) == []
  {
  }

  /** What is left of a text: its lines outside the block, without the blank space at the end. */
  function Kept(content: string): seq<string> {
    TrimTail(StripLines(Lines(content), false))
  }

  lemma StripIs(content: string)
    ensures Strip(content) == JoinLines(Kept(content)) + "\n"
  {
    hide TrimTail, JoinLines, StripLines, Lines, TrimEnd;
    TrimJoined(StripLines(Lines(content), false));
  }

  lemma TrimEndBare(l: string)
    requires Bare(l)
    ensures Bare(TrimEnd(l))
  {
    hide TrimEnd;
    TrimEndParts(l);
    TrimEndLength(l);
    SolidEnd(TrimEnd(l));
  }

  lemma SolidEnd(l: string)
    requires l == "" || !IsSpace(l[|l| - 1])
    ensures !EndsInReturn(l)
  {
  }

  lemma {:induction false} TrimTailBare(ls: seq<string>)
    requires AllBare(ls)
    ensures AllBare(TrimTail(ls))
  {
    hide Bare, TrimEnd;
    if ls != [] {
      var l, rest := ls[|ls| - 1], ls[..|ls| - 1];
      TrimEndBare(l);
      if TrimEnd(l) == "" { TrimTailBare(rest); }
    }
  }

  lemma TrimEndLength(l: string)
    ensures |TrimEnd(l)| <= |l| && TrimEnd(l) == l[..|TrimEnd(l)|]
  {
    hide TrimEnd;
    TrimEndParts(l);
  }

  lemma {:induction false} StripLinesBare(ls: seq<string>, skip: bool)
    requires AllBare(ls)
    ensures AllBare(StripLines(ls, skip))
  {
    hide Bare, IsBegin, IsEnd;
    if ls != [] {
      StripLinesBare(ls[1..], true);
      StripLinesBare(ls[1..], false);
    }
  }

  lemma StripEolIsPrefix(l: string)
    ensures StripEol(l) <= l && l == StripEol(l) + l[|StripEol(l)|..]
  {
  }

  /** A text without carriage returns is such a text. */
  lemma {:induction false} NoReturnsIsPlain(content: string)
    requires '\r' !in content
    ensures PlainEnds(content)
    decreases |content|
  {
    hide SplitInclusive;
    if content == "" {
      SplitEmpty();
    } else {
      var n := FirstLineLength(content);
      var l, rest := content[..n], content[n..];
      assert content == l + rest;
      FirstLineOfLines(content);
      NoReturnsIsPlain(rest);
      StripEolBare(l);
    }
  }

  lemma FirstLineOfLines(content: string)
    requires content != ""
    ensures var n := FirstLineLength(content); Lines(content) == [StripEol(content[..n])] + Lines(content[n..])
  {
    hide StripEol, FirstLineLength;
    var n := FirstLineLength(content);
    MapAppend(StripEol, [content[..n]], SplitInclusive(content[n..]));
    assert Map(StripEol, [content[..n]]) == [StripEol(content[..n])];
  }

  lemma StripEolBare(l: string)
    requires IsLine(l) && '\r' !in l
    ensures Bare(StripEol(l))
  {
    assert l == l[..|l| - 1] + [l[|l| - 1]];
  }

  lemma KeptIsBare(content: string)
    requires PlainEnds(content)
    ensures AllBare(Kept(content))
  {
    hide *;
    PlainEndsIs(content);
    StripLinesBare(Lines(content), false);
    TrimTailBare(StripLines(Lines(content), false));
    KeptIs(content);
  }

  lemma PlainEndsIs(content: string)
    ensures PlainEnds(content) <==> AllBare(Lines(content))
  {
    hide AllBare, Lines;
  }

  lemma KeptIs(content: string)
    ensures Kept(content) == TrimTail(StripLines(Lines(content), false))
  {
  }

  // ----- a block behind a text -----

  predicate AreNames(agents: seq<string>) {
    forall i :: 0 <= i < |agents| ==> NoNewline(agents[i])
  }

  lemma LastNotInSpace(l: string, k: nat)
    requires k <= |l| && AllSpace(l[..k]) && l != "" && !IsSpace(l[|l| - 1])
    ensures k < |l|
  {
    assert forall i :: 0 <= i < k ==> l[..k][i] == l[i];
  }

  lemma LastOfTrimStart(l: string)
    requires l != "" && !IsSpace(l[|l| - 1])
    ensures TrimStart(l) != "" && TrimStart(l)[|TrimStart(l)| - 1] == l[|l| - 1]
  {
    hide TrimStart;
    var k := TrimStartParts(l);
    LastNotInSpace(l, k);
  }

  lemma AgentLineFacts(windows: bool, a: string)
    requires NoNewline(a)
    ensures Bare(AgentLine(windows)(a)) && !IsMarker(AgentLine(windows)(a))
  {
    hide TrimStart, Bare;
    AgentLineParts(windows, a);
    LastOfTrimStart(AgentLine(windows)(a));
    MarkerEnds();
  }

  lemma AgentLineParts(windows: bool, a: string)
    requires NoNewline(a)
    ensures var l := AgentLine(windows)(a); Bare(l) && l != "" && l[|l| - 1] == '}' && !IsSpace('}')
  {
    var l := AgentLine(windows)(a);
    var head, tail := if windows then "function " + a else a + "() { raios run " + a,
      if windows then " { raios run " + a + " @args }" else " \"$@\"; }";
    assert l == head + tail;
    assert l[|l| - 1] == '}';
  }

  lemma MarkerEnds()
    ensures BLOCK_END[|BLOCK_END| - 1] == 'd' && BLOCK_BEGIN[|BLOCK_BEGIN| - 1] == 'n'
  {
  }

  lemma FixedStarts()
    ensures TrimStart(ABOUT) == ABOUT && TrimStart(HINT) == HINT
    ensures TrimStart(BLOCK_BEGIN) == BLOCK_BEGIN && TrimStart(BLOCK_END) == BLOCK_END
  {
    hide TrimStart;
    HashStarts(ABOUT);
    HashStarts(HINT);
    HashStarts(BLOCK_BEGIN);
    HashStarts(BLOCK_END);
  }

  lemma HashStarts(l: string)
    requires l != "" && l[0] == '#'
    ensures TrimStart(l) == l
  {
  }

  lemma FixedLines()
    ensures IsBegin(BLOCK_BEGIN) && IsEnd(BLOCK_END) && !IsBegin(BLOCK_END) && !IsMarker(ABOUT) && !IsMarker(HINT)
    ensures Bare(BLOCK_BEGIN) && Bare(BLOCK_END) && Bare(ABOUT) && Bare(HINT)
  {
    hide TrimStart, Bare;
    FixedStarts();
    assert |BLOCK_BEGIN| == 27 && |BLOCK_END| == 25 && |ABOUT| > 27 && |HINT| > 27;
    LiteralsAreBare();
  }

  lemma BareAppend(a: string, b: string)
    requires Bare(a) && Bare(b)
    ensures Bare(a + b)
  {
  }

  lemma AboutParts()
    ensures Bare("# R-AI-OS: route agent calls") && Bare(" through raios")
  {
  }

  lemma MoreAboutParts()
    ensures Bare(" (UMAI shield") && Bare(" + session capture)")
  {
  }

  lemma HintParts()
    ensures Bare("# Remove with: raios ") && Bare("agent-wrapper remove")
  {
  }

  lemma LiteralsAreBare()
    ensures Bare(BLOCK_BEGIN) && Bare(BLOCK_END) && Bare(ABOUT) && Bare(HINT)
  {
    MarkersAreBare();
    hide Bare;
    AboutParts();
    MoreAboutParts();
    HintParts();
    BareAppend(" (UMAI shield", " + session capture)");
    BareAppend(" through raios", " (UMAI shield" + " + session capture)");
    BareAppend("# R-AI-OS: route agent calls", " through raios" + (" (UMAI shield" + " + session capture)"));
    BareAppend("# Remove with: raios ", "agent-wrapper remove");
  }

  lemma MarkersAreBare()
    ensures Bare(BLOCK_BEGIN) && Bare(BLOCK_END)
  {
  }

  lemma BlockLinesAreBare(windows: bool, agents: seq<string>)
    requires AreNames(agents)
    ensures AllBare(BlockLines(windows, agents))
  {
    hide AgentLine, Bare, IsEnd, IsBegin;
    FixedLines();
    var ls := BlockLines(windows, agents);
    forall i | 0 <= i < |ls| ensures Bare(ls[i]) {
      if 3 <= i < 3 + |agents| {
        AgentLineFacts(windows, agents[i - 3]);
      }
    }
  }

  predicate NoneEnds(ls: seq<string>) {
    forall i :: 0 <= i < |ls| ==> !IsEnd(ls[i])
  }

  lemma {:induction false} SkippedLines(ls: seq<string>)
    requires NoneEnds(ls)
    ensures StripLines(ls, true) == [] && SkipAfter(ls, true)
  {
    hide IsBegin, IsEnd;
    if ls != [] { SkippedLines(ls[1..]); }
  }

  /** Nothing is left of a block, and nothing behind it is skipped. */
  lemma BlockIsStripped(windows: bool, agents: seq<string>, skip: bool)
    requires AreNames(agents)
    ensures StripLines(BlockLines(windows, agents), skip) == [] && !SkipAfter(BlockLines(windows, agents), skip)
  {
    hide AgentLine, Bare, IsEnd, IsBegin, StripLines, SkipAfter;
    FixedLines();
    var inner := [ABOUT, HINT] + Map(AgentLine(windows), agents);
    forall i | 0 <= i < |inner| ensures !IsEnd(inner[i]) {
      if i >= 2 { AgentLineFacts(windows, agents[i - 2]); }
    }
    assert BlockLines(windows, agents) == [BLOCK_BEGIN] + inner + [BLOCK_END];
    StripLinesAppend([BLOCK_BEGIN] + inner, [BLOCK_END], skip);
    StripLinesAppend([BLOCK_BEGIN], inner, skip);
    SkipAfterAppend([BLOCK_BEGIN] + inner, [BLOCK_END], skip);
    SkipAfterAppend([BLOCK_BEGIN], inner, skip);
    StripOne(BLOCK_BEGIN, skip);
    StripOne(BLOCK_END, true);
    SkippedLines(inner);
  }

  /** A text is its lines with breaks in between, and maybe one at the end. */
  lemma {:induction false} TextOfLines(content: string)
    requires '\r' !in content
    ensures content == JoinLines(Lines(content)) + if Terminated(content) then "\n" else ""
    ensures Lines(content) == [] <==> content == ""
    decreases |content|
  {
    hide SplitInclusive, JoinLines, FirstLineLength;
    if content == "" {
      SplitEmpty();
      TrimNothing();
    } else {
      var n := FirstLineLength(content);
      var l, rest := content[..n], content[n..];
      assert content == l + rest;
      FirstLineOfLines(content);
      TextOfLines(rest);
      BareEol(l);
      if rest == "" {
        assert Lines(content) == [StripEol(l)];
        JoinOne(StripEol(l));
      } else {
        JoinCons(StripEol(l), Lines(rest));
      }
    }
  }

  lemma JoinCons(l: string, ls: seq<string>)
    requires ls != []
    ensures JoinLines([l] + ls) == l + "\n" + JoinLines(ls)
  {
    assert ([l] + ls)[1..] == ls;
  }

  lemma BareEol(l: string)
    requires '\r' !in l
    ensures l == StripEol(l) + if Terminated(l) then "\n" else ""
  {
    if Terminated(l) {
      assert l == l[..|l| - 1] + "\n";
    }
  }

  /** A line break behind an unfinished text changes none of its lines. */
  lemma LinesFinished(content: string)
    requires !Whole(content) && !EndsInReturn(content)
    ensures Lines(content + "\n") == Lines(content)
  {
    hide SplitInclusive, Whole, WellFormed, Flatten, StripEol;
    var ls := SplitInclusive(content);
    UnfinishedLast(content);
    BreakIsLine();
    SplitJoined(content, "\n");
    LastAndInit(ls);
    SplitThenFlatten(content);
    SplitIsWellFormed(content);
    var front, l := ls[..|ls| - 1], ls[|ls| - 1];
    WellFormedLine(ls, |ls| - 1);
    LastReturn(content, Flatten(front), l);
    StripFinished(l);
    MapAppend(StripEol, front, [l]);
    MapAppend(StripEol, front, [l + "\n"]);
    assert Map(StripEol, [l]) == [StripEol(l)] == [StripEol(l + "\n")] == Map(StripEol, [l + "\n"]);
  }

  lemma LastReturn(content: string, front: string, l: string)
    requires content == front + l && l != ""
    ensures EndsInReturn(content) <==> EndsInReturn(l)
  {
  }

  lemma StripFinished(l: string)
    requires !Terminated(l) && !EndsInReturn(l)
    ensures StripEol(l + "\n") == StripEol(l) == l
  {
    assert (l + "\n")[..|l|] == l;
  }

  lemma LinesOfBlock(windows: bool, agents: seq<string>)
    requires AreNames(agents)
    ensures Lines(Flatten(Map(WithBreak, BlockLines(windows, agents)))) == BlockLines(windows, agents)
    ensures Lines(Block(windows, agents)) == [""] + BlockLines(windows, agents)
  {
    hide *;
    var bs := BlockLines(windows, agents);
    BlockLinesAreBare(windows, agents);
    LinesOfEndedAll(bs);
    EmptyIsBare();
    AllBareAppend([""], bs);
    LinesOfEndedAll([""] + bs);
    EndedAppend([""], bs);
    EndedOne("");
    BlockIs(windows, agents);
    assert "" + "\n" == "\n";
  }

  lemma LinesAppend(a: string, b: string)
    requires Whole(a)
    ensures Lines(a + b) == Lines(a) + Lines(b)
  {
    hide SplitInclusive, StripEol;
    SplitAppend(a, b);
    MapAppend(StripEol, SplitInclusive(a), SplitInclusive(b));
  }

  /** The lines of a text with a block behind it. */
  lemma LinesWithBlock(windows: bool, content: string, agents: seq<string>)
    requires !EndsInReturn(content) && AreNames(agents)
    ensures Lines(content + Block(windows, agents)) ==
      Lines(content) + (if Whole(content) then [""] else []) + BlockLines(windows, agents)
  {
    hide *;
    LinesOfBlock(windows, agents);
    if Whole(content) {
      LinesAppend(content, Block(windows, agents));
    } else {
      var rest := Flatten(Map(WithBreak, BlockLines(windows, agents)));
      LinesFinished(content);
      WithBreakIsWhole(content);
      BlockIs(windows, agents);
      LinesAppend(content + "\n", rest);
      assert content + ("\n" + rest) == content + "\n" + rest;
      assert Lines(content) + [] == Lines(content);
    }
  }

  lemma WithBreakIsWhole(content: string)
    ensures Whole(content + "\n")
  {
  }

  lemma ReturnIsUnfinished(content: string)
    ensures EndsInReturn(content) ==> !Whole(content)
  {
  }

  lemma UnfinishedLine(content: string)
    requires !Whole(content)
    ensures Lines(content) != []
    ensures EndsInReturn(content) <==> EndsInReturn(Lines(content)[|Lines(content)| - 1])
  {
    hide SplitInclusive, Flatten, Whole, WellFormed;
    UnfinishedLast(content);
    var ls := SplitInclusive(content);
    LastAndInit(ls);
    SplitThenFlatten(content);
    SplitIsWellFormed(content);
    WellFormedLine(ls, |ls| - 1);
    LastReturn(content, Flatten(ls[..|ls| - 1]), ls[|ls| - 1]);
  }

  lemma PlainEndsInNoReturn(content: string)
    requires PlainEnds(content)
    ensures !EndsInReturn(content)
  {
    hide Lines, Whole, EndsInReturn;
    ReturnIsUnfinished(content);
    if !Whole(content) {
      UnfinishedLine(content);
      assert Bare(Lines(content)[|Lines(content)| - 1]);
    }
  }

  lemma EmptyIsBare()
    ensures AllBare([""])
  {
  }

  lemma AllBareAppend(a: seq<string>, b: seq<string>)
    requires AllBare(a) && AllBare(b)
    ensures AllBare(a + b)
  {
    hide Bare;
  }

  lemma TrimTailGap(ls: seq<string>)
    ensures TrimTail(ls + [""]) == TrimTail(ls)
  {
    assert (ls + [""])[..|ls|] == ls;
  }

  lemma EmptyIsNoMarker(skip: bool)
    ensures StripLines([""], skip) == (if skip then [] else [""])
  {
    hide StripLines;
    StripOne("", skip);
  }

  /** A block put behind a text is stripped off again, whatever the text holds. */
  lemma KeptWithBlock(windows: bool, content: string, agents: seq<string>)
    requires !EndsInReturn(content) && AreNames(agents)
    ensures Kept(content + Block(windows, agents)) == Kept(content)
  {
    hide *;
    var ls, bs := Lines(content), BlockLines(windows, agents);
    LinesWithBlock(windows, content, agents);
    var out, skip := StripLines(ls, false), SkipAfter(ls, false);
    KeptIs(content);
    KeptIs(content + Block(windows, agents));
    if Whole(content) {
      StripLinesAppend(ls + [""], bs, false);
      StripLinesAppend(ls, [""], false);
      BlockIsStripped(windows, agents, SkipAfter(ls + [""], false));
      EmptyIsNoMarker(skip);
      TrimTailGap(out);
      assert out + [] == out && out + [""] + [] == out + [""];
    } else {
      assert ls + [] + bs == ls + bs;
      StripLinesAppend(ls, bs, false);
      BlockIsStripped(windows, agents, skip);
      assert out + [] == out;
    }
  }

  // ----- stripping twice -----

  predicate NoMarkers(ls: seq<string>) {
    forall i :: 0 <= i < |ls| ==> !IsMarker(ls[i])
  }

  /** Trimming has turned the last line into a marker. */
  predicate EndsInMarker(ls: seq<string>) {
    ls != [] && IsMarker(ls[|ls| - 1])
  }

  /** The kept lines without a last one that trimming has turned into a marker. */
  function Peeled(ls: seq<string>): seq<string> {
    if EndsInMarker(ls) then TrimTail(ls[..|ls| - 1]) else ls
  }

  lemma {:induction false} StrippedHasNoMarkers(ls: seq<string>, skip: bool)
    ensures NoMarkers(StripLines(ls, skip))
  {
    hide IsBegin, IsEnd;
    if ls != [] {
      StrippedHasNoMarkers(ls[1..], true);
      StrippedHasNoMarkers(ls[1..], false);
    }
  }

  lemma {:induction false} NothingToStrip(ls: seq<string>)
    requires NoMarkers(ls)
    ensures StripLines(ls, false) == ls && !SkipAfter(ls, false)
  {
    hide IsBegin, IsEnd;
    if ls != [] {
      assert !IsMarker(ls[0]);
      NothingToStrip(ls[1..]);
      assert ls == [ls[0]] + ls[1..];
    }
  }

  lemma {:induction false} TrimTailKeepsFront(ls: seq<string>)
    requires NoMarkers(ls)
    ensures TrimTail(ls) != [] ==> NoMarkers(TrimTail(ls)[..|TrimTail(ls)| - 1])
  {
    hide IsMarker, TrimEnd;
    if ls != [] {
      var l, rest := ls[|ls| - 1], ls[..|ls| - 1];
      if TrimEnd(l) == "" {
        TrimTailKeepsFront(rest);
      } else {
        assert (rest + [TrimEnd(l)])[..|rest|] == rest;
      }
    }
  }

  lemma {:induction false} TrimEndTwice(l: string)
    ensures TrimEnd(TrimEnd(l)) == TrimEnd(l)
  {
    if l != "" && IsSpace(l[|l| - 1]) { TrimEndTwice(l[..|l| - 1]); }
  }

  lemma {:induction false} TrimTailTwice(ls: seq<string>)
    ensures TrimTail(TrimTail(ls)) == TrimTail(ls)
  {
    hide TrimEnd;
    if ls != [] {
      var l, rest := ls[|ls| - 1], ls[..|ls| - 1];
      if TrimEnd(l) == "" {
        TrimTailTwice(rest);
      } else {
        TrimEndTwice(l);
        assert (rest + [TrimEnd(l)])[..|rest|] == rest;
      }
    }
  }

  lemma KeptFront(content: string)
    ensures Kept(content) != [] ==> NoMarkers(Kept(content)[..|Kept(content)| - 1])
    ensures TrimTail(Kept(content)) == Kept(content)
  {
    hide *;
    KeptIs(content);
    StrippedHasNoMarkers(Lines(content), false);
    TrimTailKeepsFront(StripLines(Lines(content), false));
    TrimTailTwice(StripLines(Lines(content), false));
  }

  lemma LinesOfStrip(content: string)
    requires PlainEnds(content)
    ensures Lines(Strip(content)) == if Kept(content) == [] then [""] else Kept(content)
    ensures Strip(content) == Flatten(Map(WithBreak, Lines(Strip(content))))
    ensures PlainEnds(Strip(content)) && Whole(Strip(content)) && !EndsInReturn(Strip(content))
  {
    hide Kept, Lines, Flatten, Map, JoinLines, Strip, Bare;
    StripIs(content);
    KeptIsBare(content);
    var ks := Kept(content);
    EmptyIsBare();
    if ks == [] {
      LinesOfEndedAll([""]);
      EndedOne("");
      TrimNothing();
    } else {
      JoinEnded(ks);
      LinesOfEndedAll(ks);
    }
  }

  lemma FrontAndLast(ls: seq<string>)
    requires ls != []
    ensures ls == ls[..|ls| - 1] + [ls[|ls| - 1]]
  {
  }

  /** A second stripping changes nothing, unless trimming has made a marker of the last line. */
  lemma KeptOfStrip(content: string)
    requires PlainEnds(content)
    ensures Kept(Strip(content)) == Peeled(Kept(content))
  {
    hide Kept, Lines, TrimTail, Strip, StripLines, SkipAfter, IsMarker, NoMarkers;
    var ks := Kept(content);
    LinesOfStrip(content);
    KeptIs(Strip(content));
    KeptFront(content);
    if ks == [] {
      EmptyIsNoMarker(false);
      TrimTailGap([]);
      assert [] + [""] == [""];
    } else {
      var front, last := ks[..|ks| - 1], ks[|ks| - 1];
      FrontAndLast(ks);
      NothingToStrip(front);
      StripLinesAppend(front, [last], false);
      StripOne(last, false);
      assert front + [] == front;
    }
  }

  lemma ShorterWithoutLast(ks: seq<string>)
    requires EndsInMarker(ks)
    ensures |JoinLines(Peeled(ks))| < |JoinLines(ks)|
  {
    hide JoinLines, TrimTail, TrimStart;
    var front, last := ks[..|ks| - 1], ks[|ks| - 1];
    FrontAndLast(ks);
    TrimJoined(front);
    TrimEndLength(JoinLines(front));
    MarkerIsSome(last);
    if front == [] {
      JoinOne(last);
      TrimNothing();
    } else {
      JoinSnoc(front, last);
    }
  }

  lemma MarkerIsSome(l: string)
    requires IsMarker(l)
    ensures l != ""
  {
  }

  /** For every text without carriage returns: installing and stripping leaves what stripping
      leaves, exactly if nothing was there to be replaced or the last kept line is not a marker
      once it is trimmed. */
  lemma StripOfInstall(windows: bool, content: string, agents: seq<string>)
    requires PlainEnds(content) && AreNames(agents)
    ensures Strip(Install(windows, content, agents)) == Strip(content) <==>
      (!ContainsText(content, BLOCK_BEGIN) || !EndsInMarker(Kept(content)))
  {
    hide Kept, Strip, Block, ContainsText, EndsInMarker, TrimTail, JoinLines, PlainEnds, AreNames;
    StripIs(content);
    StripIs(Install(windows, content, agents));
    if ContainsText(content, BLOCK_BEGIN) {
      LinesOfStrip(content);
      KeptWithBlock(windows, Strip(content), agents);
      KeptOfStrip(content);
      if EndsInMarker(Kept(content)) {
        ShorterWithoutLast(Kept(content));
      }
    } else {
      PlainEndsInNoReturn(content);
      KeptWithBlock(windows, content, agents);
    }
  }

  lemma PaddedMarker()
    ensures !IsMarker(BLOCK_END + " ") && TrimEnd(BLOCK_END + " ") == BLOCK_END && Bare(BLOCK_END + " ")
    ensures IsEnd(BLOCK_END) && IsBegin(BLOCK_BEGIN) && !IsBegin(BLOCK_END) && Bare(BLOCK_BEGIN) && Bare(BLOCK_END)
  {
    hide TrimStart, TrimEnd, Bare;
    HashStarts(BLOCK_END + " ");
    HashStarts(BLOCK_END);
    HashStarts(BLOCK_BEGIN);
    TrimEndUnique(BLOCK_END, " ");
    assert |BLOCK_END + " "| == 26 && |BLOCK_BEGIN| == 27 && |BLOCK_END| == 25;
    MarkersAreBare();
    BlankIsBare();
    BareAppend(BLOCK_END, " ");
  }

  lemma BlankIsBare()
    ensures Bare(" ")
  {
  }

  lemma PaddedKept(ls: seq<string>)
    requires ls == [BLOCK_BEGIN, BLOCK_END, BLOCK_END + " "]
    ensures TrimTail(StripLines(ls, false)) == [BLOCK_END]
  {
    hide IsBegin, IsEnd, TrimEnd, StripLines;
    PaddedMarker();
    assert ls == [BLOCK_BEGIN] + ([BLOCK_END] + [BLOCK_END + " "]);
    StripLinesAppend([BLOCK_BEGIN], [BLOCK_END] + [BLOCK_END + " "], false);
    StripLinesAppend([BLOCK_END], [BLOCK_END + " "], true);
    StripOne(BLOCK_BEGIN, false);
    StripOne(BLOCK_END, true);
    StripOne(BLOCK_END + " ", false);
    assert StripLines(ls, false) == [BLOCK_END + " "];
    assert [BLOCK_END + " "][..0] == [];
  }

  /** Behind an empty block an end marker with a blank behind it: it is kept at first, the blank is
      trimmed, and from then on it counts as a marker. */
  lemma PaddedMarkerExample(windows: bool, agents: seq<string>)
    requires AreNames(agents)
    ensures var content := BLOCK_BEGIN + "\n" + (BLOCK_END + "\n") + (BLOCK_END + " " + "\n");
            Strip(content) == BLOCK_END + "\n" && Strip(Install(windows, content, agents)) != Strip(content)
  {
    hide *;
    var content := BLOCK_BEGIN + "\n" + (BLOCK_END + "\n") + (BLOCK_END + " " + "\n");
    var ls := [BLOCK_BEGIN, BLOCK_END, BLOCK_END + " "];
    PaddedMarker();
    BareThree(BLOCK_BEGIN, BLOCK_END, BLOCK_END + " ");
    EndedThree(BLOCK_BEGIN, BLOCK_END, BLOCK_END + " ");
    LinesOfEndedAll(ls);
    PlainEndsIs(content);
    PaddedKept(ls);
    KeptIs(content);
    StripIs(content);
    JoinOne(BLOCK_END);
    OneMarkerEnds();
    JoinEnded(ls);
    StartsWith(BLOCK_BEGIN, "\n" + (BLOCK_END + "\n") + (BLOCK_END + " " + "\n"));
    assert BLOCK_BEGIN + ("\n" + (BLOCK_END + "\n") + (BLOCK_END + " " + "\n")) == content;
    StripOfInstall(windows, content, agents);
  }

  lemma OneMarkerEnds()
    ensures EndsInMarker([BLOCK_END])
  {
    hide TrimStart;
    HashStarts(BLOCK_END);
  }

  lemma BareThree(a: string, b: string, c: string)
    requires Bare(a) && Bare(b) && Bare(c)
    ensures AllBare([a, b, c])
  {
  }

  lemma EndedThree(a: string, b: string, c: string)
    ensures Flatten(Map(WithBreak, [a, b, c])) == a + "\n" + (b + "\n") + (c + "\n")
  {
    hide Flatten;
    assert [a, b, c] == [a] + [b] + [c];
    EndedAppend([a] + [b], [c]);
    EndedAppend([a], [b]);
    EndedOne(a);
    EndedOne(b);
    EndedOne(c);
  }

  // ----- installing again and again -----

  lemma {:induction false} ContainsBehind(a: string, b: string, t: string)
    requires ContainsText(b, t)
    ensures ContainsText(a + b, t)
  {
    var i :| 0 <= i <= |b| && t <= b[i..];
    assert (a + b)[|a| + i..] == b[i..];
  }

  lemma ContainsBefore(a: string, b: string, t: string)
    requires ContainsText(a, t)
    ensures ContainsText(a + b, t)
  {
    var i :| 0 <= i <= |a| && t <= a[i..];
    assert (a + b)[i..] == a[i..] + b;
  }

  lemma StartsWith(t: string, b: string)
    ensures ContainsText(t + b, t)
  {
    assert (t + b)[0..] == t + b;
  }

  lemma BlockContainsBegin(windows: bool, content: string, agents: seq<string>)
    ensures ContainsText(content + Block(windows, agents), BLOCK_BEGIN)
  {
    hide ContainsText, AgentLine, Map, Flatten;
    var middle := Flatten(Map(WithBreak, Map(AgentLine(windows), agents)));
    var rest := "\n" + (ABOUT + "\n") + (HINT + "\n") + middle + (BLOCK_END + "\n");
    BlockParts(windows, agents, "\n" + BLOCK_BEGIN + "\n" + (ABOUT + "\n") + (HINT + "\n"));
    BeginInside(BLOCK_BEGIN, ABOUT + "\n", HINT + "\n", middle, BLOCK_END + "\n");
    StartsWith(BLOCK_BEGIN, rest);
    ContainsBehind("\n", BLOCK_BEGIN + rest, BLOCK_BEGIN);
    ContainsBehind(content, "\n" + (BLOCK_BEGIN + rest), BLOCK_BEGIN);
  }

  lemma BeginInside(b: string, a: string, h: string, m: string, e: string)
    ensures "\n" + b + "\n" + a + h + m + e == "\n" + (b + ("\n" + a + h + m + e))
  {
  }

  function InstallAll(windows: bool, content: string, lists: seq<seq<string>>): string {
    if lists == [] then content
    else Install(windows, InstallAll(windows, content, lists[..|lists| - 1]), lists[|lists| - 1])
  }

  predicate AllNames(lists: seq<seq<string>>) {
    forall i :: 0 <= i < |lists| ==> AreNames(lists[i])
  }

  lemma InstallIs(windows: bool, content: string, agents: seq<string>)
    ensures Install(windows, content, agents) ==
      (if ContainsText(content, BLOCK_BEGIN) then Strip(content) else content) + Block(windows, agents)
  {
    hide ContainsText, Strip, Block;
  }

  lemma WithBlockIsPlain(windows: bool, content: string, agents: seq<string>)
    requires PlainEnds(content) && AreNames(agents)
    ensures PlainEnds(content + Block(windows, agents))
  {
    hide *;
    PlainEndsInNoReturn(content);
    LinesWithBlock(windows, content, agents);
    PlainEndsIs(content);
    PlainEndsIs(content + Block(windows, agents));
    BlockLinesAreBare(windows, agents);
    EmptyIsBare();
    AllBareAppend(Lines(content), [""]);
    AllBareAppend(Lines(content) + [""], BlockLines(windows, agents));
    AllBareAppend(Lines(content), BlockLines(windows, agents));
    assert Lines(content) + [] == Lines(content);
  }

  lemma InstallFacts(windows: bool, content: string, agents: seq<string>)
    requires PlainEnds(content) && AreNames(agents)
    ensures PlainEnds(Install(windows, content, agents))
    ensures ContainsText(Install(windows, content, agents), BLOCK_BEGIN)
  {
    hide *;
    InstallIs(windows, content, agents);
    LinesOfStrip(content);
    WithBlockIsPlain(windows, Strip(content), agents);
    WithBlockIsPlain(windows, content, agents);
    BlockContainsBegin(windows, Strip(content), agents);
    BlockContainsBegin(windows, content, agents);
  }

  lemma InstallAllNext(windows: bool, content: string, lists: seq<seq<string>>)
    requires lists != []
    ensures InstallAll(windows, content, lists) ==
      Install(windows, InstallAll(windows, content, lists[..|lists| - 1]), lists[|lists| - 1])
  {
  }

  lemma InstallAllNone(windows: bool, content: string)
    ensures InstallAll(windows, content, []) == content
  {
  }

  lemma AllNamesParts(lists: seq<seq<string>>)
    requires AllNames(lists) && lists != []
    ensures AllNames(lists[..|lists| - 1]) && AreNames(lists[|lists| - 1])
  {
    hide AreNames;
  }

  /** What further installs keep: one more marker is peeled off each time a block is replaced. */
  function PeeledTimes(ls: seq<string>, n: nat): seq<string> {
    if n == 0 then ls else Peeled(PeeledTimes(ls, n - 1))
  }

  lemma PeeledTimesNext(ls: seq<string>, n: nat)
    ensures PeeledTimes(ls, 0) == ls && PeeledTimes(ls, n + 1) == Peeled(PeeledTimes(ls, n))
  {
    hide Peeled;
  }

  lemma PeeledIs(ls: seq<string>)
    ensures !EndsInMarker(ls) ==> Peeled(ls) == ls
  {
  }

  lemma {:induction false} PeeledTimesLength(ls: seq<string>, n: nat)
    ensures |JoinLines(PeeledTimes(ls, n))| <= |JoinLines(ls)|
    ensures !EndsInMarker(ls) ==> PeeledTimes(ls, n) == ls
    ensures EndsInMarker(ls) && n > 0 ==> |JoinLines(PeeledTimes(ls, n))| < |JoinLines(ls)|
  {
    hide *;
    if n == 0 {
      PeeledTimesNext(ls, 0);
    } else {
      PeeledTimesNext(ls, 0);
      PeeledTimesNext(ls, n - 1);
      PeeledTimesLength(ls, n - 1);
      var before := PeeledTimes(ls, n - 1);
      PeeledIs(before);
      if EndsInMarker(before) { ShorterWithoutLast(before); }
    }
  }

  lemma InstallKeeps(windows: bool, content: string, agents: seq<string>)
    requires PlainEnds(content) && AreNames(agents)
    ensures Kept(Install(windows, content, agents)) ==
      if ContainsText(content, BLOCK_BEGIN) then Peeled(Kept(content)) else Kept(content)
  {
    hide *;
    InstallIs(windows, content, agents);
    if ContainsText(content, BLOCK_BEGIN) {
      LinesOfStrip(content);
      KeptWithBlock(windows, Strip(content), agents);
      KeptOfStrip(content);
    } else {
      PlainEndsInNoReturn(content);
      KeptWithBlock(windows, content, agents);
    }
  }

  /** How many of the installs replace a block: all, or all but the first. */
  function Replacing(content: string, lists: seq<seq<string>>): nat {
    if lists == [] then 0 else if ContainsText(content, BLOCK_BEGIN) then |lists| else |lists| - 1
  }

  lemma ReplacingNone(content: string)
    ensures Replacing(content, []) == 0
  {
  }

  lemma ReplacingNext(content: string, lists: seq<seq<string>>)
    requires lists != []
    ensures Replacing(content, lists) == Replacing(content, lists[..|lists| - 1]) +
      if |lists| == 1 && !ContainsText(content, BLOCK_BEGIN) then 0 else 1
  {
    hide ContainsText;
  }

  lemma {:induction false} InstallAllFacts(windows: bool, content: string, lists: seq<seq<string>>)
    requires PlainEnds(content) && AllNames(lists)
    ensures PlainEnds(InstallAll(windows, content, lists))
    ensures Kept(InstallAll(windows, content, lists)) == PeeledTimes(Kept(content), Replacing(content, lists))
    ensures lists != [] ==> ContainsText(InstallAll(windows, content, lists), BLOCK_BEGIN)
  {
    hide *;
    var ks := Kept(content);
    if lists == [] {
      InstallAllNone(windows, content);
      ReplacingNone(content);
      PeeledTimesNext(ks, 0);
    } else {
      AllNamesParts(lists);
      InstallAllFacts(windows, content, lists[..|lists| - 1]);
      InstallAllNext(windows, content, lists);
      var before := InstallAll(windows, content, lists[..|lists| - 1]);
      InstallFacts(windows, before, lists[|lists| - 1]);
      InstallKeeps(windows, before, lists[|lists| - 1]);
      ReplacingNext(content, lists);
      PeeledTimesNext(ks, Replacing(content, lists[..|lists| - 1]));
      if |lists| == 1 {
        assert lists[..0] == [];
        InstallAllNone(windows, content);
      }
    }
  }

  /** After any number of installs with any agent lists, the last of which replaced a block: the
      text is what is kept of the original, one marker peeled off for each replacement before the
      last, and the block of the last list. */
  lemma InstallAllExactly(windows: bool, content: string, lists: seq<seq<string>>)
    requires PlainEnds(content) && AllNames(lists) && Replacing(content, lists) > 0
    ensures InstallAll(windows, content, lists) ==
      JoinLines(PeeledTimes(Kept(content), Replacing(content, lists) - 1)) + "\n" + Block(windows, lists[|lists| - 1])
  {
    hide *;
    ReplacingNone(content);
    var before := InstallAll(windows, content, lists[..|lists| - 1]);
    AllNamesParts(lists);
    InstallAllFacts(windows, content, lists[..|lists| - 1]);
    InstallAllNext(windows, content, lists);
    ReplacingNext(content, lists);
    if |lists| == 1 {
      assert lists[..0] == [];
      InstallAllNone(windows, content);
    }
    InstallIs(windows, before, lists[|lists| - 1]);
    StripIs(before);
  }

  lemma SameBefore(a: string, b: string, c: string)
    ensures a + c == b + c <==> a == b
  {
    assert (a + c)[..|a + c| - |c|] == a && (b + c)[..|b + c| - |c|] == b;
  }

  /** From the first install that replaces a block on, the text depends only on the original and the
      last agent list, exactly if there was one such install or the last kept line is no marker. */
  lemma InstallRuns(windows: bool, content: string, lists: seq<seq<string>>)
    requires PlainEnds(content) && AllNames(lists) && Replacing(content, lists) > 0
    ensures InstallAll(windows, content, lists) == Strip(content) + Block(windows, lists[|lists| - 1]) <==>
      (Replacing(content, lists) == 1 || !EndsInMarker(Kept(content)))
  {
    hide *;
    ReplacingNone(content);
    var ks, n := Kept(content), Replacing(content, lists) - 1;
    InstallAllExactly(windows, content, lists);
    StripIs(content);
    PeeledTimesNext(ks, 0);
    PeeledTimesLength(ks, n);
    SameBefore(JoinLines(PeeledTimes(ks, n)) + "\n", JoinLines(ks) + "\n", Block(windows, lists[|lists| - 1]));
    SameBefore(JoinLines(PeeledTimes(ks, n)), JoinLines(ks), "\n");
  }

  /** The block itself has one marker at each end. */
  lemma BlockMarkers(windows: bool, agents: seq<string>)
    requires AreNames(agents)
    ensures Filter(IsMarker, BlockLines(windows, agents)) == [BLOCK_BEGIN, BLOCK_END]
  {
    hide AgentLine, Bare, IsEnd, IsBegin, Filter;
    FixedLines();
    var ls := Map(AgentLine(windows), agents);
    forall i | 0 <= i < |ls| ensures !IsMarker(ls[i]) { AgentLineFacts(windows, agents[i]); }
    var head := [BLOCK_BEGIN, ABOUT, HINT];
    FilterAppend(IsMarker, head + ls, [BLOCK_END]);
    FilterAppend(IsMarker, head, ls);
    FilterNone(IsMarker, ls);
    assert head == [BLOCK_BEGIN] + [ABOUT, HINT];
    FilterAppend(IsMarker, [BLOCK_BEGIN], [ABOUT, HINT]);
    FilterNone(IsMarker, [ABOUT, HINT]);
    FilterAll(IsMarker, [BLOCK_BEGIN]);
    FilterAll(IsMarker, [BLOCK_END]);
  }

  /** A text that an install leaves in place of an old block holds exactly one block, exactly if
      the last kept line is no marker. */
  lemma OneBlock(windows: bool, content: string, agents: seq<string>)
    requires PlainEnds(content) && AreNames(agents)
    ensures Filter(IsMarker, Lines(Strip(content) + Block(windows, agents))) == [BLOCK_BEGIN, BLOCK_END] <==>
      !EndsInMarker(Kept(content))
  {
    hide *;
    LinesOfStrip(content);
    LinesWithBlock(windows, Strip(content), agents);
    MarkersOfStrip(content);
    var ls := Lines(Strip(content));
    FilterAppend(IsMarker, ls + [""], BlockLines(windows, agents));
    FilterAppend(IsMarker, ls, [""]);
    EmptyUnmarked();
    FilterOne(IsMarker, "");
    BlockMarkers(windows, agents);
    assert Filter(IsMarker, ls) + [] == Filter(IsMarker, ls);
    assert [] + [BLOCK_BEGIN, BLOCK_END] == [BLOCK_BEGIN, BLOCK_END];
  }

  /** The only marker that stripping can leave is the last line. */
  lemma MarkersOfStrip(content: string)
    requires PlainEnds(content)
    ensures Filter(IsMarker, Lines(Strip(content))) ==
      if EndsInMarker(Kept(content)) then [Kept(content)[|Kept(content)| - 1]] else []
  {
    hide Kept, Lines, Strip, IsMarker, Filter, NoMarkers, TrimTail;
    LinesOfStrip(content);
    KeptFront(content);
    EmptyUnmarked();
    var ks := Kept(content);
    if ks == [] {
      FilterOne(IsMarker, "");
    } else {
      var front, last := ks[..|ks| - 1], ks[|ks| - 1];
      FrontAndLast(ks);
      FilterAppend(IsMarker, front, [last]);
      FilterOne(IsMarker, last);
      NoMarkersFilter(front);
    }
  }

  lemma EmptyUnmarked()
    ensures !IsMarker("")
  {
  }

  lemma NoMarkersFilter(ls: seq<string>)
    requires NoMarkers(ls)
    ensures Filter(IsMarker, ls) == []
  {
    hide IsMarker, Filter;
    FilterNone(IsMarker, ls);
  }

  // ----- the condition on the lines of the file -----

  /** The line at i is no marker and stands outside the blocks. */
  predicate OutsideAt(ls: seq<string>, i: nat)
    requires i < |ls|
  {
    !IsMarker(ls[i]) && !SkipAfter(ls[..i], false)
  }

  /** The last line outside the blocks that is not blank. */
  predicate LastOutside(ls: seq<string>, i: nat)
    requires i < |ls|
  {
    OutsideAt(ls, i) && TrimEnd(ls[i]) != "" &&
    forall j :: i < j < |ls| && OutsideAt(ls, j) ==> TrimEnd(ls[j]) == ""
  }

  /** That line is a marker with blank space behind it. */
  predicate PaddedMarkerLast(ls: seq<string>) {
    exists i :: 0 <= i < |ls| && LastOutside(ls, i) && IsMarker(TrimEnd(ls[i]))
  }

  lemma OutsideFront(ls: seq<string>, l: string, i: nat)
    requires i < |ls|
    ensures OutsideAt(ls + [l], i) <==> OutsideAt(ls, i)
  {
    hide IsMarker, SkipAfter;
    assert (ls + [l])[..i] == ls[..i];
  }

  lemma OutsideLast(ls: seq<string>, l: string)
    ensures OutsideAt(ls + [l], |ls|) <==> (!IsMarker(l) && !SkipAfter(ls, false))
    ensures StripLines(ls + [l], false) ==
      StripLines(ls, false) + if OutsideAt(ls + [l], |ls|) then [l] else []
  {
    hide IsBegin, IsEnd, SkipAfter, StripLines;
    assert (ls + [l])[..|ls|] == ls;
    StripLinesAppend(ls, [l], false);
    StripOne(l, SkipAfter(ls, false));
  }

  lemma BlankBehind(ls: seq<string>, l: string)
    requires OutsideAt(ls + [l], |ls|) ==> TrimEnd(l) == ""
    ensures PaddedMarkerLast(ls + [l]) <==> PaddedMarkerLast(ls)
  {
    hide OutsideAt, TrimEnd, IsMarker;
    var out := ls + [l];
    forall i | 0 <= i < |ls| ensures LastOutside(out, i) <==> LastOutside(ls, i) {
      forall j | 0 <= j < |ls| ensures OutsideAt(out, j) <==> OutsideAt(ls, j) { OutsideFront(ls, l, j); }
      if LastOutside(out, i) {
        forall j | i < j < |ls| && OutsideAt(ls, j) ensures TrimEnd(ls[j]) == "" { assert OutsideAt(out, j); }
      }
    }
    if i :| 0 <= i < |ls| && LastOutside(ls, i) && IsMarker(TrimEnd(ls[i])) {
      assert LastOutside(out, i) && IsMarker(TrimEnd(out[i]));
    }
    if i :| 0 <= i < |out| && LastOutside(out, i) && IsMarker(TrimEnd(out[i])) {
      assert i < |ls|;
    }
  }

  lemma HoldsBehind(ls: seq<string>, l: string)
    requires OutsideAt(ls + [l], |ls|) && TrimEnd(l) != ""
    ensures PaddedMarkerLast(ls + [l]) <==> IsMarker(TrimEnd(l))
  {
    hide OutsideAt, TrimEnd, IsMarker;
    var out := ls + [l];
    assert LastOutside(out, |ls|);
    if i :| 0 <= i < |out| && LastOutside(out, i) && IsMarker(TrimEnd(out[i])) {
      assert !(i < |ls|);
    }
  }

  lemma TrimTailSnoc(ls: seq<string>, l: string)
    ensures TrimTail(ls + [l]) == if TrimEnd(l) == "" then TrimTail(ls) else ls + [TrimEnd(l)]
  {
    hide TrimEnd;
    assert (ls + [l])[..|ls|] == ls;
  }

  lemma {:induction false} EndsInMarkerOf(ls: seq<string>)
    ensures EndsInMarker(TrimTail(StripLines(ls, false))) <==> PaddedMarkerLast(ls)
  {
    hide TrimTail, StripLines, PaddedMarkerLast, TrimEnd, IsMarker, OutsideAt;
    if ls == [] {
      StripNone();
      TrimNothing();
      NothingPadded();
    } else {
      var front, l := ls[..|ls| - 1], ls[|ls| - 1];
      FrontAndLast(ls);
      OutsideLast(front, l);
      TrimTailSnoc(StripLines(front, false), l);
      if OutsideAt(ls, |front|) && TrimEnd(l) != "" {
        HoldsBehind(front, l);
      } else {
        BlankBehind(front, l);
        EndsInMarkerOf(front);
        assert StripLines(front, false) + [] == StripLines(front, false);
      }
    }
  }

  lemma NothingPadded()
    ensures !PaddedMarkerLast([])
  {
  }

  /** Whether the last kept line is a marker, read from the lines of the file: the last line
      outside the blocks that is not blank becomes a marker when it is trimmed at its end. */
  lemma EndsInMarkerWhen(content: string)
    ensures EndsInMarker(Kept(content)) <==> PaddedMarkerLast(Lines(content))
  {
    hide *;
    KeptIs(content);
    EndsInMarkerOf(Lines(content));
  }

  // ----- texts without markers -----

  lemma LineContained(l: string, t: string)
    requires TrimStart(l) == t
    ensures ContainsText(l, t)
  {
    hide TrimStart;
    var k := TrimStartParts(l);
  }

  lemma EolContained(l: string, t: string)
    requires ContainsText(StripEol(l), t)
    ensures ContainsText(l, t)
  {
    hide ContainsText, StripEol;
    StripEolIsPrefix(l);
    ContainsBefore(StripEol(l), l[|StripEol(l)|..], t);
  }

  lemma {:induction false} LinesContained(content: string, i: nat, t: string)
    requires i < |Lines(content)| && ContainsText(Lines(content)[i], t)
    ensures ContainsText(content, t)
    decreases |content|
  {
    hide SplitInclusive, Lines, StripEol, FirstLineLength, ContainsText;
    if content == "" {
      LinesOfNothing();
    } else {
      var n := FirstLineLength(content);
      var l, rest := content[..n], content[n..];
      assert content == l + rest;
      FirstLineOfLines(content);
      if i == 0 {
        EolContained(l, t);
        ContainsBefore(l, rest, t);
      } else {
        LinesContained(rest, i - 1, t);
        ContainsBehind(l, rest, t);
      }
    }
  }

  lemma {:induction false} TrimTailFrom(ls: seq<string>)
    requires TrimTail(ls) != []
    ensures exists i :: 0 <= i < |ls| && TrimTail(ls)[|TrimTail(ls)| - 1] == TrimEnd(ls[i])
  {
    hide TrimEnd;
    var l, rest := ls[|ls| - 1], ls[..|ls| - 1];
    if TrimEnd(l) == "" {
      TrimTailFrom(rest);
      var i :| 0 <= i < |rest| && TrimTail(rest)[|TrimTail(rest)| - 1] == TrimEnd(rest[i]);
      assert rest[i] == ls[i];
    }
  }

  lemma TrimmedContained(l: string, t: string)
    requires ContainsText(TrimEnd(l), t)
    ensures ContainsText(l, t)
  {
    hide TrimEnd, ContainsText;
    TrimEndLength(l);
    ContainsBefore(TrimEnd(l), l[|TrimEnd(l)|..], t);
    assert l == l[..|TrimEnd(l)|] + l[|TrimEnd(l)|..];
  }

  predicate MarkerFree(content: string) {
    !ContainsText(content, BLOCK_BEGIN) && !ContainsText(content, BLOCK_END)
  }

  lemma NotTheText(content: string, i: nat, l: string, t: string)
    requires i < |Lines(content)| && (l == Lines(content)[i] || l == TrimEnd(Lines(content)[i]))
    requires !ContainsText(content, t)
    ensures TrimStart(l) != t
  {
    hide Lines, ContainsText, TrimStart, TrimEnd;
    if TrimStart(l) == t {
      LineContained(l, t);
      if l != Lines(content)[i] { TrimmedContained(Lines(content)[i], t); }
      LinesContained(content, i, t);
    }
  }

  lemma MarkerContained(content: string, i: nat, l: string)
    requires i < |Lines(content)| && (l == Lines(content)[i] || l == TrimEnd(Lines(content)[i]))
    requires MarkerFree(content)
    ensures !IsMarker(l)
  {
    hide Lines, ContainsText, TrimStart, TrimEnd;
    NotTheText(content, i, l, BLOCK_BEGIN);
    NotTheText(content, i, l, BLOCK_END);
  }

  lemma MarkerFreeLines(content: string)
    requires MarkerFree(content)
    ensures NoMarkers(Lines(content)) && !EndsInMarker(Kept(content))
  {
    hide Lines, IsMarker, MarkerFree, TrimTail, TrimEnd;
    var ls := Lines(content);
    forall i | 0 <= i < |ls| ensures !IsMarker(ls[i]) && !IsMarker(TrimEnd(ls[i])) {
      MarkerContained(content, i, ls[i]);
      MarkerContained(content, i, TrimEnd(ls[i]));
    }
    NothingToStrip(ls);
    if TrimTail(ls) != [] { TrimTailFrom(ls); }
  }

  /** Installing into a text without markers and stripping gives its lines back, the blank space at
      the end replaced by one line break. */
  lemma InstallThenStrip(windows: bool, content: string, agents: seq<string>)
    requires PlainEnds(content) && MarkerFree(content) && AreNames(agents)
    ensures Strip(Install(windows, content, agents)) == TrimEnd(JoinLines(Lines(content))) + "\n"
    ensures '\r' !in content ==> Strip(Install(windows, content, agents)) == TrimEnd(content) + "\n"
  {
    hide Lines, Kept, PlainEnds, MarkerFree, Strip, Install, TrimEnd, JoinLines, StripLines;
    MarkerFreeLines(content);
    StripOfInstall(windows, content, agents);
    NothingToStrip(Lines(content));
    StripDefinition(content);
    if '\r' !in content {
      TextOfLines(content);
      TrimEndBreak(JoinLines(Lines(content)));
      assert JoinLines(Lines(content)) + "" == JoinLines(Lines(content));
    }
  }

  lemma StripDefinition(content: string)
    ensures Strip(content) == TrimEnd(JoinLines(StripLines(Lines(content), false))) + "\n"
  {
  }

  // ----- `remove_agents_from_block` -----

  /** The line defines the shell function of one of the agents. */
  predicate Targets(l: string, agents: seq<string>) {
    exists i :: 0 <= i < |agents| && Defines(l, agents[i])
  }

  predicate Defines(l: string, agent: string) {
    agent + "() {" <= l || "function " + agent + " {" <= l
  }

  function InsideAfter(l: string, inside: bool): bool {
    if IsBegin(l) then true else if IsEnd(l) then false else inside
  }

  predicate Removes(l: string, agents: seq<string>, inside: bool) {
    !IsMarker(l) && inside && Targets(l, agents)
  }

  function RemoveLines(ls: seq<string>, agents: seq<string>, inside: bool): seq<string> {
    if ls == [] then []
    else (if Removes(ls[0], agents, inside) then [] else [ls[0]]) + RemoveLines(ls[1..], agents, InsideAfter(ls[0], inside))
  }

  function RemoveAgents(content: string, agents: seq<string>): string {
    JoinLines(RemoveLines(Lines(content), agents, false)) + "\n"
  }

  /** `remove` with a list of agents: a text without the begin marker is left alone. */
  function Remove(content: string, agents: seq<string>): string {
    if ContainsText(content, BLOCK_BEGIN) then RemoveAgents(content, agents) else content
  }

  lemma {:induction false} RemoveLinesAppend(a: seq<string>, b: seq<string>, agents: seq<string>, inside: bool)
    ensures RemoveLines(a + b, agents, inside) ==
      RemoveLines(a, agents, inside) + RemoveLines(b, agents, SkipAfter(a, inside))
  {
    hide IsBegin, IsEnd, Targets;
    if a == [] {
      assert a + b == b;
    } else {
      assert (a + b)[1..] == a[1..] + b;
      RemoveLinesAppend(a[1..], b, agents, InsideAfter(a[0], inside));
    }
  }

  lemma RemoveOne(l: string, agents: seq<string>, inside: bool)
    ensures RemoveLines([l], agents, inside) == if Removes(l, agents, inside) then [] else [l]
  {
    assert [l][1..] == [];
  }

  method IsTarget(line: string, agents: seq<string>) returns (r: bool)
    ensures r == Targets(line, agents)
  {
    r := false;
    for i := 0 to |agents|
      invariant r == exists j :: 0 <= j < i && Defines(line, agents[j])
    {
      if Defines(line, agents[i]) { r := true; }
    }
  }

  /** The loop of `remove_agents_from_block`. */
  method RemoveLoop(content: string, agents: seq<string>) returns (r: string)
    ensures r == RemoveAgents(content, agents)
  {
    hide Lines, RemoveLines, SkipAfter, IsBegin, IsEnd, JoinLines, Targets;
    var lines := Lines(content);
    var out, inside := [], false;
    RemoveNone(agents);
    StripNone();
    assert lines[..0] == [];
    for i := 0 to |lines|
      invariant out == RemoveLines(lines[..i], agents, false) && inside == SkipAfter(lines[..i], false)
    {
      assert lines[..i + 1] == lines[..i] + [lines[i]];
      RemoveLinesAppend(lines[..i], [lines[i]], agents, false);
      SkipAfterAppend(lines[..i], [lines[i]], false);
      StripOne(lines[i], inside);
      RemoveOne(lines[i], agents, inside);
      if IsBegin(lines[i]) {
        inside := true;
        out := out + [lines[i]];
      } else if IsEnd(lines[i]) {
        inside := false;
        out := out + [lines[i]];
      } else if inside {
        var target := IsTarget(lines[i], agents);
        if !target { out := out + [lines[i]]; }
      } else {
        out := out + [lines[i]];
      }
    }
    assert lines[..|lines|] == lines;
    r := JoinLines(out) + "\n";
  }

  lemma RemoveNone(agents: seq<string>)
    ensures RemoveLines([], agents, false) == []
  {
  }

  lemma TargetsUnion(l: string, a: seq<string>, b: seq<string>)
    ensures Targets(l, a + b) <==> Targets(l, a) || Targets(l, b)
  {
    hide Defines;
    if Targets(l, a) {
      var i :| 0 <= i < |a| && Defines(l, a[i]);
      assert (a + b)[i] == a[i];
    }
    if Targets(l, b) {
      var i :| 0 <= i < |b| && Defines(l, b[i]);
      assert (a + b)[|a| + i] == b[i];
    }
  }

  lemma {:induction false} RemoveLinesTwice(ls: seq<string>, a: seq<string>, b: seq<string>, inside: bool)
    ensures RemoveLines(RemoveLines(ls, a, inside), b, inside) == RemoveLines(ls, a + b, inside)
  {
    hide IsBegin, IsEnd, Targets, RemoveLines;
    if ls == [] {
      RemoveNothing(a, inside);
      RemoveNothing(b, inside);
      RemoveNothing(a + b, inside);
    } else {
      var l, next := ls[0], InsideAfter(ls[0], inside);
      RemoveStep(ls, a, inside);
      RemoveStep(ls, a + b, inside);
      TargetsUnion(l, a, b);
      RemoveLinesTwice(ls[1..], a, b, next);
      if !Removes(l, a, inside) {
        RemoveStep([l] + RemoveLines(ls[1..], a, next), b, inside);
      } else {
        assert [] + RemoveLines(ls[1..], a, next) == RemoveLines(ls[1..], a, next);
        assert [] + RemoveLines(ls[1..], a + b, next) == RemoveLines(ls[1..], a + b, next);
      }
    }
  }

  lemma RemoveNothing(agents: seq<string>, inside: bool)
    ensures RemoveLines([], agents, inside) == []
  {
  }

  lemma RemoveStep(ls: seq<string>, agents: seq<string>, inside: bool)
    requires ls != []
    ensures RemoveLines(ls, agents, inside) ==
      (if Removes(ls[0], agents, inside) then [] else [ls[0]]) + RemoveLines(ls[1..], agents, InsideAfter(ls[0], inside))
  {
    hide Removes, InsideAfter;
  }

  lemma {:induction false} RemoveLinesBare(ls: seq<string>, agents: seq<string>, inside: bool)
    requires AllBare(ls)
    ensures AllBare(RemoveLines(ls, agents, inside))
  {
    hide Bare, Removes, InsideAfter;
    if ls != [] { RemoveLinesBare(ls[1..], agents, InsideAfter(ls[0], inside)); }
  }

  lemma {:induction false} RemovesNotAll(ls: seq<string>, agents: seq<string>)
    requires ls != []
    ensures RemoveLines(ls, agents, false) != []
  {
    RemoveStep(ls, agents, false);
  }

  lemma SomeLines(content: string)
    requires content != ""
    ensures Lines(content) != []
  {
    hide StripEol;
    FirstLineOfLines(content);
  }

  lemma LinesOfRemoved(content: string, agents: seq<string>)
    requires PlainEnds(content) && content != ""
    ensures Lines(RemoveAgents(content, agents)) == RemoveLines(Lines(content), agents, false)
  {
    hide Lines, RemoveLines, JoinLines, Flatten, Map, Bare;
    SomeLines(content);
    RemovesNotAll(Lines(content), agents);
    RemoveLinesBare(Lines(content), agents, false);
    JoinEnded(RemoveLines(Lines(content), agents, false));
    LinesOfEndedAll(RemoveLines(Lines(content), agents, false));
  }

  lemma LinesOfBreak()
    ensures Lines("\n") == [""]
  {
    EmptyIsBare();
    EndedOne("");
    LinesOfEndedAll([""]);
    assert "" + "\n" == "\n";
  }

  lemma RemoveEmpty(agents: seq<string>)
    ensures RemoveAgents("", agents) == "\n" && RemoveAgents("\n", agents) == "\n"
  {
    hide Lines, Removes;
    LinesOfNothing();
    LinesOfBreak();
    TrimNothing();
    RemoveOne("", agents, false);
    NotInside(agents);
    JoinOne("");
    assert "" + "\n" == "\n";
  }

  lemma NotInside(agents: seq<string>)
    ensures !Removes("", agents, false)
  {
  }

  lemma RemoveAgentsIs(content: string, agents: seq<string>)
    ensures RemoveAgents(content, agents) == JoinLines(RemoveLines(Lines(content), agents, false)) + "\n"
  {
  }

  /** Removing agents in two calls is removing them in one. */
  lemma RemoveAgentsTwice(content: string, a: seq<string>, b: seq<string>)
    requires PlainEnds(content)
    ensures RemoveAgents(RemoveAgents(content, a), b) == RemoveAgents(content, a + b)
  {
    hide *;
    if content == "" {
      RemoveEmpty(a);
      RemoveEmpty(b);
      RemoveEmpty(a + b);
    } else {
      LinesOfRemoved(content, a);
      RemoveLinesTwice(Lines(content), a, b, false);
      RemoveAgentsIs(RemoveAgents(content, a), b);
      RemoveAgentsIs(content, a + b);
    }
  }

  /** The lines outside every block, markers included. */
  function Outside(ls: seq<string>, inside: bool): seq<string> {
    if ls == [] then []
    else (if IsMarker(ls[0]) || !inside then [ls[0]] else []) + Outside(ls[1..], InsideAfter(ls[0], inside))
  }

  /** The lines inside the blocks, markers excluded. */
  function Inside(ls: seq<string>, inside: bool): seq<string> {
    if ls == [] then []
    else (if IsMarker(ls[0]) || !inside then [] else [ls[0]]) + Inside(ls[1..], InsideAfter(ls[0], inside))
  }

  function Untargeted(agents: seq<string>): string -> bool {
    l => !Targets(l, agents)
  }

  lemma OutsideStep(l: string, ls: seq<string>, inside: bool)
    ensures Outside([l] + ls, inside) ==
      (if IsMarker(l) || !inside then [l] else []) + Outside(ls, InsideAfter(l, inside))
  {
    hide IsMarker, InsideAfter;
    assert ([l] + ls)[1..] == ls;
  }

  lemma InsideStep(l: string, ls: seq<string>, inside: bool)
    ensures Inside([l] + ls, inside) ==
      (if IsMarker(l) || !inside then [] else [l]) + Inside(ls, InsideAfter(l, inside))
  {
    hide IsMarker, InsideAfter;
    assert ([l] + ls)[1..] == ls;
  }

  lemma InsideStays(l: string, inside: bool)
    requires !IsMarker(l)
    ensures InsideAfter(l, inside) == inside
  {
  }

  /** Removing keeps every line outside the block and every line of the block that defines none of
      the agents, in order, and drops every other. */
  lemma {:induction false} RemoveKeeps(ls: seq<string>, agents: seq<string>, inside: bool)
    ensures Outside(RemoveLines(ls, agents, inside), inside) == Outside(ls, inside)
    ensures Inside(RemoveLines(ls, agents, inside), inside) == Filter(Untargeted(agents), Inside(ls, inside))
  {
    hide IsMarker, InsideAfter, Targets, RemoveLines, Outside, Inside, Filter;
    if ls == [] {
      RemoveNothing(agents, inside);
      NothingInside(agents, inside);
    } else {
      var l, tail, next := ls[0], ls[1..], InsideAfter(ls[0], inside);
      var rest := RemoveLines(tail, agents, next);
      RemoveKeeps(tail, agents, next);
      RemoveStep(ls, agents, inside);
      assert ls == [l] + tail;
      OutsideStep(l, tail, inside);
      InsideStep(l, tail, inside);
      OutsideStep(l, rest, inside);
      InsideStep(l, rest, inside);
      FilterCons(Untargeted(agents), l, Inside(tail, next));
      assert [] + Inside(tail, next) == Inside(tail, next) && [] + rest == rest;
      if Removes(l, agents, inside) { InsideStays(l, inside); }
    }
  }

  lemma NothingInside(agents: seq<string>, inside: bool)
    ensures Outside([], inside) == [] && Inside([], inside) == [] && Filter(Untargeted(agents), []) == []
  {
  }

  // ----- `remove` -----

  lemma {:induction false} JoinContains(ls: seq<string>, i: nat, t: string)
    requires i < |ls| && ContainsText(ls[i], t)
    ensures ContainsText(JoinLines(ls), t)
  {
    hide ContainsText;
    if |ls| > 1 {
      if i == 0 {
        ContainsBefore(ls[0], "\n" + JoinLines(ls[1..]), t);
        assert ls[0] + ("\n" + JoinLines(ls[1..])) == JoinLines(ls);
      } else {
        JoinContains(ls[1..], i - 1, t);
        ContainsBehind(ls[0] + "\n", JoinLines(ls[1..]), t);
      }
    }
  }

  /** An occurrence of a text without line breaks lies within one line. */
  lemma {:induction false} OccursInLine(content: string, t: string) returns (i: nat)
    requires ContainsText(content, t) && t != "" && '\n' !in t && '\r' !in t
    ensures i < |Lines(content)| && ContainsText(Lines(content)[i], t)
    decreases |content|
  {
    hide SplitInclusive, Lines, FirstLineLength, StripEol;
    var at :| 0 <= at <= |content| && t <= content[at..];
    assert content != "";
    var n := FirstLineLength(content);
    var l, rest := content[..n], content[n..];
    FirstLineOfLines(content);
    if at >= n {
      assert content[at..] == rest[at - n..];
      i := OccursInLine(rest, t);
      i := i + 1;
    } else {
      WithinFirstLine(content, n, at, t);
      i := 0;
    }
  }

  lemma WithinFirstLine(content: string, n: nat, at: nat, t: string)
    requires at < n <= |content| && t <= content[at..] && t != "" && '\n' !in t && '\r' !in t
    requires IsLine(content[..n]) && (n < |content| ==> Terminated(content[..n]))
    ensures ContainsText(StripEol(content[..n]), t)
  {
    hide StripEol, ContainsText;
    var l := content[..n];
    assert forall k :: 0 <= k < |t| ==> t[k] == content[at + k];
    if Terminated(l) { EndsBeforeBreak(t, n - 1 - at); }
    assert t == l[at..at + |t|];
    WithinStripped(l, at, t);
  }

  lemma WithinStripped(l: string, at: nat, t: string)
    requires at + |t| <= |l| && t == l[at..at + |t|] && '\n' !in t && '\r' !in t && t != ""
    ensures ContainsText(StripEol(l), t)
  {
    hide StripEol;
    StripEolIsPrefix(l);
    EolIsBreak(l, at + |t| - 1);
    var e := StripEol(l);
    assert t[|t| - 1] == l[at + |t| - 1];
    assert t <= e[at..];
  }

  lemma EolIsBreak(l: string, i: nat)
    requires i < |l|
    ensures |StripEol(l)| <= i ==> l[i] == '\n' || l[i] == '\r'
  {
  }

  lemma EndsBeforeBreak(t: string, k: nat)
    requires '\n' !in t && (k < |t| ==> t[k] == '\n')
    ensures |t| <= k
  {
  }

  /** A removed line is inside a block, so the marker of that block is there, and stays. */
  lemma {:induction false} SomeBeginStays(ls: seq<string>, agents: seq<string>, i: nat, inside: bool) returns (j: nat)
    requires i < |ls| && ContainsText(ls[i], BLOCK_BEGIN) && !inside
    ensures j < |RemoveLines(ls, agents, inside)| && ContainsText(RemoveLines(ls, agents, inside)[j], BLOCK_BEGIN)
  {
    hide ContainsText, Targets, RemoveLines, IsBegin, IsEnd;
    RemoveStep(ls, agents, inside);
    if i == 0 {
      j := 0;
    } else if IsBegin(ls[0]) {
      BeginContains(ls[0]);
      j := 0;
    } else {
      j := SomeBeginStays(ls[1..], agents, i - 1, false);
      j := j + 1;
    }
  }

  lemma BeginContains(l: string)
    requires IsBegin(l)
    ensures ContainsText(l, BLOCK_BEGIN)
  {
    hide ContainsText;
    LineContained(l, BLOCK_BEGIN);
  }

  lemma RemovedContains(content: string, agents: seq<string>)
    requires ContainsText(content, BLOCK_BEGIN)
    ensures ContainsText(RemoveAgents(content, agents), BLOCK_BEGIN)
  {
    hide *;
    MarkerTexts();
    var i := OccursInLine(content, BLOCK_BEGIN);
    var j := SomeBeginStays(Lines(content), agents, i, false);
    var out := RemoveLines(Lines(content), agents, false);
    JoinContains(out, j, BLOCK_BEGIN);
    ContainsBefore(JoinLines(out), "\n", BLOCK_BEGIN);
    RemoveAgentsIs(content, agents);
  }

  lemma MarkerTexts()
    ensures BLOCK_BEGIN != "" && '\n' !in BLOCK_BEGIN && '\r' !in BLOCK_BEGIN
  {
  }

  lemma RemoveIs(content: string, agents: seq<string>)
    ensures Remove(content, agents) == if ContainsText(content, BLOCK_BEGIN) then RemoveAgents(content, agents) else content
  {
  }

  /** The same of the command, which leaves texts without the begin marker alone. */
  lemma RemoveTwice(content: string, a: seq<string>, b: seq<string>)
    requires PlainEnds(content)
    ensures Remove(Remove(content, a), b) == Remove(content, a + b)
  {
    hide *;
    RemoveIs(content, a);
    RemoveIs(content, a + b);
    RemoveIs(Remove(content, a), b);
    if ContainsText(content, BLOCK_BEGIN) {
      RemovedContains(content, a);
      RemoveAgentsTwice(content, a, b);
    }
  }

  // ----- removing from an installed block -----

  predicate IsStop(c: char) {
    c == ' ' || c == '('
  }

  /** A command name: no blank, parenthesis, hash sign or line break. */
  predicate IsName(a: string) {
    NoNewline(a) && HasNone(IsStop, a) && '#' !in a
  }

  predicate AreShellNames(agents: seq<string>) {
    forall i :: 0 <= i < |agents| ==> IsName(agents[i])
  }

  /** A name is determined by a line that starts with it and goes on with a blank or a parenthesis. */
  lemma NameOfPrefix(a: string, stop: string, b: string, rest: string)
    requires HasNone(IsStop, a) && HasNone(IsStop, b) && stop != "" && IsStop(stop[0]) && rest != "" && IsStop(rest[0])
    requires a + stop <= b + rest
    ensures a == b && stop <= rest
  {
    hide FirstIndex;
    var more := (b + rest)[|a + stop|..];
    assert b + rest == a + (stop + more);
    SamePrefix(IsStop, a, stop + more, b, rest);
  }

  lemma FunctionIsName()
    ensures HasNone(IsStop, "function")
  {
  }

  lemma DefinesPosix(a: string, b: string)
    requires IsName(a) && IsName(b)
    ensures Defines(AgentLine(false)(b), a) <==> a == b
  {
    hide Bare;
    var rest := "() { raios run " + b + " \"$@\"; }";
    assert AgentLine(false)(b) == b + rest;
    if a + "() {" <= b + rest { NameOfPrefix(a, "() {", b, rest); }
    FunctionIsName();
    assert "function " + a + " {" == "function" + (" " + a + " {");
    if "function" + (" " + a + " {") <= b + rest {
      NameOfPrefix("function", " " + a + " {", b, rest);
    }
    assert rest[0] == '(' && (" " + a + " {")[0] == ' ';
    assert "() {" <= rest;
  }

  lemma DefinesWindows(a: string, b: string)
    requires IsName(a) && IsName(b)
    ensures Defines(AgentLine(true)(b), a) <==> a == b
  {
    hide IsName, AgentLine;
    var tail := " { raios run " + b + " @args }";
    WindowsLine(b, tail);
    NamesHaveNoStops(a);
    NamesHaveNoStops(b);
    FunctionIsName();
    NotPosixLine(a, " " + b + tail);
    WindowsHead(a, b, tail);
    if a + " {" <= b + tail { NameOfPrefix(a, " {", b, tail); }
    assert " {" <= tail;
  }

  lemma WindowsLine(b: string, tail: string)
    requires tail == " { raios run " + b + " @args }"
    ensures AgentLine(true)(b) == "function" + (" " + b + tail)
  {
  }

  lemma NamesHaveNoStops(a: string)
    requires IsName(a)
    ensures HasNone(IsStop, a)
  {
  }

  lemma NotPosixLine(a: string, rest: string)
    requires HasNone(IsStop, a) && HasNone(IsStop, "function") && rest != "" && rest[0] == ' '
    ensures !(a + "() {" <= "function" + rest)
  {
    if a + "() {" <= "function" + rest { NameOfPrefix(a, "() {", "function", rest); }
  }

  lemma WindowsHead(a: string, b: string, tail: string)
    ensures "function " + a + " {" <= "function" + (" " + b + tail) <==> a + " {" <= b + tail
  {
    assert "function " + a + " {" == "function " + (a + " {");
    assert "function" + (" " + b + tail) == "function " + (b + tail);
    SamePrefixCut("function ", a + " {", b + tail);
  }

  lemma SamePrefixCut(p: string, x: string, y: string)
    ensures p + x <= p + y <==> x <= y
  {
    assert (p + x)[|p|..] == x && (p + y)[|p|..] == y;
    if p + x <= p + y { assert x == (p + y)[..|p + x|][|p|..] == y[..|x|]; }
    if x <= y { assert p + y == p + x + y[|x|..]; }
  }

  function Remaining(agents: seq<string>, removed: seq<string>): seq<string> {
    Filter((a: string) => a !in removed, agents)
  }

  lemma TargetsExactly(windows: bool, a: string, removed: seq<string>)
    requires IsName(a) && AreShellNames(removed)
    ensures Targets(AgentLine(windows)(a), removed) <==> a in removed
  {
    hide IsName, Defines, AgentLine;
    forall i | 0 <= i < |removed| ensures Defines(AgentLine(windows)(a), removed[i]) <==> removed[i] == a {
      if windows { DefinesWindows(removed[i], a); } else { DefinesPosix(removed[i], a); }
    }
  }

  lemma CommentUntargeted(l: string, removed: seq<string>)
    requires l != "" && l[0] == '#' && AreShellNames(removed)
    ensures !Targets(l, removed)
  {
    forall i | 0 <= i < |removed| ensures !Defines(l, removed[i]) {
      CommentNotDefined(l, removed[i]);
    }
  }

  lemma CommentNotDefined(l: string, a: string)
    requires l != "" && l[0] == '#' && IsName(a)
    ensures !Defines(l, a)
  {
    hide Bare;
    assert (a + "() {")[0] != '#' by { if a != "" { assert a[0] in a; } }
    assert ("function " + a + " {")[0] == 'f';
  }

  lemma {:induction false} RemoveAgentLines(windows: bool, agents: seq<string>, removed: seq<string>)
    requires AreShellNames(agents) && AreShellNames(removed)
    ensures RemoveLines(Map(AgentLine(windows), agents), removed, true) ==
      Map(AgentLine(windows), Remaining(agents, removed))
    ensures SkipAfter(Map(AgentLine(windows), agents), true)
  {
    hide IsName, AgentLine, Targets, IsBegin, IsEnd, RemoveLines, SkipAfter;
    var f := AgentLine(windows);
    if agents == [] {
      RemoveNothing(removed, true);
      SkipAfterNothing();
    } else {
      var a, rest := agents[0], agents[1..];
      assert Map(f, agents) == [f(a)] + Map(f, rest);
      RemoveAgentLines(windows, rest, removed);
      NameIsOneLine(a);
      AgentLineFacts(windows, a);
      TargetsExactly(windows, a, removed);
      RemoveLinesAppend([f(a)], Map(f, rest), removed, true);
      SkipAfterAppend([f(a)], Map(f, rest), true);
      StripOne(f(a), true);
      RemoveOne(f(a), removed, true);
      RemainingStep(a, rest, removed);
      MapAppend(f, if a in removed then [] else [a], Remaining(rest, removed));
      assert Map(f, [a]) == [f(a)] && Map(f, []) == [];
      assert agents == [a] + rest;
    }
  }

  lemma SkipAfterNothing()
    ensures SkipAfter([], true)
  {
  }

  lemma NameIsOneLine(a: string)
    requires IsName(a)
    ensures NoNewline(a)
  {
  }

  lemma RemainingStep(a: string, rest: seq<string>, removed: seq<string>)
    ensures Remaining([a] + rest, removed) == (if a in removed then [] else [a]) + Remaining(rest, removed)
  {
    assert ([a] + rest)[1..] == rest;
  }

  lemma {:induction false} RemoveOutside(ls: seq<string>, removed: seq<string>)
    requires NoMarkers(ls)
    ensures RemoveLines(ls, removed, false) == ls && !SkipAfter(ls, false)
  {
    hide IsBegin, IsEnd, Targets;
    if ls != [] {
      assert !IsMarker(ls[0]);
      RemoveOutside(ls[1..], removed);
      assert ls == [ls[0]] + ls[1..];
    }
  }

  /** Before the block nothing is removed, even behind a marker that trimming has left. */
  lemma RemoveFromBase(content: string, removed: seq<string>)
    requires PlainEnds(content)
    ensures RemoveLines(Lines(Strip(content)) + [""], removed, false) == Lines(Strip(content)) + [""]
  {
    hide *;
    LinesOfStrip(content);
    KeptFront(content);
    var ls := Lines(Strip(content));
    var front, last := ls[..|ls| - 1], ls[|ls| - 1];
    FrontAndLast(ls);
    NoMarkersNone();
    RemoveOutside(front, removed);
    RemoveLinesAppend(front, [last], removed, false);
    RemoveOne(last, removed, false);
    OutsideStays(last, removed);
    RemoveLinesAppend(ls, [""], removed, false);
    RemoveOne("", removed, SkipAfter(ls, false));
    EmptyStays(removed, SkipAfter(ls, false));
  }

  lemma NoMarkersNone()
    ensures NoMarkers([]) && [""][..0] == []
  {
  }

  lemma OutsideStays(l: string, removed: seq<string>)
    ensures !Removes(l, removed, false)
  {
  }

  lemma EmptyStays(removed: seq<string>, inside: bool)
    ensures !Removes("", removed, inside)
  {
    hide IsMarker;
    forall i | 0 <= i < |removed| ensures !Defines("", removed[i]) {
    }
  }

  lemma RemoveFromBlock(windows: bool, agents: seq<string>, removed: seq<string>, inside: bool)
    requires AreShellNames(agents) && AreShellNames(removed)
    ensures RemoveLines(BlockLines(windows, agents), removed, inside) == BlockLines(windows, Remaining(agents, removed))
  {
    hide IsName, AgentLine, Targets, IsBegin, IsEnd, RemoveLines, SkipAfter, Remaining;
    FixedLines();
    var ls := Map(AgentLine(windows), agents);
    RemoveLinesAppend([BLOCK_BEGIN, ABOUT, HINT] + ls, [BLOCK_END], removed, inside);
    RemoveLinesAppend([BLOCK_BEGIN, ABOUT, HINT], ls, removed, inside);
    SkipAfterAppend([BLOCK_BEGIN, ABOUT, HINT], ls, inside);
    RemoveAgentLines(windows, agents, removed);
    RemoveOne(BLOCK_END, removed, true);
    RemoveFromHead(removed, inside);
  }

  lemma RemoveFromHead(removed: seq<string>, inside: bool)
    requires AreShellNames(removed)
    ensures RemoveLines([BLOCK_BEGIN, ABOUT, HINT], removed, inside) == [BLOCK_BEGIN, ABOUT, HINT]
    ensures SkipAfter([BLOCK_BEGIN, ABOUT, HINT], inside)
  {
    hide Targets, IsBegin, IsEnd, RemoveLines, SkipAfter, IsName;
    FixedLines();
    CommentUntargeted(ABOUT, removed);
    CommentUntargeted(HINT, removed);
    assert [BLOCK_BEGIN, ABOUT, HINT] == [BLOCK_BEGIN] + ([ABOUT] + [HINT]);
    RemoveLinesAppend([BLOCK_BEGIN], [ABOUT] + [HINT], removed, inside);
    RemoveLinesAppend([ABOUT], [HINT], removed, true);
    SkipAfterAppend([BLOCK_BEGIN], [ABOUT] + [HINT], inside);
    SkipAfterAppend([ABOUT], [HINT], true);
    StripOne(BLOCK_BEGIN, inside);
    StripOne(ABOUT, true);
    StripOne(HINT, true);
    RemoveOne(BLOCK_BEGIN, removed, inside);
    RemoveOne(ABOUT, removed, true);
    RemoveOne(HINT, removed, true);
  }

  lemma ShellNamesAreNames(agents: seq<string>)
    requires AreShellNames(agents)
    ensures AreNames(agents)
  {
  }

  lemma {:induction false} RemainingNames(agents: seq<string>, removed: seq<string>)
    requires AreShellNames(agents)
    ensures AreShellNames(Remaining(agents, removed))
  {
    hide IsName;
    if agents != [] {
      RemainingNames(agents[1..], removed);
      RemainingStep(agents[0], agents[1..], removed);
      assert agents == [agents[0]] + agents[1..];
    }
  }

  /** Removing agents from an installed block is installing the others. */
  lemma RemoveFromInstalled(windows: bool, content: string, agents: seq<string>, removed: seq<string>)
    requires PlainEnds(content) && AreShellNames(agents) && AreShellNames(removed)
    ensures Remove(Strip(content) + Block(windows, agents), removed) ==
      Strip(content) + Block(windows, Remaining(agents, removed))
  {
    hide *;
    var base, left := Strip(content), Remaining(agents, removed);
    ShellNamesAreNames(agents);
    RemainingNames(agents, removed);
    ShellNamesAreNames(left);
    LinesOfStrip(content);
    BlockContainsBegin(windows, base, agents);
    RemoveIs(base + Block(windows, agents), removed);
    LinesWithBlock(windows, base, agents);
    var ls := Lines(base) + [""];
    RemoveFromBase(content, removed);
    RemoveLinesAppend(ls, BlockLines(windows, agents), removed, false);
    RemoveFromBlock(windows, agents, removed, SkipAfter(ls, false));
    RemoveAgentsIs(base + Block(windows, agents), removed);
    GapNotEmpty(Lines(base), BlockLines(windows, left));
    JoinEnded(ls + BlockLines(windows, left));
    EndedAppend(ls, BlockLines(windows, left));
    EndedAppend(Lines(base), [""]);
    EndedOne("");
    StripTerminated(content);
    BlockIs(windows, left);
    assert "" + "\n" == "\n";
    assert base + "\n" + Flatten(Map(WithBreak, BlockLines(windows, left))) ==
      base + ("\n" + Flatten(Map(WithBreak, BlockLines(windows, left))));
  }

  lemma GapNotEmpty(a: seq<string>, b: seq<string>)
    ensures a + [""] + b != []
  {
  }

  lemma StripTerminated(content: string)
    ensures Terminated(Strip(content))
  {
  }

  lemma BlockIs(windows: bool, agents: seq<string>)
    ensures Block(windows, agents) == "\n" + Flatten(Map(WithBreak, BlockLines(windows, agents)))
  {
  }
}
