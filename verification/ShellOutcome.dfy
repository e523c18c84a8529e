/** The shell block and what is stripped and removed, in the lines of the rc file. */
module ShellOutcome {
  import opened Seqs
  import opened Text
  import opened AgentWrapper

  // ----- lines in and outside blocks -----

  /** The line is the marker behind blank space. */
  predicate Marks(l: string, marker: string) {
    exists n :: 0 <= n <= |l| && MarksBehind(l, marker, n)
  }

  predicate MarksBehind(l: string, marker: string, n: nat)
    requires n <= |l|
  {
    AllSpace(l[..n]) && l[n..] == marker
  }

  predicate Begins(l: string) {
    Marks(l, "# raios-agent-wrapper-begin")
  }

  predicate Ends(l: string) {
    Marks(l, "# raios-agent-wrapper-end")
  }

  /** The last marker before the line begins a block. */
  predicate InBlock(ls: seq<string>, i: nat) {
    exists b :: 0 <= b < i && b < |ls| && BeganAt(ls, b, i)
  }

  predicate BeganAt(ls: seq<string>, b: nat, i: nat)
    requires b < |ls|
  {
    Begins(ls[b]) && forall j :: b < j < i && j < |ls| ==> !Begins(ls[j]) && !Ends(ls[j])
  }

  /** The lines among the first n that are no markers and stand in no block. */
  function LinesOutside(ls: seq<string>, n: nat): seq<string>
    requires n <= |ls|
  {
    if n == 0 then []
    else
      var l := ls[n - 1];
      LinesOutside(ls, n - 1) + if Begins(l) || Ends(l) || InBlock(ls, n - 1) then [] else [l]
  }

  /** The line defines the function of one of the agents, in either shell. */
  predicate DefinesOne(l: string, agents: seq<string>) {
    exists i :: 0 <= i < |agents| && DefinesThe(l, agents[i])
  }

  predicate DefinesThe(l: string, agent: string) {
    agent + "() {" <= l || "function " + agent + " {" <= l
  }

  /** The first n lines without those that stand in a block and define one of the functions. */
  function LinesLeft(ls: seq<string>, agents: seq<string>, n: nat): seq<string>
    requires n <= |ls|
  {
    if n == 0 then []
    else
      var l := ls[n - 1];
      LinesLeft(ls, agents, n - 1)
      + if !Begins(l) && !Ends(l) && InBlock(ls, n - 1) && DefinesOne(l, agents) then [] else [l]
  }

  lemma MarksIs(l: string, marker: string)
    requires marker != "" && !IsSpace(marker[0])
    ensures Marks(l, marker) <==> TrimStart(l) == marker
  {
    hide TrimStart;
    var k := TrimStartParts(l);
    if n :| 0 <= n <= |l| && MarksBehind(l, marker, n) {
      assert l == l[..n] + l[n..];
      TrimStartUnique(l[..n], marker);
    }
    if TrimStart(l) == marker { assert MarksBehind(l, marker, k); }
  }

  lemma MarkersAre(l: string)
    ensures Begins(l) <==> IsBegin(l)
    ensures Ends(l) <==> IsEnd(l)
  {
    hide TrimStart, Marks;
    MarksIs(l, "# raios-agent-wrapper-begin");
    MarksIs(l, "# raios-agent-wrapper-end");
  }

  lemma {:induction false} InBlockIs(ls: seq<string>, n: nat)
    requires n <= |ls|
    ensures InBlock(ls, n) <==> SkipAfter(ls[..n], false)
    decreases n
  {
    hide Begins, Ends, IsBegin, IsEnd;
    if n > 0 {
      var l := ls[n - 1];
      InBlockIs(ls, n - 1);
      MarkersAre(l);
      assert ls[..n] == ls[..n - 1] + [l];
      SkipAfterAppend(ls[..n - 1], [l], false);
      StripOne(l, SkipAfter(ls[..n - 1], false));
      if Begins(l) { assert BeganAt(ls, n - 1, n); }
      if InBlock(ls, n - 1) {
        var b :| 0 <= b < n - 1 && b < |ls| && BeganAt(ls, b, n - 1);
        assert !Begins(l) && !Ends(l) ==> BeganAt(ls, b, n);
      }
      if InBlock(ls, n) {
        var b :| 0 <= b < n && b < |ls| && BeganAt(ls, b, n);
        assert b < n - 1 ==> BeganAt(ls, b, n - 1);
      }
    }
  }

  lemma {:induction false} StrippedAre(ls: seq<string>, n: nat)
    requires n <= |ls|
    ensures StripLines(ls[..n], false) == LinesOutside(ls, n)
    decreases n
  {
    hide Begins, Ends, InBlock, IsBegin, IsEnd, StripLines, SkipAfter;
    if n == 0 {
      StripNone();
    } else {
      var l := ls[n - 1];
      StrippedAre(ls, n - 1);
      InBlockIs(ls, n - 1);
      MarkersAre(l);
      OutsideLast(ls[..n - 1], l);
      assert ls[..n] == ls[..n - 1] + [l];
      assert (ls[..n - 1] + [l])[..n - 1] == ls[..n - 1];
    }
  }

  lemma {:induction false} LeftAre(ls: seq<string>, agents: seq<string>, n: nat)
    requires n <= |ls|
    ensures RemoveLines(ls[..n], agents, false) == LinesLeft(ls, agents, n)
    decreases n
  {
    hide Begins, Ends, InBlock, IsBegin, IsEnd, RemoveLines, SkipAfter, DefinesOne, Targets;
    if n == 0 {
      RemoveNone(agents);
    } else {
      var l := ls[n - 1];
      LeftAre(ls, agents, n - 1);
      InBlockIs(ls, n - 1);
      MarkersAre(l);
      TargetsAre(l, agents);
      assert ls[..n] == ls[..n - 1] + [l];
      RemoveLinesAppend(ls[..n - 1], [l], agents, false);
      RemoveOne(l, agents, SkipAfter(ls[..n - 1], false));
    }
  }

  lemma TargetsAre(l: string, agents: seq<string>)
    ensures Targets(l, agents) <==> DefinesOne(l, agents)
  {
    forall i | 0 <= i < |agents| ensures Defines(l, agents[i]) <==> DefinesThe(l, agents[i]) {
    }
  }

  // ----- whole texts -----

  /** Lines with a break between two. */
  function Lined(ls: seq<string>): string {
    if ls == [] then "" else ls[0] + Flatten(Map(Behind, ls[1..]))
  }

  function Behind(l: string): string {
    "\n" + l
  }

  lemma {:induction false} JoinIsLined(ls: seq<string>)
    ensures JoinLines(ls) == Lined(ls)
  {
    if |ls| > 1 {
      JoinIsLined(ls[1..]);
      assert Map(Behind, ls[1..])[1..] == Map(Behind, ls[1..][1..]);
      assert ls[0] + "\n" + (ls[1] + Flatten(Map(Behind, ls[1..][1..]))) ==
        ls[0] + (("\n" + ls[1]) + Flatten(Map(Behind, ls[1..][1..])));
    } else if ls != [] {
      assert ls[1..] == [] && Map(Behind, []) == [];
      assert ls[0] + "" == ls[0];
    }
  }

  /** The text without the blank space at its end. */
  predicate IsTrimmed(text: string, core: string) {
    core <= text && AllSpace(text[|core|..]) && (core != "" ==> !IsSpace(core[|core| - 1]))
  }

  /** Stripping leaves the lines outside the blocks, without blank space at the end, and a line break. */
  lemma StripWrittenOut(content: string)
    ensures var left := Lined(LinesOutside(Lines(content), |Lines(content)|));
            exists core :: IsTrimmed(left, core) && Strip(content) == core + "\n"
  {
    hide Lines, LinesOutside, StripLines, JoinLines, TrimEnd, Lined;
    var ls := Lines(content);
    StrippedAre(ls, |ls|);
    assert ls[..|ls|] == ls;
    JoinIsLined(LinesOutside(ls, |ls|));
    var text := Lined(LinesOutside(ls, |ls|));
    TrimEndParts(text);
    assert IsTrimmed(text, TrimEnd(text));
  }

  predicate Has(content: string, t: string) {
    exists i :: 0 <= i <= |content| && t <= content[i..]
  }

  /** Removing agents changes only a text with a begin marker somewhere, and leaves all lines but the
      agents' functions in the blocks. */
  lemma RemoveWrittenOut(content: string, agents: seq<string>)
    ensures Remove(content, agents) ==
      if Has(content, "# raios-agent-wrapper-begin")
      then Lined(LinesLeft(Lines(content), agents, |Lines(content)|)) + "\n" else content
  {
    hide Lines, LinesLeft, RemoveLines, JoinLines, Lined;
    var ls := Lines(content);
    LeftAre(ls, agents, |ls|);
    assert ls[..|ls|] == ls;
    JoinIsLined(LinesLeft(ls, agents, |ls|));
    HasIs(content);
  }

  lemma HasIs(content: string)
    ensures Has(content, "# raios-agent-wrapper-begin") <==> ContainsText(content, BLOCK_BEGIN)
  {
  }

  // ----- the block -----

  /** The function of an agent, as a line of the shell. */
  function FunctionLine(windows: bool): string -> string {
    a => if windows then "function " + a + " { raios run " + a + " @args }\n"
         else a + "() { raios run " + a + " \"$@\"; }\n"
  }

  lemma {:induction false} FunctionsAre(windows: bool, agents: seq<string>)
    ensures Flatten(Map(WithBreak, Map(AgentLine(windows), agents))) == Flatten(Map(FunctionLine(windows), agents))
  {
    hide AgentLine, FunctionLine, WithBreak;
    if agents != [] {
      FunctionsAre(windows, agents[1..]);
      FunctionIs(windows, agents[0]);
      assert Map(AgentLine(windows), agents)[1..] == Map(AgentLine(windows), agents[1..]);
      assert Map(WithBreak, Map(AgentLine(windows), agents))[1..] == Map(WithBreak, Map(AgentLine(windows), agents[1..]));
      assert Map(FunctionLine(windows), agents)[1..] == Map(FunctionLine(windows), agents[1..]);
    }
  }

  lemma FunctionIs(windows: bool, a: string)
    ensures WithBreak(AgentLine(windows)(a)) == FunctionLine(windows)(a)
  {
    if windows {
      var front := "function " + a + " { raios run " + a;
      assert front + " @args }" + "\n" == front + " @args }\n";
    } else {
      var front := a + "() { raios run " + a;
      assert front + " \"$@\"; }" + "\n" == front + " \"$@\"; }\n";
    }
  }

  const ROUTED := "# R-AI-OS: route agent calls" + (" through raios" + (" (UMAI shield" + " + session capture)"))

  /** The block: a blank line, the begin marker, two comments, the functions, the end marker. */
  lemma BlockWrittenOut(windows: bool, agents: seq<string>)
    ensures Block(windows, agents) ==
      "\n" + "# raios-agent-wrapper-begin\n"
      + (ROUTED + "\n")
      + ("# Remove with: raios agent-wrapper remove" + "\n")
      + Flatten(Map(FunctionLine(windows), agents)) + "# raios-agent-wrapper-end\n"
  {
    CommentsAre();
    MarkerLines();
    hide ABOUT, HINT, BLOCK_BEGIN, BLOCK_END, Flatten, Map, Block, FunctionLine, AgentLine;
    BlockParts(windows, agents, "\n" + BLOCK_BEGIN + "\n" + (ABOUT + "\n") + (HINT + "\n"));
    FunctionsAre(windows, agents);
    assert "\n" + BLOCK_BEGIN + "\n" == "\n" + (BLOCK_BEGIN + "\n");
  }

  lemma CommentsAre()
    ensures ABOUT == ROUTED && HINT == "# Remove with: raios agent-wrapper remove"
  {
  }

  lemma MarkerLines()
    ensures BLOCK_BEGIN + "\n" == "# raios-agent-wrapper-begin\n" && BLOCK_END + "\n" == "# raios-agent-wrapper-end\n"
  {
  }
}
