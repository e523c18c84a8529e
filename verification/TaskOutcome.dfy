/** Task lines and the task file in their own characters: which lines are tasks, what they say, and
    how they are written. */
module TaskOutcome {
  import opened Seqs
  import opened Text
  import opened Words
  import opened Tasks

  // ----- words and the blanks before them -----

  /** The words, each behind its blanks. */
  function Spread(gaps: seq<string>, words: seq<string>): string
    requires |gaps| == |words|
  {
    if words == [] then "" else gaps[0] + words[0] + Spread(gaps[1..], words[1..])
  }

  predicate AreGaps(gaps: seq<string>) {
    forall i :: 0 <= i < |gaps| ==> AllSpace(gaps[i]) && (i > 0 ==> gaps[i] != "")
  }

  predicate SolidWord(w: string) {
    w != "" && forall i :: 0 <= i < |w| ==> !IsSpace(w[i])
  }

  predicate SolidWords(words: seq<string>) {
    forall i :: 0 <= i < |words| ==> SolidWord(words[i])
  }

  lemma {:induction false} BlanksFirst(gap: string, s: string)
    requires AllSpace(gap)
    ensures SplitWhitespace(gap + s) == SplitWhitespace(s)
  {
    hide SplitWhitespace;
    if gap == "" {
      assert gap + s == s;
    } else {
      BlanksFirst(gap[1..], s);
      SpaceFirst(gap[0], gap[1..] + s);
      assert gap + s == [gap[0]] + (gap[1..] + s);
    }
  }

  lemma SolidIsWord(w: string)
    ensures SolidWord(w) <==> IsWord(w)
  {
    if SolidWord(w) {
      forall i | 0 <= i < |w| ensures !IsSpace(w[i]) {
      }
    }
  }

  lemma {:induction false} SplitSpread(gaps: seq<string>, words: seq<string>, tail: string)
    requires |gaps| == |words| && AreGaps(gaps) && SolidWords(words) && AllSpace(tail)
    ensures SplitWhitespace(Spread(gaps, words) + tail) == words
    decreases |words|
  {
    hide SplitWhitespace, SolidWord, AllSpace, IsWord;
    if words == [] {
      OnlySpace(tail);
      assert Spread(gaps, words) + tail == tail;
    } else {
      var rest := Spread(gaps[1..], words[1..]) + tail;
      SolidIsWord(words[0]);
      SplitSpread(gaps[1..], words[1..], tail);
      RestIsApart(gaps, words, tail);
      WordFirst(words[0], rest);
      BlanksFirst(gaps[0], words[0] + rest);
      assert Spread(gaps, words) + tail == gaps[0] + (words[0] + rest);
      assert words == [words[0]] + words[1..];
    }
  }

  lemma RestIsApart(gaps: seq<string>, words: seq<string>, tail: string)
    requires |gaps| == |words| && words != [] && AreGaps(gaps) && AllSpace(tail)
    ensures var rest := Spread(gaps[1..], words[1..]) + tail; rest == "" || IsSpace(rest[0])
  {
    if |words| > 1 {
      assert gaps[1..][0] == gaps[1];
      assert (Spread(gaps[1..], words[1..]) + tail)[0] == gaps[1][0];
    } else {
      assert Spread(gaps[1..], words[1..]) + tail == tail;
    }
  }

  /** Every text is words behind blanks, and blanks. */
  lemma {:induction false} EveryTextIsSpread(s: string) returns (gaps: seq<string>, words: seq<string>, tail: string)
    ensures |gaps| == |words| && AreGaps(gaps) && SolidWords(words) && AllSpace(tail)
    ensures s == Spread(gaps, words) + tail
    ensures words != [] && s != "" && !IsSpace(s[0]) ==> gaps[0] == ""
    decreases |s|
  {
    hide FirstIndex, SplitWhitespace, Spread, AllSpace, SolidWord, NotBlankChar;
    var k := FirstIndex(NotBlankChar, s);
    NoneIsBlank(s[..k]);
    if k == |s| {
      gaps, words, tail := [], [], s;
      NothingSpread([]);
      assert s[..k] == s;
    } else {
      var n := FirstIndex(IsSpace, s[k..]);
      FoundWord(s, k, n);
      SolidIsWord(s[k..k + n]);
      var g, w, t := EveryTextIsSpread(s[k + n..]);
      NextGap(s, k, n);
      FirstGap(s, k, n);
      if w != [] { RestStarts(g, w, t); }
      gaps, words, tail := [s[..k]] + g, [s[k..k + n]] + w, t;
      SpreadNext(gaps, words);
      assert gaps[1..] == g && words[1..] == w;
      Regroup(s, k, n, Spread(g, w), t);
    }
  }

  lemma Regroup(s: string, k: nat, n: nat, rest: string, tail: string)
    requires k + n <= |s| && s[k + n..] == rest + tail
    ensures s == s[..k] + s[k..k + n] + rest + tail
  {
    assert s == s[..k] + s[k..k + n] + s[k + n..];
    assert s[..k] + s[k..k + n] + rest + tail == s[..k] + s[k..k + n] + (rest + tail);
  }

  lemma FirstGap(s: string, k: nat, n: nat)
    requires k <= |s| && AllSpace(s[..k])
    ensures s != "" && !IsSpace(s[0]) ==> s[..k] == ""
  {
    assert k > 0 ==> s[..k][0] == s[0];
  }

  lemma NoneIsBlank(s: string)
    requires HasNone(NotBlankChar, s)
    ensures AllSpace(s)
  {
    forall i | 0 <= i < |s| ensures IsSpace(s[i]) { assert !NotBlankChar(s[i]); }
  }

  lemma NextGap(s: string, k: nat, n: nat)
    requires k <= |s| && n == FirstIndex(IsSpace, s[k..])
    ensures k + n <= |s| && (k + n < |s| ==> IsSpace(s[k + n]))
  {
    hide FirstIndex;
    assert n < |s[k..]| ==> s[k..][n] == s[k + n];
  }

  lemma RestStarts(gaps: seq<string>, words: seq<string>, tail: string)
    requires |gaps| == |words| && words != [] && SolidWord(words[0])
    ensures var s := Spread(gaps, words) + tail; s != "" && (IsSpace(s[0]) ==> gaps[0] != "")
  {
    if gaps[0] == "" {
      assert (Spread(gaps, words) + tail)[0] == words[0][0];
    }
  }

  // ----- one line -----

  /** The words read as these, letter by letter, but for capitals of the first one. */
  predicate SameLetters(a: string, b: string) {
    |a| == |b| && forall i :: 0 <= i < |a| ==> a[i] == b[i] || ('A' <= a[i] <= 'Z' && a[i] as int + 32 == b[i] as int)
  }

  /** The word is an at sign and the agent's name, or Codex's short one, in any case. */
  predicate NamesAgent(word: string, agent: string) {
    word != "" && word[0] == '@' &&
    match agent
    case "claude" => SameLetters(word[1..], "claude")
    case "antigravity" => SameLetters(word[1..], "antigravity")
    case "codex" => SameLetters(word[1..], "codex") || SameLetters(word[1..], "cx")
    case "opencode" => SameLetters(word[1..], "opencode")
    case _ => false
  }

  predicate NamesProject(word: string, project: string) {
    project != "" && word == "#" + project
  }

  predicate SaysSomething(word: string) {
    !(word != "" && word[0] == '#') && !NamesAgent(word, "claude") && !NamesAgent(word, "antigravity")
    && !NamesAgent(word, "codex") && !NamesAgent(word, "opencode")
  }

  lemma {:induction false} LowerIs(a: string, b: string)
    requires forall i :: 0 <= i < |b| ==> 'a' <= b[i] <= 'z'
    ensures AsciiLower(a) == b <==> SameLetters(a, b)
  {
    if SameLetters(a, b) {
      forall i | 0 <= i < |a| ensures AsciiLower(a)[i] == b[i] { LowerOne(a[i], b[i]); }
    }
    if AsciiLower(a) == b {
      forall i | 0 <= i < |a|
        ensures a[i] == b[i] || ('A' <= a[i] <= 'Z' && a[i] as int + 32 == b[i] as int)
      {
        assert Lower(a[i]) == b[i];
        LowerOne(a[i], b[i]);
      }
    }
  }

  lemma LowerOne(c: char, d: char)
    requires 'a' <= d <= 'z'
    ensures Lower(c) == d <==> c == d || ('A' <= c <= 'Z' && c as int + 32 == d as int)
  {
  }

  lemma AgentIs(word: string, agent: string)
    ensures AgentTag(word) == Some(agent) <==> NamesAgent(word, agent)
  {
    hide AsciiLower, SameLetters;
    if word != "" {
      LowerIs(word[1..], "claude");
      LowerIs(word[1..], "antigravity");
      LowerIs(word[1..], "codex");
      LowerIs(word[1..], "cx");
      LowerIs(word[1..], "opencode");
    }
  }

  lemma ProjectIs(word: string, project: string)
    ensures ProjectTag(word) == Some(project) <==> NamesProject(word, project)
  {
    if word != "" { assert word == [word[0]] + word[1..]; }
  }

  lemma TextWordIs(word: string)
    ensures IsTextWord(word) <==> SaysSomething(word)
  {
    hide NamesAgent, AsciiLower;
    if AgentTag(word).Some? {
      AgentIs(word, AgentTag(word).value);
      AgentNames(word, AgentTag(word).value);
    }
    AgentIs(word, "claude");
    AgentIs(word, "antigravity");
    AgentIs(word, "codex");
    AgentIs(word, "opencode");
  }

  lemma AgentNames(word: string, agent: string)
    requires NamesAgent(word, agent)
    ensures agent in {"claude", "antigravity", "codex", "opencode"}
  {
  }

  /** Words with one space between two. */
  function OneSpaces(n: nat): (gaps: seq<string>)
    ensures |gaps| == n
  {
    seq(n, i requires 0 <= i => if i == 0 then "" else " ")
  }

  function Spaces(n: nat): (gaps: seq<string>)
    ensures |gaps| == n
  {
    seq(n, i requires 0 <= i => " ")
  }

  lemma SpacesNext(n: nat)
    requires n > 0
    ensures OneSpaces(n)[1..] == Spaces(n - 1) && Spaces(n)[1..] == Spaces(n - 1)
    ensures OneSpaces(n)[0] == "" && Spaces(n)[0] == " "
  {
  }

  lemma SpreadNext(gaps: seq<string>, words: seq<string>)
    requires |gaps| == |words| && words != []
    ensures Spread(gaps, words) == gaps[0] + words[0] + Spread(gaps[1..], words[1..])
  {
  }

  lemma JoinNext(ws: seq<string>)
    requires ws != []
    ensures Join(ws) == ws[0] + if ws[1..] == [] then "" else " " + Join(ws[1..])
  {
    hide Join;
    if |ws| == 1 { JoinOne(ws); } else { JoinMore(ws); }
  }

  lemma JoinOne(ws: seq<string>)
    requires |ws| == 1
    ensures Join(ws) == ws[0]
  {
  }

  lemma JoinMore(ws: seq<string>)
    requires |ws| > 1
    ensures Join(ws) == ws[0] + (" " + Join(ws[1..]))
  {
    assert ws[0] + " " + Join(ws[1..]) == ws[0] + (" " + Join(ws[1..]));
  }

  lemma {:induction false} SpacedIs(ws: seq<string>)
    ensures (if ws == [] then "" else " " + Join(ws)) == Spread(Spaces(|ws|), ws)
  {
    hide Join, Spread, Spaces;
    if ws == [] {
      NothingSpread(Spaces(0));
    } else {
      SpacedIs(ws[1..]);
      SpacesNext(|ws|);
      SpreadNext(Spaces(|ws|), ws);
      JoinNext(ws);
      assert " " + ws[0] + Spread(Spaces(|ws| - 1), ws[1..]) == " " + (ws[0] + Spread(Spaces(|ws| - 1), ws[1..]));
    }
  }

  lemma NothingSpread(gaps: seq<string>)
    requires |gaps| == 0
    ensures Spread(gaps, []) == "" && Join([]) == ""
  {
  }

  lemma JoinIsSpread(ws: seq<string>)
    ensures Join(ws) == Spread(OneSpaces(|ws|), ws)
  {
    hide Join, Spread, Spaces, OneSpaces;
    if ws == [] {
      NothingSpread(OneSpaces(0));
    } else {
      SpacedIs(ws[1..]);
      SpacesNext(|ws|);
      SpreadNext(OneSpaces(|ws|), ws);
      JoinNext(ws);
      assert "" + ws[0] == ws[0];
    }
  }

  /** The last word that is a tag gives its value; no such word gives none. */
  predicate LastSays(words: seq<string>, tag: (string, string) -> bool, value: string, k: nat) {
    k < |words| && tag(words[k], value)
  }

  ghost predicate NoTagFrom(words: seq<string>, tag: (string, string) -> bool, from: nat) {
    forall j: nat, v :: from <= j < |words| ==> !tag(words[j], v)
  }

  ghost predicate TagIs(words: seq<string>, tag: (string, string) -> bool, value: Option<string>) {
    match value
    case None => NoTagFrom(words, tag, 0)
    case Some(v) => exists k: nat :: LastSays(words, tag, v, k) && NoTagFrom(words, tag, k + 1)
  }

  lemma {:induction false} LastTagIs(words: seq<string>, find: string -> Option<string>, tag: (string, string) -> bool)
    requires forall w, v :: find(w) == Some(v) <==> tag(w, v)
    ensures TagIs(words, tag, LastTag(find, words))
    decreases |words|
  {
    if words != [] {
      var n := |words| - 1;
      var front := words[..n];
      if find(words[n]).Some? {
        assert LastSays(words, tag, find(words[n]).value, n);
      } else {
        LastTagIs(front, find, tag);
        forall v ensures !tag(words[n], v) {
        }
        match LastTag(find, front) {
          case None =>
          case Some(v) =>
            var k: nat :| LastSays(front, tag, v, k) && NoTagFrom(front, tag, k + 1);
            assert LastSays(words, tag, v, k);
            forall j: nat, x | k + 1 <= j < |words| ensures !tag(words[j], x) {
              assert j < n ==> front[j] == words[j];
            }
        }
      }
    }
  }

  /** The line is a box with the mark in it, the words behind it, and blanks around. */
  predicate IsBoxLine(line: string, before: string, mark: char, gaps: seq<string>, words: seq<string>, tail: string) {
    && |gaps| == |words| && AreGaps(gaps) && SolidWords(words) && AllSpace(before) && AllSpace(tail)
    && (mark == ' ' || mark == 'x' || mark == 'X')
    && line == before + "- [" + [mark] + "] " + Spread(gaps, words) + tail
  }

  lemma {:induction false} SpreadEndsSolid(gaps: seq<string>, words: seq<string>)
    requires |gaps| == |words| && SolidWords(words) && words != []
    ensures var s := Spread(gaps, words); s != "" && !IsSpace(s[|s| - 1])
  {
    if |words| > 1 {
      SpreadEndsSolid(gaps[1..], words[1..]);
    } else {
      assert Spread(gaps, words) == gaps[0] + words[0];
    }
  }

  lemma TrimmedLine(before: string, core: string, tail: string)
    requires AllSpace(before) && AllSpace(tail) && core != "" && !IsSpace(core[0]) && !IsSpace(core[|core| - 1])
    ensures Trim(before + core + tail) == core
  {
    hide TrimEnd, TrimStart;
    TrimEndUnique(before + core, tail);
    TrimStartUnique(before, core);
  }

  lemma MarkedBox(mark: char)
    ensures mark == ' ' ==> "- [" + [mark] + "] " == "- [ ] "
    ensures mark == 'x' ==> "- [" + [mark] + "] " == "- [x] "
    ensures mark == 'X' ==> "- [" + [mark] + "] " == "- [X] "
  {
  }

  lemma BoxOf(line: string, before: string, mark: char, gaps: seq<string>, words: seq<string>, tail: string)
    requires IsBoxLine(line, before, mark, gaps, words, tail) && words != []
    ensures Box(line) == Some((mark != ' ', Spread(gaps, words)))
  {
    hide Trim, AreGaps, SolidWords;
    SpreadEndsSolid(gaps, words);
    var box := "- [" + [mark] + "] ";
    var core := box + Spread(gaps, words);
    assert line == before + core + tail;
    TrimmedLine(before, core, tail);
    assert core[..6] == box && core[6..] == Spread(gaps, words);
    MarkedBox(mark);
    assert core[3] == mark;
  }

  lemma EmptyBox(line: string, before: string, mark: char, tail: string)
    requires IsBoxLine(line, before, mark, [], [], tail)
    ensures Box(line).None?
  {
    hide Trim;
    var core := "- [" + [mark] + "]";
    assert line == before + core + (" " + tail);
    TrimmedLine(before, core, " " + tail);
    assert |core| == 5;
  }

  /** What a line with a box says: nothing, if all its words are tags; else a task with the other words
      as its text, ticked unless a blank is in the box, with the last agent and project named. */
  lemma TaskWrittenOut(line: string, before: string, mark: char, gaps: seq<string>, words: seq<string>, tail: string)
    requires IsBoxLine(line, before, mark, gaps, words, tail)
    ensures var parts := Filter(SaysSomething, words);
            if parts == [] then ParseLine(line).None?
            else
              ParseLine(line).Some? &&
              var t := ParseLine(line).value;
              && t.id.None? && t.text == Spread(OneSpaces(|parts|), parts) && t.completed == (mark != ' ')
              && TagIs(words, NamesAgent, t.agent) && TagIs(words, NamesProject, t.project)
  {
    if words == [] {
      EmptyBox(line, before, mark, tail);
      FilterNone(SaysSomething, words);
    } else {
      BoxOf(line, before, mark, gaps, words, tail);
      SplitSpread(gaps, words, "");
      assert Spread(gaps, words) + "" == Spread(gaps, words);
      hide Box, SplitWhitespace, Join, LastTag, Filter, SaysSomething, IsTextWord, AgentTag, ProjectTag, NamesAgent,
        NamesProject, TagIs, Spread;
      forall w ensures IsTextWord(w) <==> SaysSomething(w) { TextWordIs(w); }
      SameFilter(IsTextWord, SaysSomething, words);
      var parts := Filter(SaysSomething, words);
      forall w, v ensures AgentTag(w) == Some(v) <==> NamesAgent(w, v) { AgentIs(w, v); }
      forall w, v ensures ProjectTag(w) == Some(v) <==> NamesProject(w, v) { ProjectIs(w, v); }
      LastTagIs(words, AgentTag, NamesAgent);
      LastTagIs(words, ProjectTag, NamesProject);
      JoinIsSpread(parts);
      PartsAreWords(words, parts);
      NoText(parts);
    }
  }

  lemma {:induction false} SameFilter(p: string -> bool, q: string -> bool, s: seq<string>)
    requires forall x :: p(x) <==> q(x)
    ensures Filter(p, s) == Filter(q, s)
  {
    if s != [] { SameFilter(p, q, s[1..]); }
  }

  lemma PartsAreWords(words: seq<string>, parts: seq<string>)
    requires SolidWords(words) && forall w :: w in parts ==> w in words
    ensures SolidWords(parts)
  {
    forall i | 0 <= i < |parts| ensures SolidWord(parts[i]) { assert parts[i] in words; }
  }

  lemma NoText(parts: seq<string>)
    requires SolidWords(parts)
    ensures Join(parts) == "" <==> parts == []
  {
    if parts != [] {
      JoinIsSpread(parts);
      assert SolidWord(parts[0]);
    }
  }

  lemma TrimmedParts(line: string) returns (before: string, core: string, behind: string)
    ensures line == before + core + behind && core == Trim(line) && AllSpace(before) && AllSpace(behind)
  {
    hide TrimEnd, TrimStart;
    TrimEndParts(line);
    var e := TrimEnd(line);
    var k := TrimStartParts(e);
    before, core, behind := e[..k], Trim(line), line[|e|..];
  }

  lemma BoxStart(line: string)
    requires ParseLine(line).Some?
    ensures var t := Trim(line); |t| >= 6 && t[..6] == "- [" + [t[3]] + "] " && t[3] in {' ', 'x', 'X'}
  {
    hide Trim, SplitWhitespace, Join, LastTag, Filter;
  }

  lemma SameLine(before: string, core: string, behind: string, words: string, tail: string)
    requires |core| >= 6 && core[6..] == words + tail
    ensures before + core + behind == before + core[..6] + words + (tail + behind)
  {
    assert core == core[..6] + core[6..];
    assert before + (core[..6] + (words + tail)) + behind == before + core[..6] + words + (tail + behind);
  }

  lemma BlanksTogether(a: string, b: string)
    requires AllSpace(a) && AllSpace(b)
    ensures AllSpace(a + b)
  {
  }

  lemma IsBoxLineBy(line: string, before: string, mark: char, gaps: seq<string>, words: seq<string>, tail: string)
    requires |gaps| == |words| && AreGaps(gaps) && SolidWords(words) && AllSpace(before) && AllSpace(tail)
    requires mark in {' ', 'x', 'X'} && line == before + ("- [" + [mark] + "] ") + Spread(gaps, words) + tail
    ensures IsBoxLine(line, before, mark, gaps, words, tail)
  {
    hide AreGaps, SolidWords, AllSpace, Spread;
    assert before + ("- [" + [mark] + "] ") == before + "- [" + [mark] + "] ";
  }

  /** Only such lines are tasks. */
  lemma TaskIsBoxLine(line: string)
    returns (before: string, mark: char, gaps: seq<string>, words: seq<string>, tail: string)
    requires ParseLine(line).Some?
    ensures IsBoxLine(line, before, mark, gaps, words, tail)
  {
    hide *;
    hide SplitWhitespace, TrimEnd, TrimStart;
    var b, core, behind := TrimmedParts(line);
    BoxStart(line);
    before, mark := b, core[3];
    gaps, words, tail := EveryTextIsSpread(core[6..]);
    SameLine(b, core, behind, Spread(gaps, words), tail);
    BlanksTogether(tail, behind);
    tail := tail + behind;
    IsBoxLineBy(line, before, mark, gaps, words, tail);
  }

  // ----- writing -----

  /** A task as a line: box, text, agent, project, in this order. */
  lemma WrittenLine(t: Task)
    ensures Serialize(t) ==
      (if t.completed then "- [x] " else "- [ ] ") + t.text
      + (if t.agent.Some? then " @" + t.agent.value else "") + if t.project.Some? then " #" + t.project.value else ""
  {
  }

  lemma {:induction false} WrittenLines(tasks: seq<Task>)
    ensures Flatten(Map(TaskLine, tasks)) ==
      if tasks == [] then "" else Serialize(tasks[0]) + "\n" + Flatten(Map(TaskLine, tasks[1..]))
  {
    hide Serialize;
    if tasks != [] { assert Map(TaskLine, tasks)[1..] == Map(TaskLine, tasks[1..]); }
  }

  /** The file: a heading, a blank line, and one line for each task. */
  lemma WrittenFile(tasks: seq<Task>)
    ensures Written([]) == "# Dev Ops Tasks\n\n"
    ensures Written(tasks) == "# Dev Ops Tasks\n\n" + Flatten(Map(TaskLine, tasks))
    ensures tasks != [] ==> Flatten(Map(TaskLine, tasks)) == Serialize(tasks[0]) + "\n" + Flatten(Map(TaskLine, tasks[1..]))
  {
    hide Serialize, Flatten;
    WrittenLines(tasks);
    WrittenLines([]);
    assert HEADER + "" == HEADER;
  }
}
