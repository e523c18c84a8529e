/** tasks.rs: task lines in Markdown, read and written. */
module Tasks {
  import opened Seqs
  import opened Text
  import opened Words

  datatype Task = Task(id: Option<string>, text: string, completed: bool, agent: Option<string>, project: Option<string>)

  // ----- the words of a task line -----

  predicate IsAgent(name: string) {
    name in {"claude", "antigravity", "codex", "opencode"}
  }

  /** The agent a word names, in any case; "cx" is short for Codex. No letter outside ASCII has one
      of the letters of these names as its lower case, so ASCII lower case is all that matters. */
  function AgentTag(word: string): Option<string> {
    if word == "" || word[0] != '@' then None
    else
      var name := AsciiLower(word[1..]);
      if name == "cx" then Some("codex") else if IsAgent(name) then Some(name) else None
  }

  predicate IsHash(word: string) {
    word != "" && word[0] == '#'
  }

  /** The project a word names; a bare "#" names none. */
  function ProjectTag(word: string): Option<string> {
    if IsHash(word) && word != "#" then Some(word[1..]) else None
  }

  predicate IsTextWord(word: string) {
    AgentTag(word).None? && !IsHash(word)
  }

  /** The last tag of its kind wins. */
  function LastTag(tag: string -> Option<string>, words: seq<string>): Option<string> {
    if words == [] then None
    else
      var last := tag(words[|words| - 1]);
      if last.Some? then last else LastTag(tag, words[..|words| - 1])
  }

  // ----- `parse_line` and `serialize` -----

  /** Whether the box is ticked, and what stands behind it. */
  function Box(line: string): Option<(bool, string)> {
    var t := Trim(line);
    if "- [ ] " <= t then Some((false, t[6..]))
    else if "- [x] " <= t || "- [X] " <= t then Some((true, t[6..]))
    else None
  }

  function ParseLine(line: string): Option<Task> {
    match Box(line)
    case None => None
    case Some(box) =>
      var words := SplitWhitespace(box.1);
      var text := Join(Filter(IsTextWord, words));
      if text == "" then None
      else Some(Task(None, text, box.0, LastTag(AgentTag, words), LastTag(ProjectTag, words)))
  }

  function Tail(mark: string, tag: Option<string>): string {
    if tag.Some? then " " + mark + tag.value else ""
  }

  function Serialize(t: Task): string {
    "- [" + (if t.completed then "x" else " ") + "] " + t.text + Tail("@", t.agent) + Tail("#", t.project)
  }

  lemma FilterNext(p: string -> bool, ws: seq<string>, i: nat)
    requires i < |ws|
    ensures Filter(p, ws[..i + 1]) == Filter(p, ws[..i]) + if p(ws[i]) then [ws[i]] else []
  {
    hide Filter;
    assert ws[..i + 1] == ws[..i] + [ws[i]];
    FilterAppend(p, ws[..i], [ws[i]]);
    FilterOne(p, ws[i]);
  }

  lemma LastTagNext(tag: string -> Option<string>, ws: seq<string>, i: nat)
    requires i < |ws|
    ensures LastTag(tag, ws[..i + 1]) == if tag(ws[i]).Some? then tag(ws[i]) else LastTag(tag, ws[..i])
  {
    assert ws[..i + 1][..i] == ws[..i];
  }

  lemma NoWordsYet(p: string -> bool, tag: string -> Option<string>, ws: seq<string>)
    ensures Filter(p, ws[..0]) == [] && LastTag(tag, ws[..0]) == None
  {
  }

  /** The loop of `parse_line` over the words. */
  method ParseLineLoop(line: string) returns (r: Option<Task>)
    ensures r == ParseLine(line)
  {
    hide Box, Filter, LastTag, SplitWhitespace, Join, Map;
    match Box(line) {
      case None => return None;
      case Some(box) =>
        var words := SplitWhitespace(box.1);
        var agent: Option<string>, project: Option<string>, parts: seq<string> := None, None, [];
        NoWordsYet(IsTextWord, AgentTag, words);
        NoWordsYet(IsTextWord, ProjectTag, words);
        for i := 0 to |words|
          invariant parts == Filter(IsTextWord, words[..i])
          invariant agent == LastTag(AgentTag, words[..i]) && project == LastTag(ProjectTag, words[..i])
        {
          FilterNext(IsTextWord, words, i);
          LastTagNext(AgentTag, words, i);
          LastTagNext(ProjectTag, words, i);
          var word := words[i];
          if word != "" && word[0] == '@' {
            var name := AsciiLower(word[1..]);
            if name == "cx" || IsAgent(name) {
              agent := Some(if name == "cx" then "codex" else name);
            } else {
              parts := parts + [word];
            }
          } else if word != "" && word[0] == '#' {
            if word != "#" { project := Some(word[1..]); }
          } else {
            parts := parts + [word];
          }
        }
        assert words[..|words|] == words;
        var text := Join(parts);
        if text == "" { return None; }
        return Some(Task(None, text, box.0, agent, project));
    }
  }

  // ----- the tasks that lines can hold -----

  /** Words with single blanks between them, none of which would be read as a tag. */
  predicate IsPlainText(text: string) {
    var ws := SplitWhitespace(text);
    text != "" && text == Join(ws) && forall i :: 0 <= i < |ws| ==> IsTextWord(ws[i])
  }

  predicate Canonical(t: Task) {
    t.id.None? && IsPlainText(t.text) && (t.agent.Some? ==> IsAgent(t.agent.value))
    && (t.project.Some? ==> IsWord(t.project.value))
  }

  lemma {:induction false} SomeTag(tag: string -> Option<string>, ws: seq<string>)
    ensures LastTag(tag, ws).Some? ==> exists i :: 0 <= i < |ws| && tag(ws[i]) == LastTag(tag, ws)
  {
    if LastTag(tag, ws).Some? && tag(ws[|ws| - 1]).None? {
      SomeTag(tag, ws[..|ws| - 1]);
    }
  }

  lemma FilteredWords(ws: seq<string>)
    requires AreWords(ws)
    ensures AreWords(Filter(IsTextWord, ws))
    ensures forall i :: 0 <= i < |Filter(IsTextWord, ws)| ==> IsTextWord(Filter(IsTextWord, ws)[i])
  {
    hide IsWord, IsTextWord, Filter;
    var fs := Filter(IsTextWord, ws);
    forall i | 0 <= i < |fs| ensures IsWord(fs[i]) && IsTextWord(fs[i]) {
      assert fs[i] in fs;
    }
  }

  lemma SplitOfJoin(ws: seq<string>)
    requires AreWords(ws)
    ensures SplitWhitespace(Join(ws)) == ws
  {
    hide SplitWhitespace, Join;
    SplitJoin(ws, "");
    assert Join(ws) + "" == Join(ws);
  }

  lemma ProjectIsWord(w: string)
    requires IsWord(w) && ProjectTag(w).Some?
    ensures IsWord(ProjectTag(w).value)
  {
  }

  lemma AgentIsAgent(w: string)
    requires AgentTag(w).Some?
    ensures IsAgent(AgentTag(w).value)
  {
  }

  /** Every task that is read is canonical. */
  lemma ParsedIsCanonical(line: string)
    requires ParseLine(line).Some?
    ensures Canonical(ParseLine(line).value)
  {
    hide Box, Filter, LastTag, SplitWhitespace, Join, IsTextWord, AgentTag, ProjectTag, IsWord, IsAgent;
    var words := SplitWhitespace(Box(line).value.1);
    SplitGivesWords(Box(line).value.1);
    FilteredWords(words);
    SplitOfJoin(Filter(IsTextWord, words));
    SomeTag(AgentTag, words);
    SomeTag(ProjectTag, words);
    var t := ParseLine(line).value;
    if t.agent.Some? {
      var i :| 0 <= i < |words| && AgentTag(words[i]) == t.agent;
      AgentIsAgent(words[i]);
    }
    if t.project.Some? {
      var i :| 0 <= i < |words| && ProjectTag(words[i]) == t.project;
      ProjectIsWord(words[i]);
    }
  }

  function TagWords(mark: string, tag: Option<string>): seq<string> {
    if tag.Some? then [mark + tag.value] else []
  }

  /** The words behind the box of a serialized task. */
  function TaskWords(t: Task): seq<string> {
    SplitWhitespace(t.text) + TagWords("@", t.agent) + TagWords("#", t.project)
  }

  lemma {:induction false} JoinSnoc(ws: seq<string>, w: string)
    requires ws != []
    ensures Join(ws + [w]) == Join(ws) + " " + w
  {
    if |ws| == 1 {
      assert (ws + [w])[1..] == [w];
    } else {
      assert (ws + [w])[1..] == ws[1..] + [w];
      JoinSnoc(ws[1..], w);
    }
  }

  lemma JoinTags(ws: seq<string>, mark: string, tag: Option<string>)
    requires ws != []
    ensures Join(ws + TagWords(mark, tag)) == Join(ws) + Tail(mark, tag)
  {
    hide Join;
    if tag.Some? {
      JoinSnoc(ws, mark + tag.value);
      assert Join(ws) + " " + (mark + tag.value) == Join(ws) + (" " + mark + tag.value);
    } else {
      assert ws + [] == ws;
      assert Join(ws) + "" == Join(ws);
    }
  }

  lemma PlainTextHasWords(text: string)
    requires IsPlainText(text)
    ensures SplitWhitespace(text) != [] && Join(SplitWhitespace(text)) == text
  {
    hide SplitWhitespace, IsTextWord;
  }

  lemma SerializedWords(t: Task)
    requires Canonical(t)
    ensures Serialize(t) == "- [" + (if t.completed then "x" else " ") + "] " + Join(TaskWords(t))
  {
    hide Join, SplitWhitespace, Tail, TagWords, IsTextWord, IsPlainText, IsWord, IsAgent;
    PlainTextHasWords(t.text);
    var ws := SplitWhitespace(t.text);
    JoinTags(ws, "@", t.agent);
    JoinTags(ws + TagWords("@", t.agent), "#", t.project);
  }

  predicate Lowercase(name: string) {
    forall i :: 0 <= i < |name| ==> 'a' <= name[i] <= 'z'
  }

  lemma AgentsAreLowercase(name: string)
    requires IsAgent(name)
    ensures Lowercase(name) && name != "cx"
  {
    if name == "claude" {
      assert Lowercase("claude");
    } else if name == "codex" {
      assert Lowercase("codex");
    } else if name == "opencode" {
      assert Lowercase("opencode");
    } else {
      assert Lowercase("antigravity");
    }
    assert |name| > 2;
  }

  lemma LowercaseIsFixed(name: string)
    requires Lowercase(name)
    ensures AsciiLower(name) == name
  {
  }

  lemma LowercaseTagIsWord(name: string)
    requires Lowercase(name)
    ensures IsWord("@" + name)
  {
  }

  lemma AgentWord(name: string)
    requires IsAgent(name)
    ensures IsWord("@" + name) && AgentTag("@" + name) == Some(name) && ProjectTag("@" + name) == None
  {
    hide IsAgent, Lowercase, IsWord, Map;
    AgentsAreLowercase(name);
    LowercaseTagIsWord(name);
    LowercaseIsFixed(name);
    assert ("@" + name)[1..] == name;
  }

  lemma ProjectWord(name: string)
    requires IsWord(name)
    ensures IsWord("#" + name) && AgentTag("#" + name) == None && ProjectTag("#" + name) == Some(name)
  {
    assert ("#" + name)[1..] == name;
  }

  lemma TagWordsAreWords(t: Task)
    requires Canonical(t)
    ensures AreWords(TagWords("@", t.agent)) && AreWords(TagWords("#", t.project))
    ensures forall i :: 0 <= i < |TagWords("@", t.agent)| ==> !IsTextWord(TagWords("@", t.agent)[i])
    ensures forall i :: 0 <= i < |TagWords("#", t.project)| ==> !IsTextWord(TagWords("#", t.project)[i])
  {
    hide SplitWhitespace, IsPlainText, IsWord, AgentTag, IsAgent;
    if t.agent.Some? { AgentWord(t.agent.value); }
    if t.project.Some? { ProjectWord(t.project.value); }
  }

  lemma AreWordsAppend(a: seq<string>, b: seq<string>)
    requires AreWords(a) && AreWords(b)
    ensures AreWords(a + b)
  {
    hide IsWord;
  }

  lemma TaskWordsAreWords(t: Task)
    requires Canonical(t)
    ensures AreWords(TaskWords(t))
  {
    hide SplitWhitespace, IsPlainText, AreWords, TagWords, Canonical;
    SplitGivesWords(t.text);
    TagWordsAreWords(t);
    AreWordsAppend(SplitWhitespace(t.text), TagWords("@", t.agent));
    AreWordsAppend(SplitWhitespace(t.text) + TagWords("@", t.agent), TagWords("#", t.project));
  }

  lemma TextOfWords(t: Task)
    requires Canonical(t)
    ensures Filter(IsTextWord, TaskWords(t)) == SplitWhitespace(t.text)
  {
    hide SplitWhitespace, AreWords, TagWords, IsTextWord, Filter, IsWord, IsAgent;
    var ws, a, p := SplitWhitespace(t.text), TagWords("@", t.agent), TagWords("#", t.project);
    TagWordsAreWords(t);
    FilterAppend(IsTextWord, ws + a, p);
    FilterAppend(IsTextWord, ws, a);
    FilterAll(IsTextWord, ws);
    FilterNone(IsTextWord, a);
    FilterNone(IsTextWord, p);
  }

  predicate Untagged(tag: string -> Option<string>, ws: seq<string>) {
    forall i :: 0 <= i < |ws| ==> tag(ws[i]).None?
  }

  lemma {:induction false} LastTagNone(tag: string -> Option<string>, ws: seq<string>)
    requires Untagged(tag, ws)
    ensures LastTag(tag, ws) == None
  {
    if ws != [] { LastTagNone(tag, ws[..|ws| - 1]); }
  }

  lemma {:induction false} LastTagOf(tag: string -> Option<string>, a: seq<string>, w: string, b: seq<string>)
    requires tag(w).Some? && Untagged(tag, b)
    ensures LastTag(tag, a + [w] + b) == tag(w)
    decreases |b|
  {
    var ws := a + [w] + b;
    if b != [] {
      assert ws[..|ws| - 1] == a + [w] + b[..|b| - 1];
      LastTagOf(tag, a, w, b[..|b| - 1]);
    }
  }

  lemma TextUntagged(t: Task)
    requires Canonical(t)
    ensures Untagged(AgentTag, SplitWhitespace(t.text)) && Untagged(ProjectTag, SplitWhitespace(t.text))
  {
    hide SplitWhitespace, AgentTag, IsWord, IsAgent;
    var ws := SplitWhitespace(t.text);
    forall i | 0 <= i < |ws| ensures AgentTag(ws[i]).None? && ProjectTag(ws[i]).None? {
      assert IsTextWord(ws[i]);
    }
  }

  lemma UntaggedAppend(tag: string -> Option<string>, a: seq<string>, b: seq<string>)
    requires Untagged(tag, a) && Untagged(tag, b)
    ensures Untagged(tag, a + b)
  {
  }

  lemma AgentOfWords(t: Task)
    requires Canonical(t)
    ensures LastTag(AgentTag, TaskWords(t)) == t.agent
  {
    hide SplitWhitespace, AgentTag, LastTag, IsPlainText, IsWord, IsAgent;
    var ws, p := SplitWhitespace(t.text), TagWords("#", t.project);
    TextUntagged(t);
    if t.project.Some? { ProjectWord(t.project.value); }
    assert Untagged(AgentTag, p);
    if t.agent.Some? {
      AgentWord(t.agent.value);
      LastTagOf(AgentTag, ws, "@" + t.agent.value, p);
    } else {
      UntaggedAppend(AgentTag, ws + [], p);
      LastTagNone(AgentTag, ws + [] + p);
    }
  }

  lemma ProjectOfWords(t: Task)
    requires Canonical(t)
    ensures LastTag(ProjectTag, TaskWords(t)) == t.project
  {
    hide SplitWhitespace, ProjectTag, LastTag, IsPlainText, IsWord, IsAgent, AgentTag;
    var ws, a := SplitWhitespace(t.text), TagWords("@", t.agent);
    TextUntagged(t);
    if t.agent.Some? { AgentWord(t.agent.value); }
    assert Untagged(ProjectTag, a);
    if t.project.Some? {
      ProjectWord(t.project.value);
      LastTagOf(ProjectTag, ws + a, "#" + t.project.value, []);
      assert ws + a + ["#" + t.project.value] + [] == ws + a + ["#" + t.project.value];
    } else {
      UntaggedAppend(ProjectTag, ws, a);
      UntaggedAppend(ProjectTag, ws + a, []);
      LastTagNone(ProjectTag, ws + a + []);
    }
  }

  lemma {:induction false} JoinEnds(ws: seq<string>)
    requires AreWords(ws) && ws != []
    ensures Join(ws) != "" && !IsSpace(Join(ws)[|Join(ws)| - 1])
  {
    if |ws| > 1 {
      JoinEnds(ws[1..]);
    } else {
      assert IsWord(ws[0]);
    }
  }

  lemma NothingToTrim(l: string)
    requires l != "" && !IsSpace(l[0]) && !IsSpace(l[|l| - 1])
    ensures Trim(l) == l
  {
    hide IsSpace, TrimStart, TrimEnd;
    TrimEndUnique(l, "");
    assert l + "" == l;
    TrimStartUnique("", l);
    assert "" + l == l;
  }

  lemma OpenBox(rest: string)
    requires Trim("- [ ] " + rest) == "- [ ] " + rest
    ensures Box("- [ ] " + rest) == Some((false, rest))
  {
    hide Trim;
    assert ("- [ ] " + rest)[6..] == rest;
  }

  lemma TickedBox(rest: string)
    requires Trim("- [x] " + rest) == "- [x] " + rest
    ensures Box("- [x] " + rest) == Some((true, rest))
  {
    hide Trim;
    assert ("- [x] " + rest)[6..] == rest;
    assert ("- [x] " + rest)[3] == 'x' && "- [ ] "[3] == ' ';
  }

  lemma TrimmedBox(completed: bool, rest: string)
    requires rest != "" && !IsSpace(rest[|rest| - 1])
    ensures Box((if completed then "- [x] " else "- [ ] ") + rest) == Some((completed, rest))
  {
    hide Trim, Box;
    NothingToTrim((if completed then "- [x] " else "- [ ] ") + rest);
    if completed { TickedBox(rest); } else { OpenBox(rest); }
  }

  /** A canonical task is read back from its line. */
  lemma CanonicalRoundTrip(t: Task)
    requires Canonical(t)
    ensures ParseLine(Serialize(t)) == Some(t)
  {
    hide *;
    hide Canonical;
    var mark := if t.completed then "- [x] " else "- [ ] ";
    var ws := TaskWords(t);
    SerializedWords(t);
    TaskWordsAreWords(t);
    TaskWordsSome(t);
    JoinEnds(ws);
    assert "- [" + (if t.completed then "x" else " ") + "] " == mark;
    TrimmedBox(t.completed, Join(ws));
    SplitOfJoin(ws);
    TextOfWords(t);
    AgentOfWords(t);
    ProjectOfWords(t);
    ParsedFrom(Serialize(t), t, ws);
  }

  lemma TaskWordsSome(t: Task)
    requires Canonical(t)
    ensures TaskWords(t) != []
  {
    hide SplitWhitespace, IsTextWord, IsWord, IsAgent;
    PlainTextHasWords(t.text);
  }

  lemma ParsedFrom(line: string, t: Task, ws: seq<string>)
    requires Canonical(t) && Box(line) == Some((t.completed, Join(ws))) && SplitWhitespace(Join(ws)) == ws
    requires Filter(IsTextWord, ws) == SplitWhitespace(t.text)
    requires LastTag(AgentTag, ws) == t.agent && LastTag(ProjectTag, ws) == t.project
    ensures ParseLine(line) == Some(t)
  {
    hide Box, Filter, LastTag, SplitWhitespace, Join, IsTextWord, AgentTag, ProjectTag, IsWord, IsAgent;
  }

  /** A task survives being written and read exactly if it is canonical. */
  lemma RoundTripExactly(t: Task)
    ensures ParseLine(Serialize(t)) == Some(t) <==> Canonical(t)
  {
    hide *;
    if Canonical(t) { CanonicalRoundTrip(t); }
    if ParseLine(Serialize(t)) == Some(t) { ParsedIsCanonical(Serialize(t)); }
  }

  /** Reading, writing and reading again changes nothing. */
  lemma ParseIsStable(line: string)
    requires ParseLine(line).Some?
    ensures ParseLine(Serialize(ParseLine(line).value)) == ParseLine(line)
  {
    hide *;
    ParsedIsCanonical(line);
    CanonicalRoundTrip(ParseLine(line).value);
  }

  // ----- whole files -----

  const HEADER := "# Dev Ops Tasks\n\n"

  function TasksOf(lines: seq<string>): seq<Task> {
    if lines == [] then []
    else (match ParseLine(lines[0]) case Some(t) => [t] case None => []) + TasksOf(lines[1..])
  }

  /** `load_from_markdown`, given the text of the file if there is one. */
  function Load(file: Option<string>): seq<Task> {
    if file.None? then [] else TasksOf(Lines(file.value))
  }

  function TaskLine(t: Task): string {
    Serialize(t) + "\n"
  }

  function Written(tasks: seq<Task>): string {
    HEADER + Flatten(Map(TaskLine, tasks))
  }

  /** The loop of `write_markdown`. */
  method WriteLoop(tasks: seq<Task>) returns (out: string)
    ensures out == Written(tasks)
  {
    hide Serialize, Flatten, Map;
    out := HEADER;
    NothingWritten(tasks);
    assert HEADER + "" == HEADER;
    for i := 0 to |tasks|
      invariant out == HEADER + Flatten(Map(TaskLine, tasks[..i]))
    {
      WrittenNext(tasks, i);
      out := out + Serialize(tasks[i]);
      out := out + "\n";
      assert out == HEADER + (Flatten(Map(TaskLine, tasks[..i])) + (Serialize(tasks[i]) + "\n"));
    }
    assert tasks[..|tasks|] == tasks;
  }

  lemma NothingWritten(tasks: seq<Task>)
    ensures Flatten(Map(TaskLine, tasks[..0])) == ""
  {
  }

  lemma WrittenNext(tasks: seq<Task>, i: nat)
    requires i < |tasks|
    ensures Flatten(Map(TaskLine, tasks[..i + 1])) == Flatten(Map(TaskLine, tasks[..i])) + (Serialize(tasks[i]) + "\n")
  {
    hide Serialize, Flatten;
    assert tasks[..i + 1] == tasks[..i] + [tasks[i]];
    MapAppend(TaskLine, tasks[..i], [tasks[i]]);
    assert Map(TaskLine, [tasks[i]]) == [TaskLine(tasks[i])];
    FlattenAppend(Map(TaskLine, tasks[..i]), [TaskLine(tasks[i])]);
    FlattenOne(TaskLine(tasks[i]));
  }

  lemma TasksOfStep(l: string, lines: seq<string>)
    ensures TasksOf([l] + lines) == (match ParseLine(l) case Some(t) => [t] case None => []) + TasksOf(lines)
  {
    hide ParseLine;
    assert ([l] + lines)[1..] == lines;
  }

  lemma NoDashNoTask(line: string)
    requires Trim(line) == line && (line == "" || line[0] != '-')
    ensures ParseLine(line).None?
  {
    hide Trim;
  }

  lemma TrimmedAlready(line: string)
    requires line == "" || (!IsSpace(line[0]) && !IsSpace(line[|line| - 1]))
    ensures Trim(line) == line
  {
    hide TrimEnd, TrimStart;
    TrimEndUnique(line, "");
    TrimStartUnique("", line);
    assert line + "" == line && "" + line == line;
  }

  lemma HeaderHasNoTask()
    ensures ParseLine("# Dev Ops Tasks").None? && ParseLine("").None?
  {
    hide Trim, ParseLine;
    TrimmedAlready("# Dev Ops Tasks");
    TrimmedAlready("");
    NoDashNoTask("# Dev Ops Tasks");
    NoDashNoTask("");
  }

  lemma {:induction false} JoinHasNoNewline(ws: seq<string>)
    requires AreWords(ws)
    ensures NoNewline(Join(ws))
  {
    hide IsWord;
    if ws != [] {
      WordHasNoNewline(ws[0]);
      if |ws| > 1 { JoinHasNoNewline(ws[1..]); }
    }
  }

  lemma SerializedIsOneLine(t: Task)
    requires Canonical(t)
    ensures IsLine(TaskLine(t)) && Terminated(TaskLine(t)) && StripEol(TaskLine(t)) == Serialize(t)
  {
    hide Canonical, Join, TaskWords, AreWords, IsSpace;
    var mark := "- [" + (if t.completed then "x" else " ") + "] ";
    SerializedWords(t);
    TaskWordsAreWords(t);
    TaskWordsSome(t);
    JoinHasNoNewline(TaskWords(t));
    JoinEnds(TaskWords(t));
    var s := mark + Join(TaskWords(t));
    assert (s + "\n")[..|s + "\n"| - 1] == s;
    assert s[|s| - 1] == Join(TaskWords(t))[|Join(TaskWords(t))| - 1];
    assert IsSpace('\r') by { ReturnIsSpace(); }
  }

  lemma ReturnIsSpace()
    ensures IsSpace('\r')
  {
  }

  predicate AllCanonical(tasks: seq<Task>) {
    forall i :: 0 <= i < |tasks| ==> Canonical(tasks[i])
  }

  lemma {:induction false} LoadLines(tasks: seq<Task>)
    requires AllCanonical(tasks)
    ensures TasksOf(Lines(Flatten(Map(TaskLine, tasks)))) == tasks
  {
    hide Canonical, ParseLine, TaskLine, StripEol, SplitInclusive, TasksOf;
    if tasks == [] {
      SplitEmpty();
      NoLinesNoTasks();
    } else {
      var t, rest := tasks[0], Flatten(Map(TaskLine, tasks[1..]));
      assert Map(TaskLine, tasks) == [TaskLine(t)] + Map(TaskLine, tasks[1..]);
      SerializedIsOneLine(t);
      SplitFirst(TaskLine(t), rest);
      MapAppend(StripEol, [TaskLine(t)], SplitInclusive(rest));
      assert Map(StripEol, [TaskLine(t)]) == [Serialize(t)];
      TasksOfStep(Serialize(t), Lines(rest));
      CanonicalRoundTrip(t);
      LoadLines(tasks[1..]);
    }
  }

  lemma NoLinesNoTasks()
    ensures TasksOf([]) == [] && Map(StripEol, []) == []
  {
  }

  lemma HeaderLines(rest: string)
    ensures Lines(HEADER + rest) == ["# Dev Ops Tasks", ""] + Lines(rest)
  {
    hide SplitInclusive;
    var a, b := "# Dev Ops Tasks\n", "\n";
    assert a[..|a| - 1] == "# Dev Ops Tasks" && b[..|b| - 1] == "";
    SplitFirst(a, b + rest);
    SplitFirst(b, rest);
    assert HEADER + rest == a + (b + rest);
    assert [a] + ([b] + SplitInclusive(rest)) == [a, b] + SplitInclusive(rest);
    MapAppend(StripEol, [a, b], SplitInclusive(rest));
    assert Map(StripEol, [a, b]) == ["# Dev Ops Tasks", ""];
  }

  /** Only canonical tasks are loaded, whatever the file holds. */
  lemma {:induction false} LoadedAreCanonical(lines: seq<string>)
    ensures AllCanonical(TasksOf(lines))
  {
    hide ParseLine, Canonical;
    if lines != [] {
      LoadedAreCanonical(lines[1..]);
      if ParseLine(lines[0]).Some? { ParsedIsCanonical(lines[0]); }
    }
  }

  /** A list of tasks is loaded from the file it was written to exactly if all are canonical. */
  lemma LoadWrittenExactly(tasks: seq<Task>)
    ensures Load(Some(Written(tasks))) == tasks <==> AllCanonical(tasks)
  {
    hide ParseLine, Canonical, Lines, TaskLine, Flatten, TasksOf;
    var body := Flatten(Map(TaskLine, tasks));
    HeaderLines(body);
    TasksOfStep("# Dev Ops Tasks", [""] + Lines(body));
    TasksOfStep("", Lines(body));
    assert ["# Dev Ops Tasks", ""] + Lines(body) == ["# Dev Ops Tasks"] + ([""] + Lines(body));
    HeaderHasNoTask();
    if AllCanonical(tasks) { LoadLines(tasks); }
    LoadedAreCanonical(Lines(Written(tasks)));
  }

  /** What was loaded from any file is loaded again from the file it is written to. */
  lemma LoadIsStable(file: Option<string>)
    ensures Load(Some(Written(Load(file)))) == Load(file)
  {
    hide TasksOf, Lines, Written, Canonical;
    if file.Some? {
      LoadedAreCanonical(Lines(file.value));
    }
    LoadWrittenExactly(Load(file));
  }
}
