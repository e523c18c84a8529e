/** The catalogue, the plan and the checkpoint in the texts of the rows and arguments: which wrapper
    row is about which conversation, what is shown, and which arguments name a conversation. */
module SessionOutcome {
  import opened Seqs
  import Text
  import opened Words
  import opened SessionRecovery

  // ----- which row is about which conversation -----

  predicate IsStore(agent: string) {
    agent == "claude" || agent == "codex" || agent == "opencode"
  }

  /** The row names the conversation of this agent, under either of the agent's identities. */
  predicate IsAbout(w: WrapperRow, agent: string, id: string) {
    w.Row? && w.native == Some(id) && (w.identity == agent || w.identity == agent + "_kaira")
  }

  /** No identity has a colon in it, or is the word under which rows without conversation are kept. */
  predicate PlainIdentity(w: WrapperRow) {
    w.Row? ==> ':' !in w.identity && w.identity != "wrapper"
  }

  predicate PlainIdentities(ws: seq<WrapperRow>) {
    forall i :: 0 <= i < |ws| ==> PlainIdentity(ws[i])
  }

  /** Identity and id of a key are told apart, because one of them has no colon in it. Every id but a
      UUID in its URN form has none. */
  predicate Apart(w: WrapperRow, id: string) {
    w.Row? ==> ':' !in id || ':' !in w.identity
  }

  predicate AllApart(ws: seq<WrapperRow>, id: string) {
    forall i :: 0 <= i < |ws| ==> Apart(ws[i], id)
  }

  lemma OnlyColon(b: string, y: string, i: nat)
    requires ':' !in b && ':' !in y && i < |b + ":" + y|
    ensures (b + ":" + y)[i] == ':' <==> i == |b|
  {
    assert i > |b| ==> (b + ":" + y)[i] == y[i - |b| - 1];
    assert i < |b| ==> (b + ":" + y)[i] == b[i];
  }

  /** Texts are told apart at the only colon behind, or in front. */
  lemma SameSplitBehind(a: string, x: string, b: string, y: string)
    requires ':' !in b && ':' !in y
    ensures a + ":" + x == b + ":" + y <==> (a == b && x == y)
  {
    if a + ":" + x == b + ":" + y {
      var s := b + ":" + y;
      assert s == a + ":" + x;
      assert s[|a|] == ':';
      OnlyColon(b, y, |a|);
      assert s[..|a|] == a && s[..|b|] == b && s[|a| + 1..] == x && s[|b| + 1..] == y;
    }
  }

  lemma SameSplit(a: string, x: string, b: string, y: string)
    requires ':' !in a && ':' !in b
    ensures a + ":" + x == b + ":" + y <==> (a == b && x == y)
  {
    if a + ":" + x == b + ":" + y {
      hide FirstIndex;
      assert a + (":" + x) == b + (":" + y) by { assert a + ":" + x == a + (":" + x) && b + ":" + y == b + (":" + y); }
      SamePrefix(Is(':'), a, ":" + x, b, ":" + y);
      assert (":" + x)[1..] == x && (":" + y)[1..] == y;
    }
  }

  lemma AgentIs(identity: string, agent: string)
    requires IsStore(agent)
    ensures AgentOf(identity) == agent <==> identity == agent || identity == agent + "_kaira"
    ensures ':' !in agent && (':' !in identity ==> ':' !in AgentOf(identity))
  {
    EndingsDiffer(identity, agent);
  }

  lemma EndingsDiffer(identity: string, agent: string)
    requires IsStore(agent)
    ensures agent + "_kaira" ==
      if agent == "claude" then "claude_kaira" else if agent == "codex" then "codex_kaira" else "opencode_kaira"
  {
  }

  lemma RowIsAbout(w: WrapperRow, agent: string, id: string)
    requires w.Row? && IsStore(agent)
    ensures IsAbout(w, agent, id) ==> RowKey(w) == Some(agent + ":" + id)
    ensures Apart(w, id) && RowKey(w) == Some(agent + ":" + id) ==> IsAbout(w, agent, id)
  {
    hide AgentOf;
    AgentIs(w.identity, agent);
    if w.native.Some? && Apart(w, id) {
      if ':' in id {
        SameSplit(AgentOf(w.identity), w.native.value, agent, id);
      } else {
        SameSplitBehind(AgentOf(w.identity), w.native.value, agent, id);
      }
    }
  }

  // ----- which conversations are offered -----

  /** The row is reached: it is one of the first twenty thousand, and it and all before it are read. */
  predicate Reached(ws: seq<WrapperRow>, i: nat) {
    i < |ws| && i < 20_000 && forall j :: 0 <= j <= i ==> ws[j].Row?
  }

  lemma ReachedIsRead(ws: seq<WrapperRow>, i: nat)
    ensures Reached(ws, i) <==> i < ReadCount(ws)
  {
    hide FirstIndex;
    var n := ReadCount(ws);
  }

  /** A row that is reached shows the conversation as running, and its run is not proven dead. */
  predicate ShownRunning(ws: seq<WrapperRow>, dead: set<string>, agent: string, id: string) {
    exists i :: 0 <= i < |ws| && RunningAt(ws, dead, agent, id, i)
  }

  predicate RunningAt(ws: seq<WrapperRow>, dead: set<string>, agent: string, id: string, i: nat)
    requires i < |ws|
  {
    Reached(ws, i) && IsAbout(ws[i], agent, id) && ws[i].status == "running" && ws[i].run !in dead
  }

  lemma BusyIsRunning(ws: seq<WrapperRow>, dead: set<string>, agent: string, id: string)
    requires IsStore(agent)
    ensures ShownRunning(ws, dead, agent, id) ==> Busy(ws, ReadCount(ws), dead, agent + ":" + id)
    ensures AllApart(ws, id) && Busy(ws, ReadCount(ws), dead, agent + ":" + id) ==> ShownRunning(ws, dead, agent, id)
  {
    hide ReadCount, RowKey, IsAbout, Reached, Apart;
    var key, n := agent + ":" + id, ReadCount(ws);
    forall i | 0 <= i < |ws| ensures Reached(ws, i) <==> i < n { ReachedIsRead(ws, i); }
    if i :| 0 <= i < |ws| && RunningAt(ws, dead, agent, id, i) {
      RowIsAbout(ws[i], agent, id);
      assert RowKey(ws[i]) == Some(key) && Blocks(ws[i], dead);
    }
    if AllApart(ws, id) && Busy(ws, n, dead, key) {
      var i :| 0 <= i < n && RowKey(ws[i]) == Some(key) && Blocks(ws[i], dead);
      assert Apart(ws[i], id);
      RowIsAbout(ws[i], agent, id);
      assert RunningAt(ws, dead, agent, id, i);
    }
  }

  /** A conversation of a store is not offered if its directory is gone or a row that is reached shows
      it as running. It is offered otherwise, as long as its id is told apart from the identities:
      rows about other agents' conversations make no difference. */
  lemma OfferedWrittenOut(env: Env, native: map<string, Session>, ws: seq<WrapperRow>, dead: set<string>,
                          agent: string, id: string)
    requires NativeRows(env, native) && IsStore(agent) && agent + ":" + id in native
    ensures var k, rows := agent + ":" + id, CatalogRows(env, native, ws, dead);
            k in rows
            && (rows[k].resumable ==> env.isDir(native[k].projectPath))
            && (ShownRunning(ws, dead, agent, id) ==> !rows[k].resumable && rows[k].availability == "running_or_unverified")
            && (AllApart(ws, id) && !ShownRunning(ws, dead, agent, id) ==>
                 (rows[k].resumable <==> env.isDir(native[k].projectPath)) && rows[k].availability == native[k].availability)
  {
    hide *;
    var k := agent + ":" + id;
    LinkedToFirst(env, native, ws, dead, k);
    OfferedExactly(env, native, ws, dead, k);
    BusyIsRunning(ws, dead, agent, id);
    ShownAvailability(env, native[k], ws, ReadCount(ws), dead, k, CatalogRows(env, native, ws, dead)[k]);
  }

  lemma ShownAvailability(env: Env, native: Session, ws: seq<WrapperRow>, n: nat, dead: set<string>, k: string, row: Session)
    requires n <= |ws| && (forall i :: 0 <= i < n ==> ws[i].Row?) && Shown(env, native, ws, n, dead, k, row)
    ensures row.availability == if Busy(ws, n, dead, k) then "running_or_unverified" else native.availability
  {
    hide Busy, FirstLink;
  }

  // ----- what a row shows -----

  /** The text without control characters and secrets, cut to the length. */
  predicate ShownText(env: Env, shown: string, text: string, limit: nat) {
    var clean := Filter((c: char) => !(c as int < 32 || 127 <= c as int <= 159), env.redact(text));
    |shown| <= limit && shown <= clean && (|shown| < limit ==> shown == clean)
  }

  lemma {:induction false} SameFilter(p: char -> bool, q: char -> bool, s: string)
    requires forall c :: p(c) <==> q(c)
    ensures Filter(p, s) == Filter(q, s)
  {
    if s != "" { SameFilter(p, q, s[1..]); }
  }

  lemma DisplayIsShown(env: Env, text: string, limit: nat)
    ensures ShownText(env, DisplayText(env, text, limit), text, limit)
  {
    hide Filter;
    SameFilter(NotControl, (c: char) => !(c as int < 32 || 127 <= c as int <= 159), env.redact(text));
  }

  lemma OneShown(env: Env, a: string, b: string, text: string, limit: nat)
    requires ShownText(env, a, text, limit) && ShownText(env, b, text, limit)
    ensures a == b
  {
    hide Filter;
  }

  // ----- names and times of Codex's index -----

  /** The line is about the conversation and gives it this name, which is not blank. */
  predicate NamesIt(env: Env, e: IndexLine, key: string, shown: string) {
    e.id.Some? && key == "codex:" + e.id.value && e.threadName.Some? && ShownText(env, shown, e.threadName.value, 120)
    && !Text.AllSpace(shown)
  }

  predicate DatesIt(e: IndexLine, key: string, time: string) {
    e.id.Some? && key == "codex:" + e.id.value && e.updatedAt == Some(time)
  }

  ghost predicate LastNaming(env: Env, index: seq<IndexLine>, i: nat, key: string, shown: string) {
    i < |index| && NamesIt(env, index[i], key, shown) && NoName(env, index, i + 1, key)
  }

  ghost predicate NoName(env: Env, index: seq<IndexLine>, from: nat, key: string) {
    forall j, shown :: from <= j < |index| ==> !NamesIt(env, index[j], key, shown)
  }

  ghost predicate LastDating(index: seq<IndexLine>, i: nat, key: string, time: string) {
    i < |index| && DatesIt(index[i], key, time) && NoTime(index, i + 1, key)
  }

  ghost predicate NoTime(index: seq<IndexLine>, from: nat, key: string) {
    forall j, time :: from <= j < |index| ==> !DatesIt(index[j], key, time)
  }

  lemma NamesIs(env: Env, e: IndexLine, key: string)
    ensures Names(env, e, key) ==> NamesIt(env, e, key, DisplayText(env, e.threadName.value, 120))
    ensures forall shown :: NamesIt(env, e, key, shown) ==>
      Names(env, e, key) && shown == DisplayText(env, e.threadName.value, 120)
    ensures Dates(e, key) <==> e.updatedAt.Some? && DatesIt(e, key, e.updatedAt.value)
    ensures forall time :: DatesIt(e, key, time) ==> Dates(e, key)
  {
    hide DisplayText, ShownText, Text.Blank;
    if e.id.Some? { assert KeyOf("codex", e.id.value) == "codex:" + e.id.value; }
    if e.threadName.Some? {
      var name := DisplayText(env, e.threadName.value, 120);
      DisplayIsShown(env, e.threadName.value, 120);
      Text.BlankIsAllSpace(name);
      forall shown | NamesIt(env, e, key, shown) ensures shown == name {
        OneShown(env, shown, name, e.threadName.value, 120);
      }
    }
  }

  lemma NoneNamesIs(env: Env, index: seq<IndexLine>, from: nat, key: string)
    requires from <= |index|
    ensures NoneNames(env, index, from, key) ==> NoName(env, index, from, key)
    ensures NoneDates(index, from, key) ==> NoTime(index, from, key)
  {
    hide Names, NamesIt, Dates, DatesIt, DisplayText;
    forall j | from <= j < |index|
      ensures forall shown :: NamesIt(env, index[j], key, shown) ==> Names(env, index[j], key)
      ensures forall time :: DatesIt(index[j], key, time) ==> Dates(index[j], key)
    {
      NamesIs(env, index[j], key);
    }
  }

  /** The place behind the last line that names the conversation; and that dates it. */
  lemma {:induction false} LastNames(env: Env, index: seq<IndexLine>, key: string, n: nat) returns (i: nat)
    requires n <= |index| && NoneNames(env, index, n, key)
    ensures i <= |index| && NoneNames(env, index, i, key) && (i > 0 ==> Names(env, index[i - 1], key))
  {
    hide Names;
    if n == 0 || Names(env, index[n - 1], key) { i := n; } else { i := LastNames(env, index, key, n - 1); }
  }

  lemma {:induction false} LastDates(index: seq<IndexLine>, key: string, n: nat) returns (i: nat)
    requires n <= |index| && NoneDates(index, n, key)
    ensures i <= |index| && NoneDates(index, i, key) && (i > 0 ==> Dates(index[i - 1], key))
  {
    hide Dates;
    if n == 0 || Dates(index[n - 1], key) { i := n; } else { i := LastDates(index, key, n - 1); }
  }

  /** The index gives a conversation the name of the last line that has one for it, and the time of
      the last line that has one; what no line gives, and everything else, stays. */
  lemma IndexWrittenOut(env: Env, row: Session, index: seq<IndexLine>)
    ensures var r := Renamed(env, row, index); r == row.(name := r.name, updatedAt := r.updatedAt)
    ensures if NoName(env, index, 0, row.key) then Renamed(env, row, index).name == row.name
            else exists i :: LastNaming(env, index, i, row.key, Renamed(env, row, index).name)
    ensures if NoTime(index, 0, row.key) then Renamed(env, row, index).updatedAt == row.updatedAt
            else exists i :: LastDating(index, i, row.key, Renamed(env, row, index).updatedAt)
  {
    hide Renamed, Names, NamesIt, Dates, DatesIt, DisplayText;
    RenamedKeepsRest(env, row, index);
    var i := LastNames(env, index, row.key, |index|);
    NoneNamesIs(env, index, i, row.key);
    LastNameCounts(env, row, index, i);
    if i > 0 {
      NamesIs(env, index[i - 1], row.key);
      assert LastNaming(env, index, i - 1, row.key, Renamed(env, row, index).name);
    }
    var k := LastDates(index, row.key, |index|);
    NoneNamesIs(env, index, k, row.key);
    LastTimeCounts(env, row, index, k);
    if k > 0 {
      NamesIs(env, index[k - 1], row.key);
      assert LastDating(index, k - 1, row.key, Renamed(env, row, index).updatedAt);
    }
  }

  predicate UuidStore(agent: string) {
    agent == "codex" || agent == "claude"
  }

  predicate OpenCodeId(id: string) {
    5 <= |id| <= 128 && id[..4] == "ses_"
    && forall i :: 0 <= i < |id| ==>
         'a' <= id[i] <= 'z' || 'A' <= id[i] <= 'Z' || '0' <= id[i] <= '9' || id[i] == '_'
  }

  lemma IdIsValid(env: Env, agent: string, id: string)
    ensures ValidNativeId(env, agent, id) <==>
      (UuidStore(agent) && env.isUuid(id)) || (agent == "opencode" && OpenCodeId(id))
  {
  }

  /** What is catalogued of a find: valid id, absolute directory without control characters; its name,
      or agent and beginning of the id if that is blank; and whether its directory is there. */
  lemma FindIsShown(env: Env, f: Found)
    ensures NativeRow(env, f).Some? <==>
      ((UuidStore(f.agent) && env.isUuid(f.id)) || (f.agent == "opencode" && OpenCodeId(f.id)))
      && f.cwd != "" && f.cwd[0] == '/' && forall i :: 0 <= i < |f.cwd| ==> !(f.cwd[i] as int < 32 || 127 <= f.cwd[i] as int <= 159)
    ensures NativeRow(env, f).Some? ==>
      var row := NativeRow(env, f).value;
      && row.key == f.agent + ":" + f.id && row.agent == f.agent && row.nativeId == Some(f.id)
      && row.projectPath == f.cwd && row.updatedAt == f.updated && row.work.None? && row.wrapperRun.None?
      && row.resumable == env.isDir(f.cwd) && row.availability == (if env.isDir(f.cwd) then "saved" else "project_missing")
      && (exists title :: ShownText(env, title, f.name, 120) &&
           row.name == if Text.AllSpace(title) then f.agent + " " + (if |f.id| < 8 then f.id else f.id[..8]) else title)
  {
    hide Filter, ShownText;
    IdIsValid(env, f.agent, f.id);
    DisplayIsShown(env, f.name, 120);
    Text.BlankIsAllSpace(DisplayText(env, f.name, 120));
    hide ValidNativeId, OpenCodeId, DisplayText;
    assert HasNone(IsControl, f.cwd) <==>
      forall i :: 0 <= i < |f.cwd| ==> !(f.cwd[i] as int < 32 || 127 <= f.cwd[i] as int <= 159)
    by { hide Text.Blank; }
  }

  /** Where a conversation's row takes its name and work from: the first row that is reached, is
      about it and was started in its directory. */
  predicate DescribedBy(env: Env, native: Session, ws: seq<WrapperRow>, agent: string, id: string, i: nat)
    requires i < |ws|
  {
    Reached(ws, i) && IsAbout(ws[i], agent, id) && Canonical(env, native.projectPath) == Canonical(env, ws[i].cwd)
    && forall j :: 0 <= j < i ==>
         !(IsAbout(ws[j], agent, id) && Canonical(env, native.projectPath) == Canonical(env, ws[j].cwd))
  }

  lemma LinksIs(env: Env, native: Session, w: WrapperRow, agent: string, id: string)
    requires w.Row? && Apart(w, id) && IsStore(agent)
    ensures Links(env, native, w, agent + ":" + id) <==>
      IsAbout(w, agent, id) && Canonical(env, native.projectPath) == Canonical(env, w.cwd)
  {
    hide RowKey, IsAbout, Canonical, Apart;
    RowIsAbout(w, agent, id);
  }

  /** A conversation is shown under the name, work and run of the row that describes it, or as its
      store has it. */
  lemma DescribedWrittenOut(env: Env, native: map<string, Session>, ws: seq<WrapperRow>, dead: set<string>,
                            agent: string, id: string, i: nat)
    requires NativeRows(env, native) && AllApart(ws, id) && IsStore(agent) && agent + ":" + id in native
    requires i < |ws| && DescribedBy(env, native[agent + ":" + id], ws, agent, id, i)
    ensures var k, rows := agent + ":" + id, CatalogRows(env, native, ws, dead);
            k in rows && rows[k].wrapperRun == Some(ws[i].run) && ShownText(env, rows[k].name, ws[i].name, 120)
            && (rows[k].work.None? || ShownText(env, rows[k].work.value, ws[i].work, 2000))
  {
    hide RowKey, IsAbout, Canonical, Apart, Shown, CatalogRows, ReadCount, NativeRows, DisplayText, ShownText,
      Busy, FirstLink, Links, NonBlank;
    var k, n := agent + ":" + id, ReadCount(ws);
    LinkedToFirst(env, native, ws, dead, k);
    ReachedIsRead(ws, i);
    forall j | 0 <= j <= i
      ensures ws[j].Row?
      ensures Links(env, native[k], ws[j], k) <==>
        IsAbout(ws[j], agent, id) && Canonical(env, native[k].projectPath) == Canonical(env, ws[j].cwd)
    {
      assert Apart(ws[j], id);
      LinksIs(env, native[k], ws[j], agent, id);
    }
    var first := FirstLink(env, native[k], ws, n, k);
    assert first == i;
    ShownAs(env, native[k], ws, n, dead, k, CatalogRows(env, native, ws, dead)[k]);
    DisplayIsShown(env, ws[i].name, 120);
    DisplayIsShown(env, ws[i].work, 2000);
    NonBlankIs(DisplayText(env, ws[i].work, 2000));
  }

  lemma NonBlankIs(s: string)
    ensures NonBlank(s) == if Text.AllSpace(s) then None else Some(s)
  {
    Text.BlankIsAllSpace(s);
  }

  lemma ShownAs(env: Env, native: Session, ws: seq<WrapperRow>, n: nat, dead: set<string>, k: string, row: Session)
    requires n <= |ws| && (forall i :: 0 <= i < n ==> ws[i].Row?) && Shown(env, native, ws, n, dead, k, row)
    ensures var i := FirstLink(env, native, ws, n, k);
            i < n ==> (row.wrapperRun == Some(ws[i].run) && row.name == DisplayText(env, ws[i].name, 120)
                       && row.work == NonBlank(DisplayText(env, ws[i].work, 2000)))
  {
    hide Busy, FirstLink, DisplayText, NonBlank;
  }

  // ----- runs without a conversation -----

  /** The run has no conversation, or is one of Antigravity, which has no store here. */
  predicate HasNoStore(w: WrapperRow) {
    w.Row? && (w.native.None? || w.identity == "antigravity_kaira")
  }

  predicate OnlyRun(ws: seq<WrapperRow>, i: nat)
    requires i < |ws|
  {
    ws[i].Row? && forall j :: 0 <= j < |ws| && j != i && ws[j].Row? ==> ws[j].run != ws[i].run
  }

  lemma WrapperKeyApart(w: WrapperRow, run: string)
    requires w.Row? && PlainIdentity(w)
    ensures RowKey(w) != Some("wrapper:" + run)
    ensures w.run != run ==> "wrapper:" + w.run != "wrapper:" + run
  {
    hide AgentOf;
    PlainAgent(w.identity);
    if w.native.Some? {
      SameSplit(AgentOf(w.identity), w.native.value, "wrapper", run);
      assert "wrapper" + ":" + run == "wrapper:" + run;
    }
    assert ("wrapper:" + w.run)[8..] == w.run && ("wrapper:" + run)[8..] == run;
  }

  lemma PlainAgent(identity: string)
    requires ':' !in identity && identity != "wrapper"
    ensures ':' !in AgentOf(identity) && AgentOf(identity) != "wrapper" && ':' !in "wrapper"
  {
  }

  lemma NoStoreKey(native: map<string, Session>, env: Env, w: WrapperRow)
    requires NativeRows(env, native) && HasNoStore(w)
    ensures RowKey(w).None? || (RowKey(w).value !in native && !("wrapper:" <= RowKey(w).value))
  {
    hide AllIdChars;
    if w.native.Some? {
      AntigravityIs();
      var k := "agy" + ":" + w.native.value;
      assert RowKey(w) == Some(k);
      assert k[0] == 'a';
      if k in native { NativeKeyStart(env, native, k); }
    }
  }

  lemma NativeKeyStart(env: Env, native: map<string, Session>, k: string)
    requires NativeRows(env, native) && k in native
    ensures k != "" && (k[0] == 'c' || k[0] == 'o')
  {
    hide AllIdChars;
    assert k[0] == native[k].agent[0];
  }

  lemma {:induction false} UnlinkedKept(env: Env, native: map<string, Session>, ws: seq<WrapperRow>, dead: set<string>,
                                        i: nat, n: nat)
    requires NativeRows(env, native) && PlainIdentities(ws) && i < n <= ReadCount(ws) && HasNoStore(ws[i]) && OnlyRun(ws, i)
    ensures var k, rows := "wrapper:" + ws[i].run, Merge(env, native, ws, n, dead);
            k in rows && rows[k] == WrapperOnly(env, ws[i])
    decreases n
  {
    hide Merge, ReadCount, NativeRows, WrapperOnly, RowKey, Linked, PlainIdentity, HasNoStore;
    MergeNext(env, native, ws, n, dead);
    assert PlainIdentity(ws[n - 1]);
    WrapperKeyApart(ws[n - 1], ws[i].run);
    if n - 1 == i {
      NoStoreKey(native, env, ws[i]);
      NewKeysAreWrappers(env, native, ws, dead, i, RowKey(ws[i]));
    } else {
      UnlinkedKept(env, native, ws, dead, i, n - 1);
    }
  }

  lemma {:induction false} NewKeysAreWrappers(env: Env, native: map<string, Session>, ws: seq<WrapperRow>,
                                              dead: set<string>, n: nat, key: Option<string>)
    requires n <= ReadCount(ws) && (key.None? || (key.value !in native && !("wrapper:" <= key.value)))
    ensures key.None? || key.value !in Merge(env, native, ws, n, dead)
    decreases n
  {
    hide ReadCount, WrapperOnly, RowKey, Linked, Merge;
    if n == 0 {
      MergeNothing(env, native, ws, dead);
    } else {
      NewKeysAreWrappers(env, native, ws, dead, n - 1, key);
      MergeNext(env, native, ws, n, dead);
    }
  }

  /** A run without a conversation in a store is catalogued under its own key, and not offered. */
  lemma UnlinkedWrittenOut(env: Env, native: map<string, Session>, ws: seq<WrapperRow>, dead: set<string>, i: nat)
    requires NativeRows(env, native) && PlainIdentities(ws) && Reached(ws, i) && HasNoStore(ws[i]) && OnlyRun(ws, i)
    ensures var k, rows := "wrapper:" + ws[i].run, CatalogRows(env, native, ws, dead);
            k in rows &&
            var row := rows[k];
            && row.key == k && row.nativeId == ws[i].native && row.projectPath == ws[i].cwd
            && row.wrapperRun == Some(ws[i].run) && row.updatedAt == (if ws[i].started.Some? then ws[i].started.value else "")
            && row.availability == "native_conversation_unavailable" && !row.resumable
            && ShownText(env, row.name, ws[i].name, 120) && row.work.Some? && ShownText(env, row.work.value, ws[i].work, 2000)
            && (ws[i].identity == "antigravity_kaira" ==> row.agent == "agy")
            && (forall agent :: IsStore(agent) ==> (row.agent == agent <==> ws[i].identity in {agent, agent + "_kaira"}))
  {
    hide ReadCount, NativeRows, DisplayText, ShownText, PlainIdentity, OnlyRun, Merge, AgentOf;
    ReachedIsRead(ws, i);
    UnlinkedKept(env, native, ws, dead, i, ReadCount(ws));
    DisplayIsShown(env, ws[i].name, 120);
    DisplayIsShown(env, ws[i].work, 2000);
    AntigravityIs();
    forall agent | IsStore(agent) ensures AgentOf(ws[i].identity) == agent <==> ws[i].identity in {agent, agent + "_kaira"} {
      assert PlainIdentity(ws[i]);
      AgentIs(ws[i].identity, agent);
    }
  }

  lemma AntigravityIs()
    ensures AgentOf("antigravity_kaira") == "agy"
  {
  }

  // ----- the plan -----

  /** The arguments that continue the conversation. */
  predicate Continue(args: seq<string>, agent: string, id: string) {
    |args| == 2 && args[1] == id
    && args[0] == if agent == "claude" then "--resume" else if agent == "codex" then "resume" else "--session"
  }

  lemma PlannedArgs(env: Env, sessions: seq<Session>, key: string)
    requires MakePlan(env, sessions, key).Planned?
    ensures var p := MakePlan(env, sessions, key).plan; IsStore(p.agent) && Continue(p.args, p.agent, p.nativeId)
  {
    hide Filter, ValidNativeId;
  }

  /** What a plan says, in terms of the one session that answers to the key by its own key, its
      conversation or its run. */
  lemma PlanWrittenOut(env: Env, rows: map<string, Session>, sessions: seq<Session>, key: string)
    requires Lists(rows, sessions) && MakePlan(env, sessions, key).Planned?
    ensures var p := MakePlan(env, sessions, key).plan;
            IsStore(p.agent) && Continue(p.args, p.agent, p.nativeId) &&
            exists k :: AnswersAlone(rows, key, k)
              && rows[k].resumable && rows[k].nativeId == Some(p.nativeId) && p.agent == rows[k].agent
              && p.projectPath == rows[k].projectPath && p.name == rows[k].name && p.work == rows[k].work
  {
    PlannedArgs(env, sessions, key);
    hide Filter, ValidNativeId, Lists, Continue;
    var k := OneMatch(rows, sessions, key);
    assert AnswersAlone(rows, key, k);
  }

  predicate AnswersTo(s: Session, key: string) {
    key == s.key || Some(key) == s.nativeId || Some(key) == s.wrapperRun
  }

  ghost predicate AnswersAlone(rows: map<string, Session>, key: string, k: string) {
    k in rows && AnswersTo(rows[k], key) && forall j :: j in rows && AnswersTo(rows[j], key) ==> j == k
  }

  // ----- arguments that name a conversation -----

  predicate IsFlag(agent: string, flag: string) {
    (agent == "claude" && flag in {"--resume", "-r", "--session-id"})
    || (agent == "opencode" && flag in {"--session", "-s"})
  }

  /** The n-th argument is one of the agent's flags with the id behind it. */
  ghost predicate GivesAt(agent: string, extra: seq<string>, n: nat, id: string) {
    n < |extra| && exists flag :: IsFlag(agent, flag) && GivenBy(extra, n, flag, id)
  }

  predicate GivenBy(extra: seq<string>, n: nat, flag: string, id: string)
    requires n < |extra|
  {
    (extra[n] == flag && n + 1 < |extra| && extra[n + 1] == id) || extra[n] == flag + "=" + id
  }

  lemma FlagsAre(agent: string, flag: string)
    ensures IsFlag(agent, flag) <==> flag in SessionFlags(agent)
  {
  }

  lemma GivenUnfolded(extra: seq<string>, n: nat, flag: string, id: string)
    requires n < |extra|
    ensures GivenBy(extra, n, flag, id) <==>
      ((extra[n] == flag && n + 1 < |extra| && extra[n + 1] == id)
       || (flag + "=" <= extra[n] && extra[n][|flag| + 1..] == id))
  {
    if extra[n] == flag + "=" + id { assert extra[n][..|flag| + 1] == flag + "="; }
    if flag + "=" <= extra[n] && extra[n][|flag| + 1..] == id {
      assert extra[n] == extra[n][..|flag| + 1] + id;
    }
  }

  /** If an id is given by a flag, it is what the search by the flags finds at that argument. */
  lemma {:induction false} FoundByFlags(extra: seq<string>, n: nat, flags: seq<string>, id: string)
    requires n < |extra| && IdByFlags(extra, n, flags) == Some(id)
    ensures exists i :: 0 <= i < |flags| && GivenBy(extra, n, flags[i], id)
    decreases |flags|
  {
    if flags != [] {
      GivenUnfolded(extra, n, flags[0], id);
      if !GivenBy(extra, n, flags[0], id) {
        FoundByFlags(extra, n, flags[1..], id);
        var i :| 0 <= i < |flags[1..]| && GivenBy(extra, n, flags[1..][i], id);
        assert GivenBy(extra, n, flags[i + 1], id);
      }
    }
  }

  lemma {:induction false} NotFoundByFlags(extra: seq<string>, n: nat, flags: seq<string>, i: nat, id: string)
    requires n < |extra| && i < |flags| && GivenBy(extra, n, flags[i], id)
    ensures IdByFlags(extra, n, flags).Some?
    decreases |flags|
  {
    GivenUnfolded(extra, n, flags[i], id);
    if i > 0 { NotFoundByFlags(extra, n, flags[1..], i - 1, id); }
  }

  ghost predicate NoneGives(agent: string, extra: seq<string>, from: nat, to: nat) {
    forall j: nat, id :: from <= j < to ==> !GivesAt(agent, extra, j, id)
  }

  /** The first argument that names a conversation by one of the flags. */
  lemma {:induction false} FirstIdGiven(agent: string, extra: seq<string>, n: nat, id: string)
    requires n <= |extra| && FirstId(extra, n, SessionFlags(agent)) == Some(id)
    ensures exists m :: n <= m < |extra| && GivesAt(agent, extra, m, id) && NoneGives(agent, extra, n, m)
    decreases |extra| - n
  {
    hide IsFlag, IdByFlags, SessionFlags;
    var flags := SessionFlags(agent);
    if IdByFlags(extra, n, flags).Some? {
      FoundByFlags(extra, n, flags, id);
      var i :| 0 <= i < |flags| && GivenBy(extra, n, flags[i], id);
      FlagsAre(agent, flags[i]);
      assert GivesAt(agent, extra, n, id);
    } else {
      FirstIdGiven(agent, extra, n + 1, id);
      NotGivenHere(agent, extra, n);
    }
  }

  lemma NotGivenHere(agent: string, extra: seq<string>, n: nat)
    requires n < |extra| && IdByFlags(extra, n, SessionFlags(agent)).None?
    ensures forall other :: !GivesAt(agent, extra, n, other)
  {
    hide IsFlag, IdByFlags, SessionFlags, GivenBy;
    var flags := SessionFlags(agent);
    forall other, flag | IsFlag(agent, flag) && GivenBy(extra, n, flag, other) ensures false {
      FlagsAre(agent, flag);
      var i :| 0 <= i < |flags| && flags[i] == flag;
      NotFoundByFlags(extra, n, flags, i, other);
    }
  }

  lemma {:induction false} NoIdGiven(agent: string, extra: seq<string>, n: nat)
    requires n <= |extra| && FirstId(extra, n, SessionFlags(agent)).None?
    ensures NoneGives(agent, extra, n, |extra|)
    decreases |extra| - n
  {
    hide IsFlag, IdByFlags, SessionFlags, GivesAt;
    if n < |extra| {
      NotGivenHere(agent, extra, n);
      NoIdGiven(agent, extra, n + 1);
    }
  }

  /** The arguments name the conversation: for Codex behind a leading "resume", for the others by the
      first argument that does so by one of the agent's flags. */
  ghost predicate GivesId(agent: string, extra: seq<string>, id: string) {
    if agent == "codex" then |extra| > 1 && extra[0] == "resume" && extra[1] == id
    else exists m :: 0 <= m < |extra| && GivesAt(agent, extra, m, id) && NoneGives(agent, extra, 0, m)
  }

  lemma GivenIsExplicit(agent: string, extra: seq<string>, id: string)
    requires ExplicitId(agent, extra) == Some(id)
    ensures GivesId(agent, extra, id)
  {
    hide IsFlag, IdByFlags, GivesAt;
    if agent == "codex" {
      CodexHasNoFlags(extra);
    } else {
      FirstIdGiven(agent, extra, 0, id);
    }
  }

  lemma CodexHasNoFlags(extra: seq<string>)
    ensures FirstId(extra, 0, SessionFlags("codex")).None?
  {
    NoFlagsNoId(extra, 0);
  }

  lemma {:induction false} NoFlagsNoId(extra: seq<string>, n: nat)
    requires n <= |extra|
    ensures FirstId(extra, n, []).None?
    decreases |extra| - n
  {
    if n < |extra| { NoFlagsNoId(extra, n + 1); }
  }

  lemma NoneExplicit(agent: string, extra: seq<string>)
    requires ExplicitId(agent, extra).None?
    ensures forall id :: !GivesId(agent, extra, id)
  {
    hide IsFlag, IdByFlags, GivesAt, SessionFlags;
    if !(agent == "codex" && extra != [] && extra[0] == "resume") { NoIdGiven(agent, extra, 0); }
  }

  // ----- the checkpoint -----

  lemma FlagsArePlain(agent: string, flag: string)
    requires IsFlag(agent, flag)
    ensures '=' !in flag
  {
  }

  lemma SameAtEquals(f: string, x: string, g: string, y: string)
    requires '=' !in f && '=' !in g
    ensures f + "=" + x == g + "=" + y ==> x == y
    ensures f != g + "=" + y
  {
    assert (g + "=" + y)[|g|] == '=';
    if f + "=" + x == g + "=" + y {
      hide FirstIndex;
      assert f + ("=" + x) == g + ("=" + y) by { assert f + "=" + x == f + ("=" + x) && g + "=" + y == g + ("=" + y); }
      SamePrefix(Is('='), f, "=" + x, g, "=" + y);
      assert ("=" + x)[1..] == x && ("=" + y)[1..] == y;
    }
  }

  lemma GivesOne(agent: string, extra: seq<string>, m: nat, a: string, b: string)
    requires GivesAt(agent, extra, m, a) && GivesAt(agent, extra, m, b)
    ensures a == b
  {
    hide IsFlag;
    var f :| IsFlag(agent, f) && GivenBy(extra, m, f, a);
    var g :| IsFlag(agent, g) && GivenBy(extra, m, g, b);
    FlagsArePlain(agent, f);
    FlagsArePlain(agent, g);
    SameAtEquals(f, a, g, b);
    SameAtEquals(g, b, f, a);
  }

  lemma OneGiven(agent: string, extra: seq<string>, a: string, b: string)
    requires GivesId(agent, extra, a) && GivesId(agent, extra, b)
    ensures a == b
  {
    hide GivesAt;
    if agent != "codex" {
      var m :| 0 <= m < |extra| && GivesAt(agent, extra, m, a) && NoneGives(agent, extra, 0, m);
      var n :| 0 <= n < |extra| && GivesAt(agent, extra, n, b) && NoneGives(agent, extra, 0, n);
      assert m <= n && n <= m;
      GivesOne(agent, extra, m, a, b);
    }
  }

  predicate ForgetsHistory(extra: seq<string>) {
    "--fork-session" in extra || "--no-session-persistence" in extra
  }

  /** The argument makes Claude go on with some conversation. */
  ghost predicate GoesOn(arg: string) {
    arg == "--continue" || arg == "-c" || exists flag, rest :: IsFlag("claude", flag) && GoesOnBy(arg, flag, rest)
  }

  predicate GoesOnBy(arg: string, flag: string, rest: string) {
    arg == flag || arg == flag + "=" + rest
  }

  lemma GoesOnByIs(arg: string, flag: string, rest: string)
    ensures GoesOnBy(arg, flag, rest) ==> arg == flag || flag + "=" <= arg
    ensures arg == flag ==> GoesOnBy(arg, flag, rest)
    ensures flag + "=" <= arg ==> GoesOnBy(arg, flag, arg[|flag| + 1..])
  {
    assert (flag + "=" + rest)[..|flag| + 1] == flag + "=";
    if flag + "=" <= arg { assert arg == arg[..|flag| + 1] + arg[|flag| + 1..]; }
  }

  lemma GoesOnIs(arg: string)
    ensures GoesOn(arg) <==> Continues(arg, SessionFlags("claude"))
  {
    hide IsFlag, SessionFlags, GoesOnBy;
    var flags := SessionFlags("claude");
    if Continues(arg, flags) && arg != "--continue" && arg != "-c" {
      var i :| 0 <= i < |flags| && (arg == flags[i] || flags[i] + "=" <= arg);
      FlagsAre("claude", flags[i]);
      var rest := if arg == flags[i] then "" else arg[|flags[i]| + 1..];
      GoesOnByIs(arg, flags[i], rest);
      assert GoesOnBy(arg, flags[i], rest);
    }
    if flag, rest :| IsFlag("claude", flag) && GoesOnBy(arg, flag, rest) {
      FlagsAre("claude", flag);
      var i :| 0 <= i < |flags| && flags[i] == flag;
      GoesOnByIs(arg, flag, rest);
    }
  }

  ghost predicate SomeGoesOn(extra: seq<string>) {
    exists i :: 0 <= i < |extra| && GoesOn(extra[i])
  }

  lemma SomeGoesOnIs(extra: seq<string>)
    ensures SomeGoesOn(extra) <==> exists i :: 0 <= i < |extra| && Continues(extra[i], SessionFlags("claude"))
  {
    hide GoesOn, Continues, SessionFlags;
    forall i | 0 <= i < |extra| ensures GoesOn(extra[i]) <==> Continues(extra[i], SessionFlags("claude")) {
      GoesOnIs(extra[i]);
    }
  }

  lemma ForgetsIs(extra: seq<string>)
    ensures ForgetsHistory(extra) <==> exists i :: 0 <= i < |extra| && KeepsNoHistory(extra[i])
  {
    if ForgetsHistory(extra) {
      var i :| 0 <= i < |extra| && (extra[i] == "--fork-session" || extra[i] == "--no-session-persistence");
      assert KeepsNoHistory(extra[i]);
    }
    if i :| 0 <= i < |extra| && KeepsNoHistory(extra[i]) { assert extra[i] in extra; }
  }

  /** What a launch registers: nothing if no history is kept; else the conversation that the arguments
      name, if its id is valid; else, for Claude alone and if it does not go on with another one, a
      new conversation whose id is put in front. */
  lemma CheckpointWrittenOut(env: Env, name: string, extra: seq<string>, unused: string)
    ensures var agent, r := AsciiLower(name), PrepareCheckpoint(env, name, extra, unused);
            && (ForgetsHistory(extra) ==> r == (None, extra))
            && (forall id :: !ForgetsHistory(extra) && GivesId(agent, extra, id) && ValidNativeId(env, agent, id) ==>
                  r == (Some(id), extra))
            && (!ForgetsHistory(extra) && (forall id :: GivesId(agent, extra, id) ==> !ValidNativeId(env, agent, id)) ==>
                  r == if agent == "claude" && !SomeGoesOn(extra) then (Some(unused), ["--session-id", unused] + extra)
                       else (None, extra))
  {
    hide ValidNativeId, ExplicitId, GivesId, SessionFlags, AsciiLower, KeepsNoHistory, Continues, ForgetsHistory, SomeGoesOn;
    var agent := AsciiLower(name);
    ForgetsIs(extra);
    SomeGoesOnIs(extra);
    var explicit := ExplicitId(agent, extra);
    if explicit.Some? {
      GivenIsExplicit(agent, extra, explicit.value);
      forall id | GivesId(agent, extra, id) ensures id == explicit.value { OneGiven(agent, extra, id, explicit.value); }
    } else {
      NoneExplicit(agent, extra);
    }
  }
}
