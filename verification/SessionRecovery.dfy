/** session_recovery.rs: the catalogue of saved conversations, the plan to resume one, and the
    launch-time checkpoint that must name the same conversation. */
module SessionRecovery {
  import opened Seqs
  import Text
  import opened Words
  import Live = WrapperLiveness

  const FILE_LIMIT := 20_000

  datatype Session = Session(key: string, agent: string, nativeId: Option<string>, projectPath: string, name: string,
                             work: Option<string>, updatedAt: string, wrapperRun: Option<string>,
                             availability: string, resumable: bool)

  /** What lies outside the model: UUID parsing, the file system, secret redaction. */
  datatype Env = Env(isUuid: string -> bool, isDir: string -> bool, canonical: string -> Option<string>,
                     redact: string -> string)

  /** Texts that parse as a UUID are not empty and do not look like an option. */
  ghost predicate SaneUuids(env: Env) {
    forall id :: env.isUuid(id) ==> id != "" && id[0] != '-'
  }

  // ----- rows from the native stores -----

  predicate IsControl(c: char) {
    c as int < 32 || 127 <= c as int <= 159
  }

  predicate NotControl(c: char) {
    !IsControl(c)
  }

  function Take(s: string, n: nat): string {
    if |s| <= n then s else s[..n]
  }

  function DisplayText(env: Env, text: string, limit: nat): string {
    Take(Filter(NotControl, env.redact(text)), limit)
  }

  predicate IsIdChar(c: char) {
    'A' <= c <= 'Z' || 'a' <= c <= 'z' || '0' <= c <= '9' || c == '_'
  }

  predicate AllIdChars(s: string) {
    forall i :: 0 <= i < |s| ==> IsIdChar(s[i])
  }

  predicate ValidNativeId(env: Env, agent: string, id: string) {
    if agent == "codex" || agent == "claude" then env.isUuid(id)
    else agent == "opencode" && "ses_" <= id && 4 < |id| <= 128 && AllIdChars(id)
  }

  function KeyOf(agent: string, id: string): string {
    agent + ":" + id
  }

  /** One conversation found in a native store. */
  datatype Found = Found(agent: string, id: string, cwd: string, name: string, updated: string)

  function NativeRow(env: Env, f: Found): Option<Session> {
    if !ValidNativeId(env, f.agent, f.id) || !("/" <= f.cwd) || !HasNone(IsControl, f.cwd) then None
    else
      var title := DisplayText(env, f.name, 120);
      Some(Session(KeyOf(f.agent, f.id), f.agent, Some(f.id), f.cwd,
                   if Text.Blank(title) then f.agent + " " + Take(f.id, 8) else title,
                   None, f.updated, None, if env.isDir(f.cwd) then "saved" else "project_missing", env.isDir(f.cwd)))
  }

  /** A row that stands for a conversation in a native store. */
  predicate IsNative(env: Env, row: Session) {
    row.nativeId.Some? && row.key == KeyOf(row.agent, row.nativeId.value)
    && ValidNativeId(env, row.agent, row.nativeId.value) && (row.resumable ==> env.isDir(row.projectPath))
  }

  predicate NativeRows(env: Env, rows: map<string, Session>) {
    forall k :: k in rows ==>
      && rows[k].key == k && IsNative(env, rows[k]) && rows[k].wrapperRun.None?
      && rows[k].resumable == env.isDir(rows[k].projectPath)
  }

  lemma NativeRowIsNative(env: Env, f: Found)
    requires NativeRow(env, f).Some?
    ensures var row := NativeRow(env, f).value;
            IsNative(env, row) && row.wrapperRun.None? && row.resumable == env.isDir(row.projectPath)
  {
  }

  predicate HasKey(env: Env, f: Found, key: string) {
    NativeRow(env, f).Some? && NativeRow(env, f).value.key == key
  }

  /** Of the first n finds, the i-th gives the row of its conversation: in OpenCode's database the
      last one with the key counts, elsewhere the first. */
  predicate Wins(env: Env, found: seq<Found>, n: nat, i: nat, key: string)
    requires n <= |found|
  {
    i < n && HasKey(env, found[i], key) &&
    forall j :: 0 <= j < n && HasKey(env, found[j], key) ==>
      if found[i].agent == "opencode" then j <= i else i <= j
  }

  /** The row of a conversation is that of the winning find, with what Codex's index says of it. */
  predicate WonBy(env: Env, found: seq<Found>, index: seq<IndexLine>, n: nat, i: nat, key: string, row: Session)
    requires n <= |found|
  {
    Wins(env, found, n, i, key) && NativeRow(env, found[i]).Some?
    && row == Renamed(env, NativeRow(env, found[i]).value, index)
  }

  ghost predicate Won(env: Env, found: seq<Found>, index: seq<IndexLine>, n: nat, key: string, row: Session)
    requires n <= |found|
  {
    exists i: nat :: WonBy(env, found, index, n, i, key, row)
  }

  // ----- names from Codex's index -----

  /** A line of the index: its id, name and time, as far as they are there and are texts. */
  datatype IndexLine = IndexLine(id: Option<string>, threadName: Option<string>, updatedAt: Option<string>)

  predicate Concerns(e: IndexLine, key: string) {
    e.id.Some? && KeyOf("codex", e.id.value) == key
  }

  /** The line gives the conversation a name that is not blank. */
  predicate Names(env: Env, e: IndexLine, key: string) {
    Concerns(e, key) && e.threadName.Some? && !Text.Blank(DisplayText(env, e.threadName.value, 120))
  }

  predicate Dates(e: IndexLine, key: string) {
    Concerns(e, key) && e.updatedAt.Some?
  }

  function Apply(env: Env, row: Session, e: IndexLine): Session {
    var named := if Names(env, e, row.key) then row.(name := DisplayText(env, e.threadName.value, 120)) else row;
    if Dates(e, row.key) then named.(updatedAt := e.updatedAt.value) else named
  }

  /** The row after the lines of the index, one after the other. */
  function Renamed(env: Env, row: Session, index: seq<IndexLine>): Session {
    if index == [] then row else Apply(env, Renamed(env, row, index[..|index| - 1]), index[|index| - 1])
  }

  lemma ApplyKeeps(env: Env, row: Session, e: IndexLine)
    ensures Apply(env, row, e) == row.(name := Apply(env, row, e).name, updatedAt := Apply(env, row, e).updatedAt)
    ensures !Concerns(e, row.key) ==> Apply(env, row, e) == row
  {
    hide Concerns, DisplayText;
  }

  lemma RenamedNext(env: Env, row: Session, index: seq<IndexLine>, m: nat)
    requires m < |index|
    ensures Renamed(env, row, index[..m + 1]) == Apply(env, Renamed(env, row, index[..m]), index[m])
  {
    hide Apply;
    assert index[..m + 1][..m] == index[..m];
  }

  predicate NoneNames(env: Env, index: seq<IndexLine>, from: nat, key: string)
    requires from <= |index|
  {
    forall j :: from <= j < |index| ==> !Names(env, index[j], key)
  }

  predicate NoneDates(index: seq<IndexLine>, from: nat, key: string)
    requires from <= |index|
  {
    forall j :: from <= j < |index| ==> !Dates(index[j], key)
  }

  lemma RenamedStep(env: Env, row: Session, index: seq<IndexLine>)
    requires index != []
    ensures Renamed(env, row, index) == Apply(env, Renamed(env, row, index[..|index| - 1]), index[|index| - 1])
  {
    hide Apply;
  }

  lemma ApplyGives(env: Env, row: Session, e: IndexLine)
    ensures Apply(env, row, e).key == row.key
    ensures Apply(env, row, e).name ==
      if Names(env, e, row.key) then DisplayText(env, e.threadName.value, 120) else row.name
    ensures Apply(env, row, e).updatedAt == if Dates(e, row.key) then e.updatedAt.value else row.updatedAt
  {
    hide Names, Dates, DisplayText;
  }

  lemma NamesFront(env: Env, index: seq<IndexLine>, from: nat, key: string)
    requires from < |index| && NoneNames(env, index, from, key)
    ensures NoneNames(env, index[..|index| - 1], from, key) && !Names(env, index[|index| - 1], key)
  {
    hide Names;
    var front := index[..|index| - 1];
    forall j | from <= j < |front| ensures !Names(env, front[j], key) {
      assert front[j] == index[j];
    }
  }

  lemma DatesFront(index: seq<IndexLine>, from: nat, key: string)
    requires from < |index| && NoneDates(index, from, key)
    ensures NoneDates(index[..|index| - 1], from, key) && !Dates(index[|index| - 1], key)
  {
    hide Dates;
    var front := index[..|index| - 1];
    forall j | from <= j < |front| ensures !Dates(front[j], key) {
      assert front[j] == index[j];
    }
  }

  /** The name is the one that the last line with a name gives, if there is such a line. */
  lemma {:induction false} LastNameCounts(env: Env, row: Session, index: seq<IndexLine>, i: nat)
    requires i <= |index| && NoneNames(env, index, i, row.key)
    ensures i == 0 ==> Renamed(env, row, index).name == row.name
    ensures i > 0 && Names(env, index[i - 1], row.key) ==>
      Renamed(env, row, index).name == DisplayText(env, index[i - 1].threadName.value, 120)
    decreases |index|
  {
    hide *;
    if index == [] {
      RenamedNone(env, row);
    } else {
      var front, e := index[..|index| - 1], index[|index| - 1];
      RenamedStep(env, row, index);
      RenamedKeepsKey(env, row, front);
      ApplyGives(env, Renamed(env, row, front), e);
      if i < |index| {
        NamesFront(env, index, i, row.key);
        LastNameCounts(env, row, front, i);
      }
    }
  }

  lemma RenamedNone(env: Env, row: Session)
    ensures Renamed(env, row, []) == row
  {
  }

  /** The time is the one that the last line with a time gives, if there is such a line. */
  lemma {:induction false} LastTimeCounts(env: Env, row: Session, index: seq<IndexLine>, i: nat)
    requires i <= |index| && NoneDates(index, i, row.key)
    ensures i == 0 ==> Renamed(env, row, index).updatedAt == row.updatedAt
    ensures i > 0 && Dates(index[i - 1], row.key) ==>
      Renamed(env, row, index).updatedAt == index[i - 1].updatedAt.value
    decreases |index|
  {
    hide *;
    if index == [] {
      RenamedNone(env, row);
    } else {
      var front, e := index[..|index| - 1], index[|index| - 1];
      RenamedStep(env, row, index);
      RenamedKeepsKey(env, row, front);
      ApplyGives(env, Renamed(env, row, front), e);
      if i < |index| {
        DatesFront(index, i, row.key);
        LastTimeCounts(env, row, front, i);
      }
    }
  }

  /** Codex's index changes nothing but name and time. */
  lemma {:induction false} RenamedKeepsRest(env: Env, row: Session, index: seq<IndexLine>)
    ensures var r := Renamed(env, row, index); r == row.(name := r.name, updatedAt := r.updatedAt)
    decreases |index|
  {
    hide *;
    if index == [] {
      RenamedNone(env, row);
    } else {
      RenamedStep(env, row, index);
      RenamedKeepsRest(env, row, index[..|index| - 1]);
      ApplyKeeps(env, Renamed(env, row, index[..|index| - 1]), index[|index| - 1]);
    }
  }

  lemma {:induction false} RenamedKeepsKey(env: Env, row: Session, index: seq<IndexLine>)
    ensures Renamed(env, row, index).key == row.key
    ensures (forall e :: e in index ==> !Concerns(e, row.key)) ==> Renamed(env, row, index) == row
    decreases |index|
  {
    hide Apply, Concerns;
    if index != [] {
      var front, e := index[..|index| - 1], index[|index| - 1];
      RenamedKeepsKey(env, row, front);
      ApplyKeeps(env, Renamed(env, row, front), e);
      assert e in index;
    }
  }

  /** Keys of other stores are not in Codex's index. */
  lemma IndexIsCodex(e: IndexLine, agent: string, id: string)
    requires agent in {"codex", "claude", "opencode"} && Concerns(e, KeyOf(agent, id))
    ensures agent == "codex"
  {
    hide KeyOf;
    KeyNamesAgent("codex", e.id.value, agent, id);
  }

  /** One line of the index, applied to the row it is about. */
  function ApplyTo(env: Env, rows: map<string, Session>, e: IndexLine): map<string, Session> {
    if e.id.Some? && KeyOf("codex", e.id.value) in rows then
      var k := KeyOf("codex", e.id.value);
      rows[k := Apply(env, rows[k], e)]
    else rows
  }

  lemma NativeStays(env: Env, row: Session, e: IndexLine)
    ensures IsNative(env, Apply(env, row, e)) <==> IsNative(env, row)
    ensures var r := Apply(env, row, e);
            r.key == row.key && r.wrapperRun == row.wrapperRun && r.projectPath == row.projectPath
            && r.resumable == row.resumable
  {
    hide ValidNativeId, Apply, KeyOf;
    ApplyKeeps(env, row, e);
  }

  lemma ApplyKeepsNative(env: Env, rows: map<string, Session>, e: IndexLine)
    requires NativeRows(env, rows)
    ensures NativeRows(env, ApplyTo(env, rows, e))
    ensures forall k :: k in ApplyTo(env, rows, e) <==> k in rows
    ensures forall k :: k in rows ==> ApplyTo(env, rows, e)[k] == Apply(env, rows[k], e)
  {
    hide IsNative, Apply, KeyOf;
    forall k | k in rows ensures ApplyTo(env, rows, e)[k] == Apply(env, rows[k], e) {
      ApplyKeeps(env, rows[k], e);
    }
    forall k | k in rows ensures IsNative(env, Apply(env, rows[k], e)) {
      NativeStays(env, rows[k], e);
    }
    var after := ApplyTo(env, rows, e);
    forall k | k in after
      ensures after[k].key == k && after[k].wrapperRun.None? && after[k].resumable == env.isDir(after[k].projectPath)
    {
      NativeStays(env, rows[k], e);
    }
  }

  lemma ApplyNext(env: Env, found: seq<Found>, index: seq<IndexLine>, m: nat, n: nat, rows: map<string, Session>)
    requires n <= |found| && m < |index| && NativeRows(env, rows) && Inventoried(env, found, index[..m], n, rows)
    ensures Inventoried(env, found, index[..m + 1], n, ApplyTo(env, rows, index[m]))
  {
    hide NativeRow, Wins, Apply, ApplyTo, NativeRows;
    ApplyKeepsNative(env, rows, index[m]);
    var after := ApplyTo(env, rows, index[m]);
    forall k | k in after ensures Won(env, found, index[..m + 1], n, k, after[k]) {
      var i: nat :| WonBy(env, found, index[..m], n, i, k, rows[k]);
      WinnerHasKey(env, found, n, i, k);
      RenamedNext(env, NativeRow(env, found[i]).value, index, m);
      assert WonBy(env, found, index[..m + 1], n, i, k, after[k]);
    }
  }

  // ----- the inventory -----

  lemma KeyNamesAgent(agent: string, id: string, other: string, otherId: string)
    requires KeyOf(agent, id) == KeyOf(other, otherId)
    requires agent in {"codex", "claude", "opencode"} && other in {"codex", "claude", "opencode"}
    ensures agent == other && id == otherId
  {
    hide FirstIndex;
    assert KeyOf(agent, id) == agent + (":" + id) && KeyOf(other, otherId) == other + (":" + otherId);
    SamePrefix(Is(':'), agent, ":" + id, other, ":" + otherId);
    assert (":" + id)[1..] == id && (":" + otherId)[1..] == otherId;
  }

  lemma SameKeySameAgent(env: Env, f: Found, g: Found, key: string)
    requires HasKey(env, f, key) && HasKey(env, g, key)
    ensures f.agent == g.agent
  {
    hide AllIdChars, DisplayText;
    KeyNamesAgent(f.agent, f.id, g.agent, g.id);
  }

  ghost predicate Inventoried(env: Env, found: seq<Found>, index: seq<IndexLine>, n: nat, rows: map<string, Session>)
    requires n <= |found|
  {
    (forall k :: k in rows ==> Won(env, found, index, n, k, rows[k])) &&
    (forall i :: 0 <= i < n && NativeRow(env, found[i]).Some? ==> NativeRow(env, found[i]).value.key in rows)
  }

  function Store(env: Env, rows: map<string, Session>, f: Found): map<string, Session> {
    match NativeRow(env, f)
    case None => rows
    case Some(row) => if f.agent == "opencode" || row.key !in rows then rows[row.key := row] else rows
  }

  lemma StoreKeepsNative(env: Env, rows: map<string, Session>, f: Found)
    requires NativeRows(env, rows)
    ensures NativeRows(env, Store(env, rows, f))
  {
    hide ValidNativeId, NativeRow, IsNative;
    if NativeRow(env, f).Some? {
      NativeRowIsNative(env, f);
    }
  }

  lemma WinsOn(env: Env, found: seq<Found>, n: nat, i: nat, key: string)
    requires n < |found| && Wins(env, found, n, i, key)
    requires HasKey(env, found[n], key) ==> found[i].agent != "opencode"
    ensures Wins(env, found, n + 1, i, key)
  {
  }

  lemma NewWins(env: Env, found: seq<Found>, n: nat, key: string)
    requires n < |found| && HasKey(env, found[n], key)
    requires found[n].agent == "opencode" || forall j :: 0 <= j < n ==> !HasKey(env, found[j], key)
    ensures Wins(env, found, n + 1, n, key)
  {
  }

  lemma StoredAsFound(env: Env, f: Found, index: seq<IndexLine>)
    requires NativeRow(env, f).Some? && (index == [] || f.agent == "opencode")
    ensures Renamed(env, NativeRow(env, f).value, index) == NativeRow(env, f).value
  {
    hide Renamed, Concerns, ValidNativeId, DisplayText;
    var row := NativeRow(env, f).value;
    RenamedKeepsKey(env, row, index);
    if f.agent == "opencode" {
      forall e | e in index ensures !Concerns(e, row.key) {
        if Concerns(e, row.key) { IndexIsCodex(e, "opencode", f.id); }
      }
    }
  }

  lemma StoreNext(env: Env, found: seq<Found>, index: seq<IndexLine>, n: nat, rows: map<string, Session>)
    requires n < |found| && Inventoried(env, found, index, n, rows) && (index == [] || found[n].agent == "opencode")
    ensures Inventoried(env, found, index, n + 1, Store(env, rows, found[n]))
  {
    hide NativeRow, Wins, Renamed;
    var after := Store(env, rows, found[n]);
    forall k | k in after
      ensures Won(env, found, index, n + 1, k, after[k])
    {
      if HasKey(env, found[n], k) && (found[n].agent == "opencode" || k !in rows) {
        NewWins(env, found, n, k);
        StoredAsFound(env, found[n], index);
        assert WonBy(env, found, index, n + 1, n, k, after[k]);
      } else {
        var i: nat :| WonBy(env, found, index, n, i, k, rows[k]);
        WinnerHasKey(env, found, n, i, k);
        if HasKey(env, found[n], k) { SameKeySameAgent(env, found[n], found[i], k); }
        WinsOn(env, found, n, i, k);
        assert WonBy(env, found, index, n + 1, i, k, after[k]);
      }
    }
  }

  lemma WinnerHasKey(env: Env, found: seq<Found>, n: nat, i: nat, k: string)
    requires n <= |found| && Wins(env, found, n, i, k)
    ensures i < n && HasKey(env, found[i], k)
  {
  }

  lemma WinsIn(env: Env, found: seq<Found>, more: seq<Found>, n: nat, i: nat, key: string)
    requires n <= |found| && Wins(env, found, n, i, key)
    ensures Wins(env, found + more, n, i, key)
  {
    hide HasKey;
    var all := found + more;
    assert all[i] == found[i];
    forall j | 0 <= j < n && HasKey(env, all[j], key)
      ensures if all[i].agent == "opencode" then j <= i else i <= j
    {
      assert all[j] == found[j];
    }
  }

  lemma FirstPart(env: Env, found: seq<Found>, more: seq<Found>, index: seq<IndexLine>, n: nat, rows: map<string, Session>)
    requires n <= |found| && Inventoried(env, found, index, n, rows)
    ensures Inventoried(env, found + more, index, n, rows)
  {
    hide NativeRow, Renamed, Wins;
    var all := found + more;
    forall k | k in rows ensures Won(env, all, index, n, k, rows[k]) {
      var i: nat :| WonBy(env, found, index, n, i, k, rows[k]);
      WinnerHasKey(env, found, n, i, k);
      WinsIn(env, found, more, n, i, k);
      assert all[i] == found[i];
      assert WonBy(env, all, index, n, i, k, rows[k]);
    }
    forall i | 0 <= i < n && NativeRow(env, all[i]).Some? ensures NativeRow(env, all[i]).value.key in rows {
      assert all[i] == found[i];
    }
  }

  /** Lines of the index that have been applied. */
  method ApplyIndex(env: Env, found: seq<Found>, index: seq<IndexLine>, before: map<string, Session>)
    returns (rows: map<string, Session>)
    requires NativeRows(env, before) && Inventoried(env, found, [], |found|, before)
    ensures NativeRows(env, rows) && Inventoried(env, found, index, |found|, rows)
  {
    hide NativeRows, Inventoried, Apply, DisplayText;
    rows := before;
    assert index[..0] == [];
    for m := 0 to |index|
      invariant NativeRows(env, rows) && Inventoried(env, found, index[..m], |found|, rows)
    {
      ApplyKeepsNative(env, rows, index[m]);
      ApplyNext(env, found, index, m, |found|, rows);
      var e := index[m];
      ghost var next := ApplyTo(env, rows, e);
      if e.id.Some? {
        var k := KeyOf("codex", e.id.value);
        if k in rows {
          KeyOfRow(env, rows, k);
          var row := rows[k];
          if e.threadName.Some? {
            var name := DisplayText(env, e.threadName.value, 120);
            if !Text.Blank(name) { row := row.(name := name); }
          }
          if e.updatedAt.Some? { row := row.(updatedAt := e.updatedAt.value); }
          ApplyIs(env, rows[k], e, k);
          rows := rows[k := row];
        }
      }
      assert rows == next;
    }
    assert index[..|index|] == index;
  }

  lemma KeyOfRow(env: Env, rows: map<string, Session>, k: string)
    requires NativeRows(env, rows) && k in rows
    ensures rows[k].key == k
  {
  }

  lemma ApplyIs(env: Env, row: Session, e: IndexLine, k: string)
    requires e.id.Some? && k == KeyOf("codex", e.id.value) == row.key
    ensures Apply(env, row, e) ==
      row.(name := if e.threadName.Some? && !Text.Blank(DisplayText(env, e.threadName.value, 120))
                   then DisplayText(env, e.threadName.value, 120) else row.name,
      updatedAt := if e.updatedAt.Some? then e.updatedAt.value else row.updatedAt)
  {
    hide DisplayText, Text.Blank;
  }

  /** What was found in one store. */
  datatype Find = Find(id: string, cwd: string, name: string, updated: string)

  function FoundBy(agent: string): Find -> Found {
    (f: Find) => Found(agent, f.id, f.cwd, f.name, f.updated)
  }

  /** The finds of the three stores, each with its store's agent. */
  predicate AreFinds(found: seq<Found>, codex: seq<Find>, claude: seq<Find>, opencode: seq<Find>) {
    |found| == |codex| + |claude| + |opencode| &&
    forall i :: 0 <= i < |found| ==>
      found[i] ==
        if i < |codex| then var f := codex[i]; Found("codex", f.id, f.cwd, f.name, f.updated)
        else if i < |codex| + |claude| then
          var f := claude[i - |codex|]; Found("claude", f.id, f.cwd, f.name, f.updated)
        else var f := opencode[i - |codex| - |claude|]; Found("opencode", f.id, f.cwd, f.name, f.updated)
  }

  lemma FindsAre(codex: seq<Find>, claude: seq<Find>, opencode: seq<Find>)
    ensures AreFinds(Map(FoundBy("codex"), codex) + Map(FoundBy("claude"), claude) + Map(FoundBy("opencode"), opencode),
                     codex, claude, opencode)
  {
  }

  lemma {:induction false} NoneStored(env: Env, found: seq<Found>)
    ensures NativeRows(env, map[]) && Inventoried(env, found, [], 0, map[])
  {
  }

  /** The inventory: transcripts of Codex and Claude, the names of Codex's index, and OpenCode's
      database. */
  method Inventory(env: Env, codex: seq<Find>, claude: seq<Find>, index: seq<IndexLine>, opencode: seq<Find>)
    returns (rows: map<string, Session>)
    ensures NativeRows(env, rows)
    ensures exists found ::
      AreFinds(found, codex, claude, opencode) && Inventoried(env, found, index, |found|, rows)
  {
    hide *;
    FindsAre(codex, claude, opencode);
    var found, last := Map(FoundBy("codex"), codex) + Map(FoundBy("claude"), claude), Map(FoundBy("opencode"), opencode);
    NoneStored(env, found);
    rows := map[];
    for n := 0 to |found|
      invariant NativeRows(env, rows) && Inventoried(env, found, [], n, rows)
    {
      StoreKeepsNative(env, rows, found[n]);
      StoreNext(env, found, [], n, rows);
      rows := Store(env, rows, found[n]);
    }
    rows := ApplyIndex(env, found, index, rows);
    FirstPart(env, found, last, index, |found|, rows);
    var all := found + last;
    for n := |found| to |all|
      invariant NativeRows(env, rows) && Inventoried(env, all, index, n, rows)
    {
      assert all[n] == last[n - |found|];
      StoreKeepsNative(env, rows, all[n]);
      StoreNext(env, all, index, n, rows);
      rows := Store(env, rows, all[n]);
    }
  }

  // ----- the wrapper rows -----

  /** A wrapper run as the query returns it, unless reading it fails. */
  datatype WrapperRow =
    | Unread
    | Row(run: string, identity: string, status: string, name: string, work: string, started: Option<string>,
          cwd: string, native: Option<string>)

  function AgentOf(identity: string): string {
    if identity == "claude_kaira" then "claude"
    else if identity == "codex_kaira" then "codex"
    else if identity == "opencode_kaira" then "opencode"
    else if identity == "antigravity_kaira" then "agy"
    else identity
  }

  /** The native conversation a wrapper row is about. */
  function RowKey(w: WrapperRow): Option<string>
    requires w.Row?
  {
    if w.native.None? then None else Some(KeyOf(AgentOf(w.identity), w.native.value))
  }

  function Canonical(env: Env, path: string): string {
    match env.canonical(path)
    case Some(p) => p
    case None => path
  }

  function NonBlank(s: string): Option<string> {
    if Text.Blank(s) then None else Some(s)
  }

  /** A wrapper row joined to the native row it is about. */
  function Linked(env: Env, row: Session, w: WrapperRow): Session
    requires w.Row?
  {
    if row.wrapperRun.None? && Canonical(env, row.projectPath) == Canonical(env, w.cwd) then
      row.(name := DisplayText(env, w.name, 120), work := NonBlank(DisplayText(env, w.work, 2000)),
      wrapperRun := Some(w.run))
    else row
  }

  predicate Blocks(w: WrapperRow, dead: set<string>)
    requires w.Row?
  {
    w.status == "running" && w.run !in dead
  }

  function Stopped(row: Session): Session {
    row.(availability := "running_or_unverified", resumable := false)
  }

  function WrapperOnly(env: Env, w: WrapperRow): Session
    requires w.Row?
  {
    Session("wrapper:" + w.run, AgentOf(w.identity), w.native, w.cwd, DisplayText(env, w.name, 120),
            Some(DisplayText(env, w.work, 2000)), if w.started.Some? then w.started.value else "", Some(w.run),
            "native_conversation_unavailable", false)
  }

  function MergeOne(env: Env, rows: map<string, Session>, w: WrapperRow, dead: set<string>): map<string, Session>
    requires w.Row?
  {
    if RowKey(w).Some? && RowKey(w).value in rows then
      var k := RowKey(w).value;
      var row := Linked(env, rows[k], w);
      rows[k := if Blocks(w, dead) then Stopped(row) else row]
    else rows["wrapper:" + w.run := WrapperOnly(env, w)]
  }

  /** How many rows are read: up to the limit and up to the first that cannot be read. */
  function ReadCount(ws: seq<WrapperRow>): (n: nat)
    ensures n <= |ws| && n <= FILE_LIMIT
    ensures forall i :: 0 <= i < n ==> ws[i].Row?
    ensures n < |ws| && n < FILE_LIMIT ==> ws[n].Unread?
  {
    var m := FirstIndex((w: WrapperRow) => w.Unread?, ws);
    assert forall i :: 0 <= i < m ==> ws[..m][i] == ws[i];
    if m < FILE_LIMIT then m else FILE_LIMIT
  }

  function Merge(env: Env, rows: map<string, Session>, ws: seq<WrapperRow>, n: nat, dead: set<string>)
    : map<string, Session>
    requires n <= |ws| && forall i :: 0 <= i < n ==> ws[i].Row?
  {
    if n == 0 then rows else MergeOne(env, Merge(env, rows, ws, n - 1, dead), ws[n - 1], dead)
  }

  /** One of the first n rows is about the conversation and is neither finished nor proven dead. */
  predicate Busy(ws: seq<WrapperRow>, n: nat, dead: set<string>, key: string)
    requires n <= |ws| && forall i :: 0 <= i < n ==> ws[i].Row?
  {
    exists i :: 0 <= i < n && RowKey(ws[i]) == Some(key) && Blocks(ws[i], dead)
  }

  /** The merge loop of `catalog`. */
  method MergeLoop(env: Env, native: map<string, Session>, ws: seq<WrapperRow>, dead: set<string>)
    returns (rows: map<string, Session>, warnings: seq<string>)
    ensures rows == Merge(env, native, ws, ReadCount(ws), dead)
    ensures warnings == [] <==> ReadCount(ws) == |ws|
    ensures NativeRows(env, native) && warnings == [] ==>
      forall k :: k in rows && rows[k].resumable ==> !Blocked(ws, dead, k)
  {
    hide Merge, MergeOne, FirstIndex, NativeRows, Blocked;
    if NativeRows(env, native) && ReadCount(ws) == |ws| { NoneOfferedBlocked(env, native, ws, dead); }
    rows, warnings := native, [];
    MergeNothing(env, native, ws, dead);
    var n := 0;
    while n < |ws|
      invariant 0 <= n <= ReadCount(ws) && warnings == []
      invariant rows == Merge(env, native, ws, n, dead)
      decreases |ws| - n
    {
      if n >= FILE_LIMIT {
        warnings := warnings + ["wrapper: inventory limit reached"];
        break;
      }
      if ws[n].Unread? {
        warnings := warnings + ["wrapper: saved launch metadata could not be read"];
        break;
      }
      MergeNext(env, native, ws, n + 1, dead);
      rows := MergeOne(env, rows, ws[n], dead);
      n := n + 1;
    }
  }

  lemma MergeNothing(env: Env, rows: map<string, Session>, ws: seq<WrapperRow>, dead: set<string>)
    ensures Merge(env, rows, ws, 0, dead) == rows
  {
  }

  lemma MergeNext(env: Env, rows: map<string, Session>, ws: seq<WrapperRow>, n: nat, dead: set<string>)
    requires 0 < n <= |ws| && forall i :: 0 <= i < n ==> ws[i].Row?
    ensures Merge(env, rows, ws, n, dead) == MergeOne(env, Merge(env, rows, ws, n - 1, dead), ws[n - 1], dead)
  {
  }

  // ----- which conversations are offered -----

  /** What the rows look like after some wrapper rows are merged: rows are stored under their key;
      a native row keeps its conversation and its place, and is offered exactly if it was and is
      not busy; rows that stand for no native conversation are never offered. */
  ghost predicate Merged(env: Env, native: map<string, Session>, ws: seq<WrapperRow>, n: nat, dead: set<string>,
                         rows: map<string, Session>)
    requires n <= |ws| && forall i :: 0 <= i < n ==> ws[i].Row?
  {
    && (forall k :: k in rows ==> rows[k].key == k)
    && (forall k :: k in native ==>
          && k in rows && rows[k].agent == native[k].agent && rows[k].nativeId == native[k].nativeId
          && rows[k].projectPath == native[k].projectPath
          && rows[k].resumable == (native[k].resumable && !Busy(ws, n, dead, k)))
    && (forall k :: k in rows && k !in native ==> !rows[k].resumable)
  }

  lemma BusyNext(ws: seq<WrapperRow>, n: nat, dead: set<string>, key: string)
    requires n < |ws| && forall i :: 0 <= i < n + 1 ==> ws[i].Row?
    ensures Busy(ws, n + 1, dead, key) <==>
      (Busy(ws, n, dead, key) || (RowKey(ws[n]) == Some(key) && Blocks(ws[n], dead)))
  {
    hide RowKey, Blocks;
  }

  lemma WrapperKeyIsNotNative(env: Env, agent: string, id: string, run: string)
    requires ValidNativeId(env, agent, id)
    ensures KeyOf(agent, id) != "wrapper:" + run
  {
    hide AllIdChars;
    assert KeyOf(agent, id)[0] == agent[0];
    assert ("wrapper:" + run)[0] == 'w';
  }

  lemma MergeOneKeeps(env: Env, native: map<string, Session>, ws: seq<WrapperRow>, n: nat, dead: set<string>,
                      rows: map<string, Session>)
    requires n < |ws| && forall i :: 0 <= i < n + 1 ==> ws[i].Row?
    requires NativeRows(env, native) && Merged(env, native, ws, n, dead, rows)
    ensures Merged(env, native, ws, n + 1, dead, MergeOne(env, rows, ws[n], dead))
  {
    hide DisplayText, Blocks, Busy, KeyOf, ValidNativeId;
    var w := ws[n];
    var after := MergeOne(env, rows, w, dead);
    forall k | k in native
      ensures && k in after && after[k].agent == native[k].agent && after[k].nativeId == native[k].nativeId
              && after[k].projectPath == native[k].projectPath
              && after[k].resumable == (native[k].resumable && !Busy(ws, n + 1, dead, k))
    {
      BusyNext(ws, n, dead, k);
      WrapperKeyIsNotNative(env, native[k].agent, native[k].nativeId.value, w.run);
    }
  }

  lemma {:induction false} MergeKeeps(env: Env, native: map<string, Session>, ws: seq<WrapperRow>, n: nat, dead: set<string>)
    requires n <= |ws| && forall i :: 0 <= i < n ==> ws[i].Row?
    requires NativeRows(env, native)
    ensures Merged(env, native, ws, n, dead, Merge(env, native, ws, n, dead))
  {
    hide MergeOne, Merge, Merged;
    if n == 0 {
      MergeNothing(env, native, ws, dead);
      MergedNothing(env, native, ws, dead);
    } else {
      MergeKeeps(env, native, ws, n - 1, dead);
      MergeNext(env, native, ws, n, dead);
      MergeOneKeeps(env, native, ws, n - 1, dead, Merge(env, native, ws, n - 1, dead));
    }
  }

  lemma MergedNothing(env: Env, native: map<string, Session>, ws: seq<WrapperRow>, dead: set<string>)
    requires NativeRows(env, native)
    ensures Merged(env, native, ws, 0, dead, native)
  {
  }

  /** The rows of the catalogue. */
  function CatalogRows(env: Env, native: map<string, Session>, ws: seq<WrapperRow>, dead: set<string>): map<string, Session> {
    Merge(env, native, ws, ReadCount(ws), dead)
  }

  /** A catalogued conversation is offered exactly if its native store has it, its directory
      exists, and no wrapper row read for it is running and not proven dead. */
  lemma OfferedExactly(env: Env, native: map<string, Session>, ws: seq<WrapperRow>, dead: set<string>, k: string)
    requires NativeRows(env, native) && k in CatalogRows(env, native, ws, dead)
    ensures CatalogRows(env, native, ws, dead)[k].resumable <==>
      (k in native && env.isDir(native[k].projectPath) && !Busy(ws, ReadCount(ws), dead, k))
  {
    hide Merge, Busy, ReadCount, IsNative;
    MergeKeeps(env, native, ws, ReadCount(ws), dead);
  }

  /** A row of the query, read or not, is about the conversation, running and not proven dead. */
  predicate Blocked(ws: seq<WrapperRow>, dead: set<string>, key: string) {
    exists i :: 0 <= i < |ws| && BlockedBy(ws[i], dead, key)
  }

  predicate BlockedBy(w: WrapperRow, dead: set<string>, key: string) {
    w.Row? && RowKey(w) == Some(key) && Blocks(w, dead)
  }

  /** The row that blocks lies behind those that were read. */
  predicate BlockedUnread(ws: seq<WrapperRow>, dead: set<string>, key: string) {
    !Busy(ws, ReadCount(ws), dead, key) && exists i :: ReadCount(ws) <= i < |ws| && BlockedBy(ws[i], dead, key)
  }

  lemma BlockedIsBusy(ws: seq<WrapperRow>, dead: set<string>, key: string)
    ensures Blocked(ws, dead, key) <==> (Busy(ws, ReadCount(ws), dead, key) || BlockedUnread(ws, dead, key))
    ensures ReadCount(ws) == |ws| ==> !BlockedUnread(ws, dead, key)
  {
    hide ReadCount, RowKey, Blocks;
    var n := ReadCount(ws);
    if Busy(ws, n, dead, key) {
      var i :| 0 <= i < n && RowKey(ws[i]) == Some(key) && Blocks(ws[i], dead);
      assert BlockedBy(ws[i], dead, key);
    }
    if i :| 0 <= i < |ws| && BlockedBy(ws[i], dead, key) {
      assert i < n ==> Busy(ws, n, dead, key);
    }
  }

  /** A conversation with a running row that is not proven dead is offered exactly if that row, and
      every other such row of it, lies behind the rows that were read. */
  lemma OfferedThoughBlocked(env: Env, native: map<string, Session>, ws: seq<WrapperRow>, dead: set<string>, k: string)
    requires NativeRows(env, native) && k in CatalogRows(env, native, ws, dead) && Blocked(ws, dead, k)
    ensures CatalogRows(env, native, ws, dead)[k].resumable <==>
      (k in native && env.isDir(native[k].projectPath) && BlockedUnread(ws, dead, k))
  {
    hide *;
    OfferedExactly(env, native, ws, dead, k);
    BlockedIsBusy(ws, dead, k);
    BlockedUnreadIsNotBusy(ws, dead, k);
  }

  lemma BlockedUnreadIsNotBusy(ws: seq<WrapperRow>, dead: set<string>, key: string)
    ensures BlockedUnread(ws, dead, key) ==> !Busy(ws, ReadCount(ws), dead, key)
  {
    hide Busy, ReadCount, BlockedBy;
  }

  /** If all rows were read, no conversation is offered that any row blocks. */
  lemma NoneOfferedBlocked(env: Env, native: map<string, Session>, ws: seq<WrapperRow>, dead: set<string>)
    requires NativeRows(env, native) && ReadCount(ws) == |ws|
    ensures var rows := Merge(env, native, ws, ReadCount(ws), dead);
            forall k :: k in rows && rows[k].resumable ==> !Blocked(ws, dead, k)
  {
    hide Merge, Busy, ReadCount, NativeRows, Blocked, BlockedUnread;
    var rows := Merge(env, native, ws, ReadCount(ws), dead);
    forall k | k in rows && rows[k].resumable ensures !Blocked(ws, dead, k) {
      OfferedExactly(env, native, ws, dead, k);
      BlockedIsBusy(ws, dead, k);
    }
  }

  /** A running row behind one that cannot be read: the conversation is offered. */
  lemma UnreadExample(env: Env)
    requires env.isDir("/p")
    ensures var k := KeyOf("opencode", "ses_1");
            var native := map[k := Session(k, "opencode", Some("ses_1"), "/p", "n", None, "", None, "saved", true)];
            var ws := [Unread, Row("r", "opencode_kaira", "running", "n", "w", None, "/p", Some("ses_1"))];
            NativeRows(env, native) && Blocked(ws, {}, k)
            && k in CatalogRows(env, native, ws, {}) && CatalogRows(env, native, ws, {})[k].resumable
  {
    hide Merge, FirstIndex, KeyOf;
    var k := KeyOf("opencode", "ses_1");
    var native := map[k := Session(k, "opencode", Some("ses_1"), "/p", "n", None, "", None, "saved", true)];
    var ws := [Unread, Row("r", "opencode_kaira", "running", "n", "w", None, "/p", Some("ses_1"))];
    assert BlockedBy(ws[1], {}, k);
    NothingRead(ws);
    MergeNothing(env, native, ws, {});
  }

  lemma NothingRead(ws: seq<WrapperRow>)
    requires ws != [] && ws[0].Unread?
    ensures ReadCount(ws) == 0
  {
  }

  /** What is offered has a valid id, is stored under that id, and has an existing directory. */
  lemma OfferedIsValid(env: Env, native: map<string, Session>, ws: seq<WrapperRow>, dead: set<string>, k: string)
    requires NativeRows(env, native) && k in CatalogRows(env, native, ws, dead)
    requires CatalogRows(env, native, ws, dead)[k].resumable
    ensures IsNative(env, CatalogRows(env, native, ws, dead)[k]) && CatalogRows(env, native, ws, dead)[k].key == k
    ensures env.isDir(CatalogRows(env, native, ws, dead)[k].projectPath)
  {
    hide Merge, Busy, ReadCount, ValidNativeId;
    MergeKeeps(env, native, ws, ReadCount(ws), dead);
  }

  // ----- which wrapper row a conversation is shown with -----

  /** The row is about the conversation and was started in its directory. */
  predicate Links(env: Env, native: Session, w: WrapperRow, k: string)
    requires w.Row?
  {
    RowKey(w) == Some(k) && Canonical(env, native.projectPath) == Canonical(env, w.cwd)
  }

  /** The first of the first n rows that links to the conversation, or n. */
  function FirstLink(env: Env, native: Session, ws: seq<WrapperRow>, n: nat, k: string): (i: nat)
    requires n <= |ws| && forall i :: 0 <= i < n ==> ws[i].Row?
    ensures i <= n && (i < n ==> Links(env, native, ws[i], k))
    ensures forall j :: 0 <= j < i ==> !Links(env, native, ws[j], k)
  {
    if n == 0 then 0
    else
      var i := FirstLink(env, native, ws, n - 1, k);
      if i < n - 1 || Links(env, native, ws[n - 1], k) then i else n
  }

  /** How a conversation is shown after some wrapper rows: as the first linked one describes it,
      or else as its store does; and as running if a row blocks it. */
  ghost predicate Shown(env: Env, native: Session, ws: seq<WrapperRow>, n: nat, dead: set<string>, k: string, row: Session)
    requires n <= |ws| && forall i :: 0 <= i < n ==> ws[i].Row?
  {
    var i := FirstLink(env, native, ws, n, k);
    && row.projectPath == native.projectPath && row.updatedAt == native.updatedAt
    && row.availability == (if Busy(ws, n, dead, k) then "running_or_unverified" else native.availability)
    && (if i < n then
          row.wrapperRun == Some(ws[i].run) && row.name == DisplayText(env, ws[i].name, 120)
          && row.work == NonBlank(DisplayText(env, ws[i].work, 2000))
        else row.wrapperRun.None? && row.name == native.name && row.work == native.work)
  }

  lemma ShownNext(env: Env, native: Session, ws: seq<WrapperRow>, n: nat, dead: set<string>, k: string,
                  rows: map<string, Session>)
    requires n < |ws| && forall i :: 0 <= i < n + 1 ==> ws[i].Row?
    requires k in rows && Shown(env, native, ws, n, dead, k, rows[k]) && k != "wrapper:" + ws[n].run
    ensures var after := MergeOne(env, rows, ws[n], dead);
            k in after && Shown(env, native, ws, n + 1, dead, k, after[k])
  {
    hide DisplayText, NonBlank, RowKey, Canonical, Blocks, Busy;
    BusyNext(ws, n, dead, k);
  }

  lemma ShownFirst(env: Env, native: map<string, Session>, ws: seq<WrapperRow>, dead: set<string>, k: string)
    requires NativeRows(env, native) && k in native
    ensures Shown(env, native[k], ws, 0, dead, k, native[k])
  {
    hide IsNative;
  }

  lemma NativeKeyIsNotWrapper(env: Env, native: map<string, Session>, k: string, run: string)
    requires NativeRows(env, native) && k in native
    ensures k != "wrapper:" + run
  {
    hide ValidNativeId;
    WrapperKeyIsNotNative(env, native[k].agent, native[k].nativeId.value, run);
  }

  lemma {:induction false} ShownAfter(env: Env, native: map<string, Session>, ws: seq<WrapperRow>, n: nat,
                                      dead: set<string>, k: string)
    requires n <= |ws| && forall i :: 0 <= i < n ==> ws[i].Row?
    requires NativeRows(env, native) && k in native
    ensures k in Merge(env, native, ws, n, dead)
    ensures Shown(env, native[k], ws, n, dead, k, Merge(env, native, ws, n, dead)[k])
  {
    hide *;
    if n == 0 {
      MergeNothing(env, native, ws, dead);
      ShownFirst(env, native, ws, dead, k);
    } else {
      ShownAfter(env, native, ws, n - 1, dead, k);
      MergeNext(env, native, ws, n, dead);
      NativeKeyIsNotWrapper(env, native, k, ws[n - 1].run);
      ShownNext(env, native[k], ws, n - 1, dead, k, Merge(env, native, ws, n - 1, dead));
    }
  }

  /** A conversation of a native store is catalogued with the newest wrapper run that was started
      for it in its directory, under that run's name and work. */
  lemma LinkedToFirst(env: Env, native: map<string, Session>, ws: seq<WrapperRow>, dead: set<string>, k: string)
    requires NativeRows(env, native) && k in native
    ensures k in CatalogRows(env, native, ws, dead)
    ensures Shown(env, native[k], ws, ReadCount(ws), dead, k, CatalogRows(env, native, ws, dead)[k])
  {
    hide Merge, ReadCount, Shown, NativeRows;
    ShownAfter(env, native, ws, ReadCount(ws), dead, k);
  }

  /** The runs that a preview without legacy rows found dead. */
  function DeadRuns(cs: seq<Live.Candidate>): set<string> {
    set i | 0 <= i < |cs| :: cs[i].run
  }

  /** No run that is recorded as running a conversation that is offered has anybody left: owner and
      child are gone from the moment of the last probe on. */
  lemma OfferedHasNobodyLeft(env: Env, native: map<string, Session>, ws: seq<WrapperRow>, k: string, i: nat,
                             view: Live.View, world: Live.World, db: Live.Db, order: seq<string>, probes: Live.Env,
                             later: nat)
    requires NativeRows(env, native) && Live.IsListing(db, order)
    requires probes.files == world.files && Live.Truthful(view, world) && 2 * |order| <= later
    requires forall id :: id in db.runs ==> Live.HonestWitnesses(world, probes, db.runs[id])
    requires var dead := DeadRuns(Live.Candidates(view, db, order, false, probes, |order|));
             k in CatalogRows(env, native, ws, dead) && CatalogRows(env, native, ws, dead)[k].resumable
    requires i < ReadCount(ws) && RowKey(ws[i]) == Some(k) && ws[i].status == "running"
    ensures ws[i].run in db.runs && Live.NobodyLeft(view, world, probes, db.runs[ws[i].run], later)
  {
    hide Live.NobodyLeft, Live.Truthful, Live.HonestWitnesses, Live.Candidates, CatalogRows, RowKey;
    var cs := Live.Candidates(view, db, order, false, probes, |order|);
    OfferedExactly(env, native, ws, DeadRuns(cs), k);
    assert ws[i].run in DeadRuns(cs);
    var j :| 0 <= j < |cs| && cs[j].run == ws[i].run;
    Live.CandidatesAreDead(view, world, db, order, false, probes, |order|, j, later);
  }

  // ----- the plan -----

  datatype Plan = Plan(agent: string, nativeId: string, projectPath: string, name: string, work: Option<string>,
                       args: seq<string>)

  datatype Outcome = Planned(plan: Plan) | Refused(message: string)

  predicate Matches(s: Session, key: string) {
    s.key == key || s.nativeId == Some(key) || s.wrapperRun == Some(key)
  }

  function Matching(key: string): Session -> bool {
    s => Matches(s, key)
  }

  function ResumeArgs(agent: string, id: string): Option<seq<string>> {
    if agent == "codex" then Some(["resume", id])
    else if agent == "claude" then Some(["--resume", id])
    else if agent == "opencode" then Some(["--session", id])
    else None
  }

  /** `plan`; the file system may have changed since the catalogue was made. */
  function MakePlan(env: Env, sessions: seq<Session>, key: string): Outcome {
    var found := Filter(Matching(key), sessions);
    if |found| != 1 then Refused("session not found or ambiguous")
    else
      var row := found[0];
      if !row.resumable then Refused("session cannot safely resume")
      else if !env.isDir(row.projectPath) then Refused("saved project directory is missing")
      else if row.nativeId.None? then Refused("missing native conversation ID")
      else if !ValidNativeId(env, row.agent, row.nativeId.value) then Refused("unsupported native session ID")
      else
        match ResumeArgs(row.agent, row.nativeId.value)
        case None => Refused("agent does not support verified native continuation")
        case Some(args) => Planned(Plan(row.agent, row.nativeId.value, row.projectPath, row.name, row.work, args))
  }

  /** The sessions of a catalogue: its rows, each once, in whatever order. */
  ghost predicate Lists(rows: map<string, Session>, sessions: seq<Session>) {
    (forall i :: 0 <= i < |sessions| ==> sessions[i].key in rows && rows[sessions[i].key] == sessions[i]) &&
    (forall i, j :: 0 <= i < j < |sessions| ==> sessions[i].key != sessions[j].key) &&
    (forall k :: k in rows ==> rows[k].key == k && rows[k] in sessions)
  }

  /** The session is the only one that answers to the key. */
  ghost predicate OnlyMatch(rows: map<string, Session>, key: string, k: string) {
    k in rows && Matches(rows[k], key) && forall j :: j in rows && Matches(rows[j], key) ==> j == k
  }

  lemma {:induction false} FilterPicks(p: Session -> bool, s: seq<Session>, i: nat)
    requires i < |s| && p(s[i]) && forall j :: 0 <= j < |s| && p(s[j]) ==> j == i
    ensures Filter(p, s) == [s[i]]
  {
    hide Filter;
    assert s == s[..i] + ([s[i]] + s[i + 1..]);
    FilterAppend(p, s[..i], [s[i]] + s[i + 1..]);
    FilterAppend(p, [s[i]], s[i + 1..]);
    FilterNone(p, s[..i]);
    FilterNone(p, s[i + 1..]);
    FilterAll(p, [s[i]]);
  }

  lemma {:induction false} PickedAlone(p: Session -> bool, s: seq<Session>, i: nat, j: nat)
    requires |Filter(p, s)| == 1 && i < |s| && j < |s| && p(s[i]) && p(s[j])
    ensures i == j
    ensures Filter(p, s)[0] == s[i]
  {
    if i != j {
      var a, b := if i < j then i else j, if i < j then j else i;
      TwoPicked(p, s, a, b);
    }
    assert s[i] in Filter(p, s);
  }

  lemma TwoPicked(p: Session -> bool, s: seq<Session>, i: nat, j: nat)
    requires i < j < |s| && p(s[i]) && p(s[j])
    ensures |Filter(p, s)| >= 2
  {
    hide Filter;
    assert s == s[..j] + s[j..];
    FilterAppend(p, s[..j], s[j..]);
    assert s[..j][i] in Filter(p, s[..j]) && s[j..][0] in Filter(p, s[j..]);
  }

  lemma OneMatch(rows: map<string, Session>, sessions: seq<Session>, key: string) returns (k: string)
    requires Lists(rows, sessions) && |Filter(Matching(key), sessions)| == 1
    ensures OnlyMatch(rows, key, k) && Filter(Matching(key), sessions) == [rows[k]]
  {
    hide Filter, Matches;
    var p := Matching(key);
    var found := Filter(p, sessions);
    assert found[0] in found;
    var i :| 0 <= i < |sessions| && sessions[i] == found[0];
    k := found[0].key;
    forall j | j in rows && Matches(rows[j], key) ensures j == k {
      var n :| 0 <= n < |sessions| && sessions[n] == rows[j];
      PickedAlone(p, sessions, i, n);
      assert sessions[n].key in rows && rows[sessions[n].key] == sessions[n];
    }
  }

  lemma TheMatch(rows: map<string, Session>, sessions: seq<Session>, key: string, k: string)
    requires Lists(rows, sessions) && OnlyMatch(rows, key, k)
    ensures Filter(Matching(key), sessions) == [rows[k]]
  {
    hide Filter, Matches;
    var i :| 0 <= i < |sessions| && sessions[i] == rows[k];
    forall j | 0 <= j < |sessions| && Matching(key)(sessions[j]) ensures j == i {
      assert sessions[j].key == k;
    }
    FilterPicks(Matching(key), sessions, i);
  }

  // ----- the launch-time checkpoint -----

  predicate KeepsNoHistory(arg: string) {
    arg == "--fork-session" || arg == "--no-session-persistence"
  }

  function SessionFlags(agent: string): seq<string> {
    if agent == "claude" then ["--resume", "-r", "--session-id"]
    else if agent == "opencode" then ["--session", "-s"]
    else []
  }

  /** The id that the n-th argument gives by one of the flags: behind an equals sign, or in the
      next argument. */
  function IdByFlags(extra: seq<string>, n: nat, flags: seq<string>): Option<string>
    requires n < |extra|
  {
    if flags == [] then None
    else
      var here :=
        if extra[n] == flags[0] then (if n + 1 < |extra| then Some(extra[n + 1]) else None)
        else if flags[0] + "=" <= extra[n] then Some(extra[n][|flags[0]| + 1..])
        else None;
      if here.Some? then here else IdByFlags(extra, n, flags[1..])
  }

  function FirstId(extra: seq<string>, n: nat, flags: seq<string>): Option<string>
    requires n <= |extra|
    decreases |extra| - n
  {
    if n == |extra| then None
    else if IdByFlags(extra, n, flags).Some? then IdByFlags(extra, n, flags)
    else FirstId(extra, n + 1, flags)
  }

  function ExplicitId(agent: string, extra: seq<string>): Option<string> {
    if agent == "codex" && extra != [] && extra[0] == "resume" then
      (if |extra| > 1 then Some(extra[1]) else None)
    else FirstId(extra, 0, SessionFlags(agent))
  }

  predicate Continues(arg: string, flags: seq<string>) {
    arg == "--continue" || arg == "-c" ||
    exists i :: 0 <= i < |flags| && (arg == flags[i] || flags[i] + "=" <= arg)
  }

  /** `prepare_native_checkpoint`: the id of the conversation to come, and the arguments to start
      the agent with. A new Claude conversation gets the unused id `unused`. */
  function PrepareCheckpoint(env: Env, name: string, extra: seq<string>, unused: string): (Option<string>, seq<string>) {
    var agent := AsciiLower(name);
    if exists i :: 0 <= i < |extra| && KeepsNoHistory(extra[i]) then (None, extra)
    else
      var explicit := ExplicitId(agent, extra);
      if explicit.Some? && ValidNativeId(env, agent, explicit.value) then (explicit, extra)
      else if agent == "claude" then
        if exists i :: 0 <= i < |extra| && Continues(extra[i], SessionFlags(agent)) then (None, extra)
        else (Some(unused), ["--session-id", unused] + extra)
      else (None, extra)
  }

  lemma LowerFixed(s: string)
    requires s in {"codex", "claude", "opencode", "resume"}
    ensures AsciiLower(s) == s
  {
  }

  lemma ValidIdNoOption(env: Env, agent: string, id: string)
    requires SaneUuids(env) && ValidNativeId(env, agent, id)
    ensures id != "" && id[0] != '-' && !KeepsNoHistory(id)
  {
    hide AllIdChars;
    assert "--fork-session"[0] == '-' && "--no-session-persistence"[0] == '-';
  }

  lemma ArgsKeepHistory(agent: string, id: string)
    requires ResumeArgs(agent, id).Some? && !KeepsNoHistory(id)
    ensures var args := ResumeArgs(agent, id).value; forall i :: 0 <= i < |args| ==> !KeepsNoHistory(args[i])
  {
  }

  lemma ArgsName(agent: string, id: string)
    requires ResumeArgs(agent, id).Some?
    ensures ExplicitId(agent, ResumeArgs(agent, id).value) == Some(id)
  {
    var args := ResumeArgs(agent, id).value;
    if agent != "codex" {
      assert IdByFlags(args, 0, SessionFlags(agent)) == Some(id);
    }
  }

  /** Launching what a plan says registers exactly the conversation the plan names, and starts the
      agent with exactly the plan's arguments. */
  lemma CheckpointOfPlan(env: Env, now: Env, sessions: seq<Session>, key: string, unused: string)
    requires SaneUuids(env) && env.isUuid == now.isUuid
    requires MakePlan(now, sessions, key).Planned?
    ensures var p := MakePlan(now, sessions, key).plan;
            PrepareCheckpoint(env, p.agent, p.args, unused) == (Some(p.nativeId), p.args)
  {
    hide AllIdChars, KeepsNoHistory, ExplicitId, Filter, Lower;
    var p := MakePlan(now, sessions, key).plan;
    LowerFixed(p.agent);
    ValidIdNoOption(env, p.agent, p.nativeId);
    ArgsKeepHistory(p.agent, p.nativeId);
    ArgsName(p.agent, p.nativeId);
  }

  lemma NewIdFound(extra: seq<string>, id: string)
    ensures ExplicitId("claude", ["--session-id", id] + extra) == Some(id)
  {
    var args := ["--session-id", id] + extra;
    var flags := SessionFlags("claude");
    assert args[0] == "--session-id" && args[1] == id;
    assert flags[1..] == ["-r", "--session-id"] && flags[1..][1..] == ["--session-id"];
    assert "--resume="[2] == 'r' && "--session-id"[2] == 's';
    assert "-r="[1] == 'r';
    assert IdByFlags(args, 0, flags[1..][1..]) == Some(id);
    assert IdByFlags(args, 0, flags[1..]) == Some(id);
  }

  lemma NoHistoryFlags(extra: seq<string>, id: string)
    requires !(exists i :: 0 <= i < |extra| && KeepsNoHistory(extra[i])) && !KeepsNoHistory(id)
    ensures !(exists i :: 0 <= i < |["--session-id", id] + extra| && KeepsNoHistory((["--session-id", id] + extra)[i]))
  {
    var args := ["--session-id", id] + extra;
    forall i | 0 <= i < |args| ensures !KeepsNoHistory(args[i]) {
      if i >= 2 { assert args[i] == extra[i - 2]; }
    }
  }

  /** Preparing the prepared arguments again gives the same conversation and leaves them alone,
      for every agent name and all arguments; and an id that is given is a valid one. */
  lemma CheckpointIsStable(env: Env, name: string, extra: seq<string>, unused: string, another: string)
    requires SaneUuids(env) && env.isUuid(unused)
    ensures var first := PrepareCheckpoint(env, name, extra, unused);
            && PrepareCheckpoint(env, name, first.1, another) == first
            && (first.0.Some? ==> ValidNativeId(env, AsciiLower(name), first.0.value))
            && (first.1 == extra || (first.1 == ["--session-id", unused] + extra && first.0 == Some(unused)))
  {
    hide AllIdChars, KeepsNoHistory, ExplicitId, Continues, SessionFlags;
    var agent := AsciiLower(name);
    if PrepareCheckpoint(env, name, extra, unused).1 != extra {
      NewIdFound(extra, unused);
      ValidIdNoOption(env, agent, unused);
      NoHistoryFlags(extra, unused);
    }
  }

  // ----- catalogue, plan and checkpoint together -----

  /** The key answers to one session alone, which is offered and whose directory is there now. */
  ghost predicate Resumable(now: Env, rows: map<string, Session>, key: string, k: string) {
    OnlyMatch(rows, key, k) && rows[k].resumable && now.isDir(rows[k].projectPath)
  }

  lemma PlannedIsResumable(now: Env, rows: map<string, Session>, sessions: seq<Session>, key: string)
    returns (k: string)
    requires Lists(rows, sessions) && MakePlan(now, sessions, key).Planned?
    ensures Resumable(now, rows, key, k)
  {
    hide ValidNativeId, Filter, Lists, Matches;
    k := OneMatch(rows, sessions, key);
  }

  lemma ResumableIsPlanned(env: Env, now: Env, native: map<string, Session>, ws: seq<WrapperRow>, dead: set<string>,
                           sessions: seq<Session>, key: string, k: string)
    requires NativeRows(env, native) && Lists(CatalogRows(env, native, ws, dead), sessions)
    requires env.isUuid == now.isUuid && Resumable(now, CatalogRows(env, native, ws, dead), key, k)
    ensures MakePlan(now, sessions, key).Planned?
  {
    hide ValidNativeId, Filter, CatalogRows, Lists, Matches;
    var rows := CatalogRows(env, native, ws, dead);
    TheMatch(rows, sessions, key, k);
    OfferedIsValid(env, native, ws, dead, k);
    MatchIsPlanned(env, now, sessions, key, rows[k]);
  }

  /** A plan is made exactly when one session alone answers to the key, that session is offered,
      and its directory is still there. */
  lemma PlanExactly(env: Env, now: Env, native: map<string, Session>, ws: seq<WrapperRow>, dead: set<string>,
                    sessions: seq<Session>, key: string)
    requires NativeRows(env, native) && Lists(CatalogRows(env, native, ws, dead), sessions)
    requires env.isUuid == now.isUuid
    ensures MakePlan(now, sessions, key).Planned? <==>
      exists k :: Resumable(now, CatalogRows(env, native, ws, dead), key, k)
  {
    hide *;
    var rows := CatalogRows(env, native, ws, dead);
    if MakePlan(now, sessions, key).Planned? {
      var k := PlannedIsResumable(now, rows, sessions, key);
      assert Resumable(now, rows, key, k);
    }
    if k :| Resumable(now, rows, key, k) {
      ResumableIsPlanned(env, now, native, ws, dead, sessions, key, k);
    }
  }

  lemma MatchIsPlanned(env: Env, now: Env, sessions: seq<Session>, key: string, row: Session)
    requires Filter(Matching(key), sessions) == [row] && row.resumable && IsNative(env, row)
    requires env.isUuid == now.isUuid && now.isDir(row.projectPath)
    ensures MakePlan(now, sessions, key).Planned?
  {
    hide AllIdChars, Filter;
  }

  /** The conversation a plan names is one of the native stores, its directory exists, no wrapper
      row read for it is running and not proven dead, and launching the plan names it again. */
  lemma PlanIsSafe(env: Env, now: Env, native: map<string, Session>, ws: seq<WrapperRow>, dead: set<string>,
                   sessions: seq<Session>, key: string, unused: string)
    requires NativeRows(env, native) && Lists(CatalogRows(env, native, ws, dead), sessions)
    requires SaneUuids(env) && env.isUuid == now.isUuid
    requires MakePlan(now, sessions, key).Planned?
    ensures var p := MakePlan(now, sessions, key).plan;
            var k := KeyOf(p.agent, p.nativeId);
            && k in native && p.projectPath == native[k].projectPath && now.isDir(p.projectPath)
            && ValidNativeId(env, p.agent, p.nativeId) && !Busy(ws, ReadCount(ws), dead, k)
            && PrepareCheckpoint(env, p.agent, p.args, unused) == (Some(p.nativeId), p.args)
  {
    hide AllIdChars, Filter, CatalogRows, Lists, OnlyMatch, Busy, ReadCount, PrepareCheckpoint, Matches;
    var rows := CatalogRows(env, native, ws, dead);
    var k := OneMatch(rows, sessions, key);
    InRows(rows, key, k);
    CheckpointOfPlan(env, now, sessions, key, unused);
    OfferedExactly(env, native, ws, dead, k);
    OfferedIsValid(env, native, ws, dead, k);
    SamePlace(env, native, ws, dead, k);
  }

  lemma InRows(rows: map<string, Session>, key: string, k: string)
    requires OnlyMatch(rows, key, k)
    ensures k in rows
  {
  }

  lemma SamePlace(env: Env, native: map<string, Session>, ws: seq<WrapperRow>, dead: set<string>, k: string)
    requires NativeRows(env, native) && k in native
    ensures k in CatalogRows(env, native, ws, dead)
    ensures CatalogRows(env, native, ws, dead)[k].projectPath == native[k].projectPath
  {
    hide Merge, Busy, ReadCount, IsNative;
    MergeKeeps(env, native, ws, ReadCount(ws), dead);
  }
}
