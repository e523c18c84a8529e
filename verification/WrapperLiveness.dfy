/** wrapper_liveness.rs: a wrapper session is closed only when the recorded process identity
    proves that nobody is left to run it. */
module WrapperLiveness {
  import opened Seqs
  import opened Text
  import opened Words

  type u32 = x: int | 0 <= x < 0x1_0000_0000
  type u64 = x: int | 0 <= x < 0x1_0000_0000_0000_0000

  // ----- /proc/<pid>/stat -----

  /** `parse_stat`: start time (field 22) and state (field 3) of the process with the given pid. */
  function ParseStat(body: string, pid: u32): Option<(u64, char)> {
    match RSplitOnce(body, ')')
    case None => None
    case Some(outer) =>
      match SplitOnce(outer.0, '(')
      case None => None
      case Some(inner) =>
        if ParseUnsigned(Trim(inner.0), 0x1_0000_0000) != Some(pid) then None
        else
          var fields := SplitWhitespace(outer.1);
          if |fields| < 20 || fields[0] == "" then None
          else
            match ParseUnsigned(fields[19], 0x1_0000_0000_0000_0000)
            case None => None
            case Some(ticks) =>
              Some((ticks, fields[0][0]))
  }

  /** One line as proc(5) describes it: pid, command name in parentheses, state, eighteen
      fields, start time, and whatever follows. */
  datatype Stat = Stat(pid: u32, comm: string, state: char, between: seq<string>, ticks: u64, rest: seq<string>)

  predicate IsField(w: string) {
    IsWord(w) && ')' !in w
  }

  predicate ValidStat(st: Stat) {
    |st.between| == 18 && !IsSpace(st.state) && st.state != ')' &&
    (forall i :: 0 <= i < |st.between| ==> IsField(st.between[i])) &&
    (forall i :: 0 <= i < |st.rest| ==> IsField(st.rest[i]))
  }

  function StatFields(st: Stat): seq<string> {
    [[st.state]] + st.between + [NatText(st.ticks)] + st.rest
  }

  function StatLine(st: Stat): string {
    NatText(st.pid) + " (" + st.comm + ") " + Join(StatFields(st)) + "\n"
  }

  lemma FieldsAreWords(st: Stat)
    requires ValidStat(st)
    ensures AreWords(StatFields(st)) && |StatFields(st)| >= 20
    ensures StatFields(st)[0] == [st.state] && StatFields(st)[19] == NatText(st.ticks)
  {
    hide NatText, IsWord, IsSpace;
    NatTextIsWord(st.ticks);
    OneCharWord(st.state);
    var fields := StatFields(st);
    forall i | 0 <= i < |fields| ensures IsWord(fields[i]) {
      if 1 <= i < 19 { assert fields[i] == st.between[i - 1]; }
      if 20 <= i { assert fields[i] == st.rest[i - 20]; }
    }
  }

  lemma OneCharWord(c: char)
    requires !IsSpace(c)
    ensures IsWord([c])
  {
  }

  predicate FreeOf(c: char, ws: seq<string>) {
    forall i :: 0 <= i < |ws| ==> c !in ws[i]
  }

  lemma {:induction false} JoinFreeOf(c: char, ws: seq<string>)
    requires FreeOf(c, ws) && c != ' '
    ensures c !in Join(ws)
  {
    if |ws| > 1 { JoinFreeOf(c, ws[1..]); }
  }

  lemma FieldsFree(st: Stat)
    requires ValidStat(st)
    ensures FreeOf(')', StatFields(st))
  {
    hide NatText, IsWord, IsSpace;
    NumeralFree(st.ticks, ')');
    var fields := StatFields(st);
    forall i | 0 <= i < |fields| ensures ')' !in fields[i] {
      if 1 <= i < 19 { assert fields[i] == st.between[i - 1]; }
      if 20 <= i { assert fields[i] == st.rest[i - 20]; }
    }
  }

  lemma NumeralFree(n: nat, c: char)
    requires !IsDigit(c)
    ensures c !in NatText(n)
  {
    hide NatText, Value;
    NatTextValue(n);
    forall i | 0 <= i < |NatText(n)| ensures NatText(n)[i] != c {
      assert IsDigit(NatText(n)[i]);
    }
  }

  lemma PidReads(pid: u32)
    ensures ParseUnsigned(Trim(NatText(pid) + " "), 0x1_0000_0000) == Some(pid)
  {
    hide NatText, Value, ParseUnsigned;
    NatTextIsWord(pid);
    var w := NatText(pid);
    assert !IsSpace(w[0]) && !IsSpace(w[|w| - 1]);
    TrimEndUnique(w, " ");
    TrimStartUnique("", w);
    assert "" + w == w;
    ParseNatText(pid, 0x1_0000_0000);
  }

  lemma StatParts(st: Stat)
    requires ValidStat(st)
    ensures RSplitOnce(StatLine(st), ')') == Some((NatText(st.pid) + " (" + st.comm, " " + Join(StatFields(st)) + "\n"))
    ensures SplitOnce(NatText(st.pid) + " (" + st.comm, '(') == Some((NatText(st.pid) + " ", st.comm))
  {
    hide NatText, Join, RSplitOnce, SplitOnce, IsWord;
    FieldsFree(st);
    JoinFreeOf(')', StatFields(st));
    var a, b := NatText(st.pid) + " (" + st.comm, " " + Join(StatFields(st)) + "\n";
    assert StatLine(st) == a + [')'] + b;
    RSplitOnceOf(a, ')', b);
    NumeralFree(st.pid, '(');
    assert a == NatText(st.pid) + " " + ['('] + st.comm;
    SplitOnceOf(NatText(st.pid) + " ", '(', st.comm);
  }

  lemma FieldsRead(st: Stat)
    requires ValidStat(st)
    ensures SplitWhitespace(" " + Join(StatFields(st)) + "\n") == StatFields(st)
  {
    hide NatText, Join, SplitWhitespace, IsWord, StatFields;
    FieldsAreWords(st);
    SplitJoin(StatFields(st), "\n");
    SpaceFirst(' ', Join(StatFields(st)) + "\n");
    assert [' '] + (Join(StatFields(st)) + "\n") == " " + Join(StatFields(st)) + "\n";
  }

  /** Whatever the command name, parentheses and blanks included, the state and the start time
      of the process are found, and only under its own pid. */
  lemma ParseStatLine(st: Stat, pid: u32)
    requires ValidStat(st)
    ensures ParseStat(StatLine(st), pid) == if pid == st.pid then Some((st.ticks, st.state)) else None
  {
    hide NatText, Join, SplitWhitespace, IsWord, RSplitOnce, SplitOnce, ParseUnsigned, StatLine, Trim, StatFields, ValidStat;
    StatParts(st);
    FieldsRead(st);
    FieldsAreWords(st);
    PidReads(st.pid);
    ParseNatText(st.ticks, 0x1_0000_0000_0000_0000);
  }

  // ----- `ProcessView::state` and `dead_reason` -----

  datatype Identity = Identity(host: string, boot: string, ns: string, pid: u32, ticks: u64)

  datatype View = View(host: string, boot: string, ns: string, bootLocal: Option<int>)

  /** What reading a stat file gives. */
  datatype StatFile = Body(text: string) | NotFound | Unreadable

  datatype ProcessState = Alive | Dead | Unverified

  /** The state of an identity, given what its stat file reads as now. */
  function State(view: View, id: Identity, file: StatFile): ProcessState {
    if id.host != view.host then Unverified
    else if id.boot != view.boot then Dead
    else if id.ns != view.ns then Unverified
    else
      match file
      case Body(text) =>
        (match ParseStat(text, id.pid)
         case Some(found) => if found.0 != id.ticks || found.1 in {'Z', 'X'} then Dead else Alive
         case None => Unverified)
      case NotFound => Dead
      case Unreadable => Unverified
  }

  const PREVIOUS_BOOT := "previous_boot"
  const DISAPPEARED := "process_disappeared"
  const LEGACY := "legacy_previous_boot"

  /** `dead_reason`; the files are those that the two probes read, one after the other. */
  function DeadReason(view: View, owner: Identity, child: Option<Identity>, attached: bool,
                      ownerFile: StatFile, childFile: StatFile): Option<string> {
    if owner.host != view.host then None
    else if owner.boot != view.boot then Some(PREVIOUS_BOOT)
    else if owner.ns != view.ns then None
    else if State(view, owner, ownerFile) != Dead then None
    else if !attached || child.None? then None
    else if State(view, child.value, childFile) != Dead then None
    else Some(DISAPPEARED)
  }

  // ----- the world the probes look at -----

  /** Who is alive and what the stat files of this pid namespace read as, at each moment. */
  datatype World = World(live: nat -> iset<Identity>, files: nat -> u32 -> StatFile)

  /** The file is one that proc(5) allows for this live process: it may be unreadable, but if
      it can be read it is the process's own line. */
  ghost predicate Shows(file: StatFile, id: Identity) {
    file.Unreadable? ||
    exists st: Stat :: file == Body(StatLine(st)) && ValidStat(st)
      && st.pid == id.pid && st.ticks == id.ticks && st.state !in {'Z', 'X'}
  }

  /** On this host only processes of the current boot live, and those of this namespace have
      their stat file. */
  ghost predicate Truthful(view: View, w: World) {
    forall t: nat, id: Identity :: id in w.live(t) && id.host == view.host ==>
      id.boot == view.boot && (id.ns == view.ns ==> Shows(w.files(t)(id.pid), id))
  }

  /** A recorded identity was alive before the first probe and never comes back. */
  ghost predicate GoneForGood(w: World, id: Identity) {
    forall t: nat, u: nat :: t <= u && id in w.live(u) ==> id in w.live(t)
  }

  lemma ShownIsAlive(view: View, id: Identity, file: StatFile)
    requires Shows(file, id) && id.host == view.host && id.boot == view.boot && id.ns == view.ns
    ensures State(view, id, file) != Dead
  {
    hide StatLine, ParseStat, ValidStat;
    if !file.Unreadable? {
      var st: Stat :| file == Body(StatLine(st)) && ValidStat(st)
        && st.pid == id.pid && st.ticks == id.ticks && st.state !in {'Z', 'X'};
      ParseStatLine(st, id.pid);
    }
  }

  /** A probe that says dead is right. */
  lemma DeadIsDead(view: View, w: World, id: Identity, t: nat)
    requires Truthful(view, w) && State(view, id, w.files(t)(id.pid)) == Dead
    ensures id !in w.live(t)
  {
    hide State, Shows;
    if id in w.live(t) {
      LiveIsNotDead(view, w, id, t);
    }
  }

  lemma LiveIsNotDead(view: View, w: World, id: Identity, t: nat)
    requires Truthful(view, w) && id in w.live(t)
    ensures State(view, id, w.files(t)(id.pid)) != Dead
  {
    hide Shows;
    if id.host == view.host && id.ns == view.ns {
      ShownIsAlive(view, id, w.files(t)(id.pid));
    }
  }

  /** A stat file of this namespace belongs to a living process, or to one that has ended. */
  ghost predicate Precise(view: View, w: World) {
    forall t: nat, pid: u32 ::
      w.files(t)(pid).NotFound? ||
      exists st: Stat :: w.files(t)(pid) == Body(StatLine(st)) && ValidStat(st) && st.pid == pid
        && (st.state in {'Z', 'X'} || Identity(view.host, view.boot, view.ns, pid, st.ticks) in w.live(t))
  }

  /** With readable stat files a probe on this host and in this namespace decides the question. */
  lemma ProbeIsExact(view: View, w: World, id: Identity, t: nat)
    requires Truthful(view, w) && Precise(view, w) && id.host == view.host && id.ns == view.ns
    ensures State(view, id, w.files(t)(id.pid)) == if id in w.live(t) then Alive else Dead
  {
    hide StatLine, ParseStat, ValidStat, Shows;
    var file := w.files(t)(id.pid);
    if id in w.live(t) {
      LiveIsNotDead(view, w, id, t);
    }
    if id.boot == view.boot && !file.NotFound? {
      var st: Stat :| file == Body(StatLine(st)) && ValidStat(st) && st.pid == id.pid
        && (st.state in {'Z', 'X'} || Identity(view.host, view.boot, view.ns, id.pid, st.ticks) in w.live(t));
      ParseStatLine(st, id.pid);
    }
  }

  /** A wrapper and its child run on one machine during one boot. */
  predicate SameMachine(owner: Identity, child: Option<Identity>) {
    child.Some? ==> child.value.host == owner.host && child.value.boot == owner.boot
  }

  /** If a reason is found, the owner is gone and so is the recorded child, from the later of the
      two probes on; and while the boot that started the wrapper lasts, its child was attached. */
  lemma ReasonIsConservative(view: View, w: World, owner: Identity, child: Option<Identity>, attached: bool,
                             t: nat, u: nat, later: nat)
    requires Truthful(view, w) && SameMachine(owner, child) && t <= u <= later
    requires GoneForGood(w, owner) && (child.Some? ==> GoneForGood(w, child.value))
    requires DeadReason(view, owner, child, attached, w.files(t)(owner.pid),
               if child.Some? then w.files(u)(child.value.pid) else NotFound).Some?
    ensures owner !in w.live(later)
    ensures child.Some? ==> child.value !in w.live(later)
    ensures !attached || child.None? ==> owner.boot != view.boot
  {
    hide State, Shows, Truthful;
    if owner.boot != view.boot {
      OtherBootIsDead(view, w, owner, later);
      if child.Some? { OtherBootIsDead(view, w, child.value, later); }
    } else {
      DeadIsDead(view, w, owner, t);
      DeadIsDead(view, w, child.value, u);
    }
  }

  lemma OtherBootIsDead(view: View, w: World, id: Identity, t: nat)
    requires Truthful(view, w) && id.host == view.host && id.boot != view.boot
    ensures id !in w.live(t)
  {
    hide Shows;
  }

  /** The owner's and the attached child's processes are both gone from this namespace. */
  ghost predicate BothGone(view: View, w: World, owner: Identity, child: Option<Identity>, attached: bool,
                           t: nat, u: nat) {
    owner.ns == view.ns && owner !in w.live(t) && attached && child.Some?
    && child.value.ns == view.ns && child.value !in w.live(u)
  }

  /** With readable stat files, exactly these sessions are found dead: those of an earlier boot
      of this host, and those whose owner and attached child are both gone from this namespace. */
  lemma ReasonIsExact(view: View, w: World, owner: Identity, child: Option<Identity>, attached: bool, t: nat, u: nat)
    requires Truthful(view, w) && Precise(view, w) && SameMachine(owner, child) && t <= u
    ensures DeadReason(view, owner, child, attached, w.files(t)(owner.pid),
              if child.Some? then w.files(u)(child.value.pid) else NotFound) ==
      if owner.host != view.host then None
      else if owner.boot != view.boot then Some(PREVIOUS_BOOT)
      else if BothGone(view, w, owner, child, attached, t, u) then Some(DISAPPEARED)
      else None
  {
    hide Shows, Truthful, Precise, ParseStat;
    if owner.host == view.host && owner.boot == view.boot && owner.ns == view.ns {
      ProbeIsExact(view, w, owner, t);
      if child.Some? && child.value.ns == view.ns {
        ProbeIsExact(view, w, child.value, u);
      }
    }
  }

  // ----- `reconcile_sessions` -----

  /** A run as the control plane stores it, with the witnesses of its wrapper. */
  datatype Run = Run(task: string, provider: string, status: string, started: Option<string>, owner: Option<string>,
                     child: Option<string>, attached: Option<bool>, exitReason: Option<string>)

  datatype Event = Event(run: string, task: string, reason: string)

  datatype Db = Db(runs: map<string, Run>, tasks: map<string, string>, audit: seq<Event>)

  datatype Candidate = Candidate(run: string, task: string, reason: string)

  datatype Report = Report(applied: bool, viewAvailable: bool, includeLegacy: bool, inspected: nat, kept: nat,
                           candidates: seq<Candidate>, closed: nat)

  datatype Result<+T> = Ok(value: T) | Err(message: string)

  /** What the caller's environment decides: how witnesses and timestamps are read, and what the
      stat files hold. Row i is probed at the moments 2i and 2i+1. */
  datatype Env = Env(decode: string -> Option<Identity>, clock: string -> Option<int>, files: nat -> u32 -> StatFile)

  datatype Verdict = Invalid(what: string) | Keep | Close(reason: string)

  const DAY := 24 * 60 * 60

  function LegacyVerdict(view: View, started: Option<string>, env: Env): Verdict {
    if started.None? then Keep
    else
      match (env.clock(started.value), view.bootLocal)
      case (Some(began), Some(boot)) => if began < boot - DAY then Close(LEGACY) else Keep
      case _ => Keep
  }

  function OwnedVerdict(view: View, run: Run, env: Env, i: nat): Verdict
    requires run.owner.Some?
  {
    match env.decode(run.owner.value)
    case None => Invalid("invalid wrapper owner witness")
    case Some(owner) =>
      var child := if run.child.Some? then env.decode(run.child.value) else None;
      if run.child.Some? && child.None? then Invalid("invalid wrapper child witness")
      else
        var childFile := if child.Some? then env.files(2 * i + 1)(child.value.pid) else NotFound;
        match DeadReason(view, owner, child, run.attached == Some(true), env.files(2 * i)(owner.pid), childFile)
        case Some(reason) => Close(reason)
        case None => Keep
  }

  /** What becomes of the i-th row. */
  function VerdictOf(view: View, run: Run, legacy: bool, env: Env, i: nat): Verdict {
    if run.owner.Some? then OwnedVerdict(view, run, env, i)
    else if legacy then LegacyVerdict(view, run.started, env)
    else Keep
  }

  predicate Inspected(db: Db, id: string) {
    id in db.runs && db.runs[id].provider == "wrapper" && db.runs[id].status == "running"
    && db.runs[id].task in db.tasks
  }

  /** The rows of the query: the ids of the running wrapper runs, each once. */
  ghost predicate IsListing(db: Db, order: seq<string>) {
    (forall i :: 0 <= i < |order| ==> Inspected(db, order[i])) &&
    (forall id :: Inspected(db, id) ==> id in order) &&
    (forall i, j :: 0 <= i < j < |order| ==> order[i] != order[j])
  }

  predicate Listed(db: Db, order: seq<string>) {
    forall i :: 0 <= i < |order| ==> order[i] in db.runs
  }

  /** The candidates among the first n rows. */
  function Candidates(view: View, db: Db, order: seq<string>, legacy: bool, env: Env, n: nat): (cs: seq<Candidate>)
    requires n <= |order| && Listed(db, order)
    ensures |cs| <= n
  {
    if n == 0 then []
    else
      var id := order[n - 1];
      Candidates(view, db, order, legacy, env, n - 1) +
      match VerdictOf(view, db.runs[id], legacy, env, n - 1)
      case Close(reason) => [Candidate(id, db.runs[id].task, reason)]
      case _ => []
  }

  predicate AllValid(view: View, db: Db, order: seq<string>, legacy: bool, env: Env, n: nat)
    requires n <= |order| && Listed(db, order)
  {
    forall i :: 0 <= i < n ==> !VerdictOf(view, db.runs[order[i]], legacy, env, i).Invalid?
  }

  /** `cp_finish_wrapper_session` with `success` false; `fails` are the runs whose writes the
      database refuses. */
  function Finish(db: Db, c: Candidate, fails: set<string>): Result<(Db, bool)> {
    if c.run !in db.runs || db.runs[c.run].task !in db.tasks then Err("no such run")
    else
      var run := db.runs[c.run];
      if run.task != c.task || run.provider != "wrapper" then Err("session run/task ownership mismatch")
      else if run.status != "running" then Ok((db, false))
      else if c.run in fails then Err("write refused")
      else
        Ok((Db(db.runs[c.run := run.(status := "failed", exitReason := Some(c.reason))],
               if db.tasks[c.task] == "in_progress" then db.tasks[c.task := "failed"] else db.tasks,
               db.audit + [Event(c.run, c.task, c.reason)]), true))
  }

  // ----- what closing does -----

  /** Candidates are distinct running wrapper runs, named with their own task. */
  predicate Open(db: Db, cs: seq<Candidate>) {
    (forall i :: 0 <= i < |cs| ==> Inspected(db, cs[i].run) && db.runs[cs[i].run].task == cs[i].task) &&
    (forall i, j :: 0 <= i < j < |cs| ==> cs[i].run != cs[j].run)
  }

  predicate HasRun(cs: seq<Candidate>, id: string) {
    exists i :: 0 <= i < |cs| && cs[i].run == id
  }

  predicate HasTask(cs: seq<Candidate>, id: string) {
    exists i :: 0 <= i < |cs| && cs[i].task == id
  }

  /** The status of a task once the candidates are closed. */
  function TaskStatus(cs: seq<Candidate>, id: string, status: string): string {
    if HasTask(cs, id) && status == "in_progress" then "failed" else status
  }

  function EventOf(c: Candidate): Event {
    Event(c.run, c.task, c.reason)
  }

  /** after is before with exactly the candidates closed: their runs failed with the reason, their
      tasks failed if they were in progress, one audit event each; nothing else differs. */
  ghost predicate ClosedExactly(before: Db, cs: seq<Candidate>, after: Db) {
    && after.runs.Keys == before.runs.Keys
    && (forall i :: 0 <= i < |cs| && cs[i].run in before.runs ==>
          after.runs[cs[i].run] == before.runs[cs[i].run].(status := "failed", exitReason := Some(cs[i].reason)))
    && (forall id :: id in before.runs && !HasRun(cs, id) ==> after.runs[id] == before.runs[id])
    && after.tasks.Keys == before.tasks.Keys
    && (forall id :: id in before.tasks ==> after.tasks[id] == TaskStatus(cs, id, before.tasks[id]))
    && after.audit == before.audit + Map(EventOf, cs)
  }

  lemma CandidatesStep(view: View, db: Db, order: seq<string>, legacy: bool, env: Env, n: nat)
    requires 0 < n <= |order| && Listed(db, order)
    ensures Candidates(view, db, order, legacy, env, n) == Candidates(view, db, order, legacy, env, n - 1) +
      (match VerdictOf(view, db.runs[order[n - 1]], legacy, env, n - 1)
       case Close(reason) => [Candidate(order[n - 1], db.runs[order[n - 1]].task, reason)]
       case _ => [])
  {
  }

  predicate FromFirst(db: Db, order: seq<string>, cs: seq<Candidate>, n: nat)
    requires n <= |order|
  {
    forall i :: 0 <= i < |cs| ==> exists j :: 0 <= j < n && order[j] == cs[i].run
  }

  /** Candidates come from the rows looked at, in their order, each with its own task. */
  lemma {:induction false} CandidatesOpenFrom(view: View, db: Db, order: seq<string>, legacy: bool, env: Env, n: nat)
    requires n <= |order| && IsListing(db, order)
    ensures Open(db, Candidates(view, db, order, legacy, env, n))
    ensures FromFirst(db, order, Candidates(view, db, order, legacy, env, n), n)
  {
    hide VerdictOf, Candidates;
    if n > 0 {
      CandidatesOpenFrom(view, db, order, legacy, env, n - 1);
      CandidatesStep(view, db, order, legacy, env, n);
    } else {
      NoCandidates(view, db, order, legacy, env);
    }
  }

  lemma NoCandidates(view: View, db: Db, order: seq<string>, legacy: bool, env: Env)
    requires Listed(db, order)
    ensures Candidates(view, db, order, legacy, env, 0) == []
  {
  }

  lemma CandidatesAreOpen(view: View, db: Db, order: seq<string>, legacy: bool, env: Env, n: nat)
    requires n <= |order| && IsListing(db, order)
    ensures Open(db, Candidates(view, db, order, legacy, env, n))
  {
    hide *;
    CandidatesOpenFrom(view, db, order, legacy, env, n);
  }

  lemma NothingClosed(db: Db)
    ensures ClosedExactly(db, [], db)
  {
  }

  lemma TasksAfter(before: Db, cs: seq<Candidate>, n: nat, tx: Db, c: Candidate)
    requires n < |cs| && c == cs[n] && c.task in tx.tasks && ClosedExactly(before, cs[..n], tx)
    ensures var tasks := if tx.tasks[c.task] == "in_progress" then tx.tasks[c.task := "failed"] else tx.tasks;
            && tasks.Keys == before.tasks.Keys
            && (forall id :: id in before.tasks ==> tasks[id] == TaskStatus(cs[..n + 1], id, before.tasks[id]))
  {
    assert cs[..n + 1] == cs[..n] + [c];
    forall id | id in before.tasks
      ensures HasTask(cs[..n + 1], id) <==> HasTask(cs[..n], id) || id == c.task
    {
      HasTaskNext(cs, n, id);
    }
  }

  lemma HasTaskNext(cs: seq<Candidate>, n: nat, id: string)
    requires n < |cs|
    ensures HasTask(cs[..n + 1], id) <==> HasTask(cs[..n], id) || id == cs[n].task
  {
    var a, b := cs[..n], cs[..n + 1];
    assert b[n] == cs[n];
    if HasTask(a, id) {
      var i :| 0 <= i < |a| && a[i].task == id;
      assert b[i].task == id;
    }
    if HasTask(b, id) && id != cs[n].task {
      var i :| 0 <= i < |b| && b[i].task == id;
      assert a[i].task == id;
    }
  }

  lemma HasRunNext(cs: seq<Candidate>, n: nat, id: string)
    requires n < |cs|
    ensures HasRun(cs[..n + 1], id) <==> HasRun(cs[..n], id) || id == cs[n].run
  {
    var a, b := cs[..n], cs[..n + 1];
    assert b[n] == cs[n];
    if HasRun(a, id) {
      var i :| 0 <= i < |a| && a[i].run == id;
      assert b[i].run == id;
    }
    if HasRun(b, id) && id != cs[n].run {
      var i :| 0 <= i < |b| && b[i].run == id;
      assert a[i].run == id;
    }
  }

  lemma StillOpen(before: Db, cs: seq<Candidate>, n: nat, tx: Db)
    requires Open(before, cs) && n < |cs| && ClosedExactly(before, cs[..n], tx)
    ensures cs[n].run in before.runs && cs[n].run in tx.runs && tx.runs[cs[n].run] == before.runs[cs[n].run]
    ensures cs[n].task in tx.tasks && !HasRun(cs[..n], cs[n].run)
  {
    forall i | 0 <= i < |cs[..n]| ensures cs[..n][i].run != cs[n].run {
      assert cs[..n][i] == cs[i];
    }
  }

  lemma RunsAfter(before: Db, cs: seq<Candidate>, n: nat, tx: Db, run: Run)
    requires Open(before, cs) && n < |cs| && ClosedExactly(before, cs[..n], tx)
    requires cs[n].run in before.runs
    requires run == before.runs[cs[n].run].(status := "failed", exitReason := Some(cs[n].reason))
    ensures var runs := tx.runs[cs[n].run := run];
            && runs.Keys == before.runs.Keys
            && (forall i :: 0 <= i < n + 1 && cs[i].run in before.runs ==>
                  runs[cs[i].run] == before.runs[cs[i].run].(status := "failed", exitReason := Some(cs[i].reason)))
            && (forall id :: id in before.runs && !HasRun(cs[..n + 1], id) ==> runs[id] == before.runs[id])
  {
    hide HasRun;
    var runs := tx.runs[cs[n].run := run];
    forall i | 0 <= i < n + 1 && cs[i].run in before.runs
      ensures runs[cs[i].run] == before.runs[cs[i].run].(status := "failed", exitReason := Some(cs[i].reason))
    {
      if i < n { assert cs[..n][i] == cs[i]; }
    }
    forall id | id in before.runs && !HasRun(cs[..n + 1], id) ensures runs[id] == before.runs[id] {
      HasRunNext(cs, n, id);
    }
  }

  lemma FinishCloses(before: Db, cs: seq<Candidate>, n: nat, tx: Db, fails: set<string>)
    requires Open(before, cs) && n < |cs| && ClosedExactly(before, cs[..n], tx)
    ensures Finish(tx, cs[n], fails).Ok? ==>
      Finish(tx, cs[n], fails).value.1 && ClosedExactly(before, cs[..n + 1], Finish(tx, cs[n], fails).value.0)
    ensures Finish(tx, cs[n], fails).Err? <==> cs[n].run in fails
  {
    hide HasRun, HasTask;
    StillOpen(before, cs, n, tx);
    var c := cs[n];
    if c.run !in fails {
      var run := before.runs[c.run].(status := "failed", exitReason := Some(c.reason));
      RunsAfter(before, cs, n, tx, run);
      TasksAfter(before, cs, n, tx, c);
      assert cs[..n + 1] == cs[..n] + [c];
      MapAppend(EventOf, cs[..n], [c]);
      assert Map(EventOf, [c]) == [EventOf(c)];
      assert tx.audit + [EventOf(c)] == before.audit + Map(EventOf, cs[..n + 1]);
    }
  }

  /** A run is finished once: finishing it again, for whatever reason, changes nothing and says so; and
      a run is refused exactly if it is missing, not the task's, not a wrapper's, or cannot be written. */
  lemma FinishedTwice(db: Db, c: Candidate, fails: set<string>, reason: string)
    ensures Finish(db, c, fails).Ok? ==>
      var after := Finish(db, c, fails).value.0;
      Finish(after, c.(reason := reason), fails) == Ok((after, false))
      && (Finish(db, c, fails).value.1 <==> Inspected(db, c.run))
      && (after == db <==> !Inspected(db, c.run))
    ensures Finish(db, c, fails).Err? <==>
      !(c.run in db.runs && c.task in db.tasks && db.runs[c.run].task == c.task && db.runs[c.run].provider == "wrapper")
      || (db.runs[c.run].status == "running" && c.run in fails)
  {
    if Finish(db, c, fails).Ok? {
      var after := Finish(db, c, fails).value.0;
      if Inspected(db, c.run) { assert |after.audit| == |db.audit| + 1; }
    }
  }

  /** What an apply closed is never inspected, and so never closed, again; the rest still is. */
  lemma ClosedOnce(before: Db, cs: seq<Candidate>, after: Db, id: string)
    requires Open(before, cs) && ClosedExactly(before, cs, after)
    ensures Inspected(after, id) <==> Inspected(before, id) && !HasRun(cs, id)
  {
    if HasRun(cs, id) {
      var i :| 0 <= i < |cs| && cs[i].run == id;
      assert after.runs[cs[i].run].status == "failed";
    }
  }

  /** The database refuses to close one of the candidates. */
  predicate Refused(cs: seq<Candidate>, fails: set<string>) {
    exists i :: 0 <= i < |cs| && cs[i].run in fails
  }

  lemma RefusedAt(cs: seq<Candidate>, i: nat, fails: set<string>)
    requires i < |cs| && !Refused(cs[..i], fails)
    ensures Refused(cs[..i + 1], fails) <==> cs[i].run in fails
    ensures cs[i].run in fails ==> Refused(cs, fails)
  {
    var a := cs[..i + 1];
    assert a[i] == cs[i];
    forall j | 0 <= j < i ensures a[j].run !in fails {
      assert a[j] == cs[..i][j];
    }
  }

  lemma RefusedNone(fails: set<string>)
    ensures !Refused([], fails)
  {
  }

  lemma NothingOpen(db: Db)
    ensures Open(db, [])
  {
  }

  lemma ListingIsListed(db: Db, order: seq<string>)
    requires IsListing(db, order)
    ensures Listed(db, order)
  {
  }

  lemma NoneInvalid(view: View, db: Db, order: seq<string>, legacy: bool, env: Env)
    requires Listed(db, order)
    ensures AllValid(view, db, order, legacy, env, 0)
  {
  }

  lemma OneMoreValid(view: View, db: Db, order: seq<string>, legacy: bool, env: Env, n: nat)
    requires n < |order| && Listed(db, order) && AllValid(view, db, order, legacy, env, n)
    ensures order[n] in db.runs
    ensures AllValid(view, db, order, legacy, env, n + 1) <==>
      !VerdictOf(view, db.runs[order[n]], legacy, env, n).Invalid?
    ensures VerdictOf(view, db.runs[order[n]], legacy, env, n).Invalid? ==>
      !AllValid(view, db, order, legacy, env, |order|)
  {
    hide VerdictOf;
  }

  /** The loop over the rows: how many were inspected and kept, and the candidates. */
  method Inspect(view: View, db: Db, order: seq<string>, legacy: bool, env: Env)
    returns (r: Result<(nat, nat, seq<Candidate>)>)
    requires Listed(db, order)
    ensures r.Ok? <==> AllValid(view, db, order, legacy, env, |order|)
    ensures r.Ok? ==> r.value.0 == |order| == r.value.1 + |r.value.2|
    ensures r.Ok? ==> r.value.2 == Candidates(view, db, order, legacy, env, |order|)
    ensures r.Err? ==> exists i :: FirstUnread(db, order, env, i, r.message)
  {
    hide *;
    var candidates: seq<Candidate> := [];
    var inspected, kept := 0, 0;
    NoCandidates(view, db, order, legacy, env);
    NoneInvalid(view, db, order, legacy, env);
    while inspected < |order|
      invariant 0 <= inspected <= |order| && 0 <= kept && inspected == kept + |candidates|
      invariant AllValid(view, db, order, legacy, env, inspected)
      invariant candidates == Candidates(view, db, order, legacy, env, inspected)
    {
      var id := order[inspected];
      OneMoreValid(view, db, order, legacy, env, inspected);
      CandidatesStep(view, db, order, legacy, env, inspected + 1);
      match VerdictOf(view, db.runs[id], legacy, env, inspected) {
        case Invalid(what) =>
          UnreadHere(view, db, order, legacy, env, inspected, what);
          return Err(what);
        case Close(reason) => candidates := candidates + [Candidate(id, db.runs[id].task, reason)];
        case Keep => kept := kept + 1;
      }
      inspected := inspected + 1;
    }
    r := Ok((inspected, kept, candidates));
  }

  /** The rows before this one can be read, and of its witnesses the owner's cannot, or else the child's. */
  predicate FirstUnread(db: Db, order: seq<string>, env: Env, i: nat, error: string)
    requires Listed(db, order)
  {
    i < |order| && (forall j :: 0 <= j < i ==> Readable(env, db.runs[order[j]])) &&
    var run := db.runs[order[i]];
    run.owner.Some? &&
    if env.decode(run.owner.value).None? then error == "invalid wrapper owner witness"
    else run.child.Some? && env.decode(run.child.value).None? && error == "invalid wrapper child witness"
  }

  lemma UnreadHere(view: View, db: Db, order: seq<string>, legacy: bool, env: Env, i: nat, error: string)
    requires i < |order| && Listed(db, order) && AllValid(view, db, order, legacy, env, i)
    requires VerdictOf(view, db.runs[order[i]], legacy, env, i) == Invalid(error)
    ensures FirstUnread(db, order, env, i, error)
  {
    hide VerdictOf, Readable;
    forall j | 0 <= j < i ensures Readable(env, db.runs[order[j]]) {
      ValidIsReadable(view, db.runs[order[j]], legacy, env, j);
    }
    InvalidSays(view, db.runs[order[i]], legacy, env, i);
  }

  lemma InvalidSays(view: View, run: Run, legacy: bool, env: Env, i: nat)
    requires VerdictOf(view, run, legacy, env, i).Invalid?
    ensures run.owner.Some? &&
      var what := VerdictOf(view, run, legacy, env, i).what;
      if env.decode(run.owner.value).None? then what == "invalid wrapper owner witness"
      else run.child.Some? && env.decode(run.child.value).None? && what == "invalid wrapper child witness"
  {
    hide DeadReason;
  }

  /** The loop over the candidates, on the state the transaction works on. */
  method CloseAll(db: Db, candidates: seq<Candidate>, fails: set<string>) returns (r: Result<(Db, nat)>)
    requires Open(db, candidates)
    ensures r.Ok? <==> !Refused(candidates, fails)
    ensures r.Ok? ==> ClosedExactly(db, candidates, r.value.0) && r.value.1 == |candidates|
  {
    hide *;
    var tx, closed, i := db, 0, 0;
    NothingClosed(tx);
    RefusedNone(fails);
    assert candidates[..0] == [];
    while i < |candidates|
      invariant 0 <= i == closed <= |candidates| && ClosedExactly(db, candidates[..i], tx)
      invariant !Refused(candidates[..i], fails)
    {
      RefusedAt(candidates, i, fails);
      FinishCloses(db, candidates, i, tx, fails);
      match Finish(tx, candidates[i], fails) {
        case Err(message) => return Err(message);
        case Ok(done) =>
          tx := done.0;
          if done.1 { closed := closed + 1; }
      }
      i := i + 1;
    }
    assert candidates[..i] == candidates;
    r := Ok((tx, closed));
  }

  class ControlPlane {
    var db: Db

    constructor (initial: Db)
      ensures db == initial
    {
      db := initial;
    }

    /** One transaction: either everything it wrote is committed, or nothing. */
    method ReconcileSessions(apply: bool, legacy: bool, view: Option<View>, env: Env, order: seq<string>,
                             fails: set<string>) returns (r: Result<Report>)
      requires IsListing(db, order)
      modifies this
      ensures !apply || r.Err? ==> db == old(db)
      ensures r.Ok? <==>
        && (view.Some? ==> AllValid(view.value, old(db), order, legacy, env, |order|))
        && (apply && view.Some? ==> !Refused(Candidates(view.value, old(db), order, legacy, env, |order|), fails))
      ensures r.Err? && !AllValid(view.value, old(db), order, legacy, env, |order|) ==>
        exists i :: FirstUnread(old(db), order, env, i, r.message)
      ensures r.Ok? ==>
        && r.value.candidates ==
           (if view.Some? then Candidates(view.value, old(db), order, legacy, env, |order|) else [])
        && r.value.inspected == |order| == r.value.kept + |r.value.candidates|
        && r.value.applied == apply && r.value.includeLegacy == legacy && r.value.viewAvailable == view.Some?
        && r.value.closed == (if apply then |r.value.candidates| else 0)
        && (apply ==> ClosedExactly(old(db), r.value.candidates, db))
    {
      hide *;
      var candidates: seq<Candidate> := [];
      var inspected, kept, closed := |order|, |order|, 0;
      NothingOpen(db);
      RefusedNone(fails);
      if view.Some? {
        ListingIsListed(db, order);
        CandidatesAreOpen(view.value, db, order, legacy, env, |order|);
        var found := Inspect(view.value, db, order, legacy, env);
        match found {
          case Err(what) => return Err(what);
          case Ok(tally) => inspected, kept, candidates := tally.0, tally.1, tally.2;
        }
      }
      if apply {
        var done := CloseAll(db, candidates, fails);
        match done {
          case Err(message) => return Err(message);
          case Ok(result) => db, closed := result.0, result.1;
        }
      }
      r := Ok(Report(apply, view.Some?, legacy, inspected, kept, candidates, closed));
    }
  }

  // ----- no candidate is alive -----

  /** The witnesses of a run are those of processes that were alive before the reconciliation
      started and ran on one machine. */
  ghost predicate HonestWitnesses(w: World, env: Env, run: Run) {
    run.owner.Some? && env.decode(run.owner.value).Some? ==>
      var owner := env.decode(run.owner.value).value;
      var child := if run.child.Some? then env.decode(run.child.value) else None;
      GoneForGood(w, owner) && SameMachine(owner, child) && (child.Some? ==> GoneForGood(w, child.value))
  }

  /** Nobody recorded for the run is alive, and a run whose child was never attached is of an
      earlier boot. */
  ghost predicate NobodyLeft(view: View, w: World, env: Env, run: Run, later: nat) {
    run.owner.Some? && env.decode(run.owner.value).Some? &&
    var owner := env.decode(run.owner.value).value;
    var child := if run.child.Some? then env.decode(run.child.value) else None;
    && owner !in w.live(later)
    && (child.Some? ==> child.value !in w.live(later))
    && (run.attached != Some(true) || child.None? ==> owner.boot != view.boot)
  }

  lemma VerdictIsConservative(view: View, w: World, run: Run, legacy: bool, env: Env, i: nat, later: nat)
    requires env.files == w.files && Truthful(view, w) && HonestWitnesses(w, env, run) && 2 * i + 1 <= later
    requires run.owner.Some? && VerdictOf(view, run, legacy, env, i).Close?
    ensures NobodyLeft(view, w, env, run, later)
  {
    hide DeadReason, Truthful, GoneForGood, SameMachine;
    var owner := env.decode(run.owner.value).value;
    var child := if run.child.Some? then env.decode(run.child.value) else None;
    ReasonIsConservative(view, w, owner, child, run.attached == Some(true), 2 * i, 2 * i + 1, later);
  }

  /** Every candidate has nobody left, from the last probe on, unless it is a row without an owner
      witness; such a row is closed only on request, and only if it is more than a day older than
      this boot. */
  lemma {:induction false} CandidatesAreDead(view: View, w: World, db: Db, order: seq<string>, legacy: bool, env: Env,
                                            n: nat, k: nat, later: nat)
    requires n <= |order| && IsListing(db, order) && env.files == w.files && Truthful(view, w)
    requires forall id :: id in db.runs ==> HonestWitnesses(w, env, db.runs[id])
    requires k < |Candidates(view, db, order, legacy, env, n)| && 2 * n <= later
    ensures var c := Candidates(view, db, order, legacy, env, n)[k];
            c.run in db.runs &&
            var run := db.runs[c.run];
            if run.owner.Some? then NobodyLeft(view, w, env, run, later)
            else legacy && c.reason == LEGACY && run.started.Some? && env.clock(run.started.value).Some?
                 && view.bootLocal.Some? && env.clock(run.started.value).value < view.bootLocal.value - DAY
  {
    hide NobodyLeft, Truthful, HonestWitnesses, OwnedVerdict, Candidates;
    if n == 0 {
      NoCandidates(view, db, order, legacy, env);
    } else {
      CandidatesStep(view, db, order, legacy, env, n);
      if k < |Candidates(view, db, order, legacy, env, n - 1)| {
        CandidatesAreDead(view, w, db, order, legacy, env, n - 1, k, later);
      } else {
        var run := db.runs[order[n - 1]];
        if run.owner.Some? {
          VerdictIsConservative(view, w, run, legacy, env, n - 1, later);
        }
      }
    }
  }

  // ----- exactly which rows are closed -----

  /** Every witness of the row can be read. */
  predicate Readable(env: Env, run: Run) {
    run.owner.Some? ==> env.decode(run.owner.value).Some? && (run.child.Some? ==> env.decode(run.child.value).Some?)
  }

  /** A reconciliation fails at a row exactly if one of its witnesses cannot be read. */
  lemma ValidIsReadable(view: View, run: Run, legacy: bool, env: Env, i: nat)
    ensures VerdictOf(view, run, legacy, env, i).Invalid? <==> !Readable(env, run)
  {
    hide DeadReason;
  }

  lemma AllValidIsReadable(view: View, db: Db, order: seq<string>, legacy: bool, env: Env)
    requires IsListing(db, order)
    ensures AllValid(view, db, order, legacy, env, |order|) <==>
      forall i :: 0 <= i < |order| ==> Readable(env, db.runs[order[i]])
  {
    hide VerdictOf, Readable;
    forall i | 0 <= i < |order|
      ensures VerdictOf(view, db.runs[order[i]], legacy, env, i).Invalid? <==> !Readable(env, db.runs[order[i]])
    {
      ValidIsReadable(view, db.runs[order[i]], legacy, env, i);
    }
  }

  /** The owner was recorded on this host during an earlier boot. */
  predicate EarlierBoot(view: View, env: Env, run: Run) {
    run.owner.Some? && env.decode(run.owner.value).Some? &&
    var owner := env.decode(run.owner.value).value;
    owner.host == view.host && owner.boot != view.boot
  }

  /** Owner and attached child are of this host; the owner of this boot and namespace was gone at
      the first probe, and the child, of an earlier boot or of this namespace, at the second. */
  ghost predicate Disappeared(view: View, w: World, env: Env, run: Run, i: nat) {
    run.owner.Some? && env.decode(run.owner.value).Some? && run.attached == Some(true)
    && run.child.Some? && env.decode(run.child.value).Some? &&
    var owner, child := env.decode(run.owner.value).value, env.decode(run.child.value).value;
    && owner.host == view.host && owner.boot == view.boot && owner.ns == view.ns && owner !in w.live(2 * i)
    && child.host == view.host && (child.boot != view.boot || child.ns == view.ns) && child !in w.live(2 * i + 1)
  }

  /** Without an owner witness, on request: started more than twenty-four hours before this boot. */
  predicate LongAgo(view: View, env: Env, run: Run, legacy: bool) {
    run.owner.None? && legacy && run.started.Some? && env.clock(run.started.value).Some? && view.bootLocal.Some?
    && view.bootLocal.value - env.clock(run.started.value).value > 86_400
  }

  lemma ProbeDecides(view: View, w: World, id: Identity, t: nat)
    requires Truthful(view, w) && Precise(view, w)
    ensures State(view, id, w.files(t)(id.pid)) == Dead <==>
      id.host == view.host && (id.boot != view.boot || id.ns == view.ns) && id !in w.live(t)
  {
    hide Shows, Truthful, Precise, ParseStat;
    if id.host == view.host && id.ns == view.ns { ProbeIsExact(view, w, id, t); }
    if id.host == view.host && id.boot != view.boot { OtherBootIsDead(view, w, id, t); }
  }

  lemma VerdictExactly(view: View, w: World, run: Run, legacy: bool, env: Env, i: nat)
    requires env.files == w.files && Truthful(view, w) && Precise(view, w) && Readable(env, run)
    ensures VerdictOf(view, run, legacy, env, i) ==
      if EarlierBoot(view, env, run) then Close("previous_boot")
      else if Disappeared(view, w, env, run, i) then Close("process_disappeared")
      else if LongAgo(view, env, run, legacy) then Close("legacy_previous_boot")
      else Keep
  {
    hide Truthful, Precise, State;
    if run.owner.Some? {
      var owner := env.decode(run.owner.value).value;
      ProbeDecides(view, w, owner, 2 * i);
      if run.child.Some? { ProbeDecides(view, w, env.decode(run.child.value).value, 2 * i + 1); }
    }
  }

  /** The row is reported as a candidate, with its task and the reason. */
  predicate Reported(cs: seq<Candidate>, run: string, task: string, reason: string) {
    Candidate(run, task, reason) in cs
  }

  lemma {:induction false} CandidatesAre(view: View, db: Db, order: seq<string>, legacy: bool, env: Env, n: nat, i: nat)
    requires n <= |order| && IsListing(db, order) && i < |order|
    ensures var cs, v := Candidates(view, db, order, legacy, env, n), VerdictOf(view, db.runs[order[i]], legacy, env, i);
            (HasRun(cs, order[i]) <==> i < n && v.Close?)
            && (i < n && v.Close? ==> Reported(cs, order[i], db.runs[order[i]].task, v.reason))
  {
    hide VerdictOf, Candidates;
    if n == 0 {
      NoCandidates(view, db, order, legacy, env);
    } else {
      CandidatesAre(view, db, order, legacy, env, n - 1, i);
      CandidatesStep(view, db, order, legacy, env, n);
      var cs, before := Candidates(view, db, order, legacy, env, n), Candidates(view, db, order, legacy, env, n - 1);
      forall k | 0 <= k < |before| ensures cs[k] == before[k] {
      }
      if HasRun(before, order[i]) {
        var k :| 0 <= k < |before| && before[k].run == order[i];
        assert cs[k].run == order[i];
      }
      if i == n - 1 && VerdictOf(view, db.runs[order[i]], legacy, env, i).Close? {
        assert cs[|before|].run == order[i];
      }
    }
  }

  /** With stat files that are truthful and readable and with readable witnesses, a row is a candidate
      exactly for one of three reasons, and the report names it. */
  lemma CandidateExactly(view: View, w: World, db: Db, order: seq<string>, legacy: bool, env: Env, i: nat)
    requires IsListing(db, order) && env.files == w.files && Truthful(view, w) && Precise(view, w) && i < |order|
    requires Readable(env, db.runs[order[i]])
    ensures var cs, run := Candidates(view, db, order, legacy, env, |order|), db.runs[order[i]];
            (HasRun(cs, order[i]) <==>
              EarlierBoot(view, env, run) || Disappeared(view, w, env, run, i) || LongAgo(view, env, run, legacy))
            && (EarlierBoot(view, env, run) ==> Reported(cs, order[i], run.task, "previous_boot"))
            && (Disappeared(view, w, env, run, i) ==> Reported(cs, order[i], run.task, "process_disappeared"))
            && (LongAgo(view, env, run, legacy) ==> Reported(cs, order[i], run.task, "legacy_previous_boot"))
  {
    var run := db.runs[order[i]];
    OneReason(view, w, env, run, legacy, i);
    hide *;
    VerdictExactly(view, w, run, legacy, env, i);
    CandidatesAre(view, db, order, legacy, env, |order|, i);
  }

  lemma OneReason(view: View, w: World, env: Env, run: Run, legacy: bool, i: nat)
    ensures !(EarlierBoot(view, env, run) && Disappeared(view, w, env, run, i))
    ensures LongAgo(view, env, run, legacy) ==> !EarlierBoot(view, env, run) && !Disappeared(view, w, env, run, i)
  {
  }
}
