/** `lock_manager.rs`: a table of prioritised locks with preemption, re-entrant refresh and
    lazy expiry. All operations run under one mutex, so each is one atomic step at one time. */
module LockManager {
  import opened Seqs

  datatype Priority = Automation | Agent | User

  function Rank(p: Priority): nat {
    match p
    case Automation => 0
    case Agent => 1
    case User => 2
  }

  datatype Key = File(path: string) | Task(id: string)

  /** Times and durations are in nanoseconds. */
  datatype Entry = Entry(owner: string, priority: Priority, acquiredAt: nat, timeout: nat)

  const NANOS_PER_SEC := 1_000_000_000
  const DEFAULT_TIMEOUT := 30 * NANOS_PER_SEC

  predicate Expired(e: Entry, now: nat) {
    now - e.acquiredAt > e.timeout
  }

  type Table = map<Key, Entry>

  datatype Status = Status(key: Key, owner: string, priority: Priority, elapsedSecs: nat, timeoutSecs: nat)

  function Elapsed(e: Entry, now: nat): nat {
    if now < e.acquiredAt then 0 else now - e.acquiredAt
  }

  function StatusOf(k: Key, e: Entry, now: nat): Status {
    Status(k, e.owner, e.priority, Elapsed(e, now) / NANOS_PER_SEC, e.timeout / NANOS_PER_SEC)
  }

  datatype Op =
    | Acquire(key: Key, owner: string, priority: Priority, timeout: Option<nat>)
    | Release(key: Key, caller: string, callerPriority: Priority)
    | IsLocked(key: Key)
    | List
    | Sweep

  datatype Answer = Granted | Refused | Released | NoSuchLock | NotOwner | Locked(held: bool)
                  | Listing(locks: set<Status>) | Swept(count: nat)

  // ----- what the operations mean on a table -----

  /** The entries that count at a time. */
  function Live(m: Table, now: nat): (r: Table)
    ensures forall k :: k in r <==> k in m && !Expired(m[k], now)
    ensures forall k :: k in r ==> r[k] == m[k]
    ensures |r| <= |m|
  {
    var r := map k | k in m && !Expired(m[k], now) :: m[k];
    assert r.Keys <= m.Keys;
    SubsetSize(r.Keys, m.Keys);
    r
  }

  lemma {:induction false} SubsetSize<T>(a: set<T>, b: set<T>)
    ensures a <= b ==> |a| <= |b|
  {
    if a <= b && a != {} {
      var x :| x in a;
      SubsetSize(a - {x}, b - {x});
    }
  }

  function Listed(m: Table, now: nat): set<Status> {
    set k | k in m :: StatusOf(k, m[k], now)
  }

  predicate Holds(m: Table, key: Key, now: nat) {
    key in m && !Expired(m[key], now)
  }

  /** An acquire is refused when another owner's unexpired lock has at least its priority. */
  predicate Blocked(m: Table, now: nat, key: Key, owner: string, priority: Priority) {
    Holds(m, key, now) && m[key].owner != owner && Rank(m[key].priority) >= Rank(priority)
  }

  /** An operation as the manager performs it: the table after it and the answer. */
  function Apply(m: Table, now: nat, op: Op): (Table, Answer) {
    match op
    case Acquire(key, owner, priority, timeout) =>
      if Blocked(m, now, key, owner, priority) then (m, Refused)
      else (m[key := Entry(owner, priority, now, if timeout.Some? then timeout.value else DEFAULT_TIMEOUT)], Granted)
    case Release(key, caller, priority) =>
      if key !in m then (m, NoSuchLock)
      else if m[key].owner != caller && Rank(priority) < Rank(User) then (m, NotOwner)
      else (m - {key}, Released)
    case IsLocked(key) =>
      if key in m && Expired(m[key], now) then (m - {key}, Locked(false)) else (m, Locked(key in m))
    case List => (Live(m, now), Listing(Listed(Live(m, now), now)))
    case Sweep => (Live(m, now), Swept(|m| - |Live(m, now)|))
  }

  /** The shared lock table. */
  class Manager {
    var locks: Table

    constructor ()
      ensures locks == map[]
    {
      locks := map[];
    }

    method Acquire(now: nat, key: Key, owner: string, priority: Priority, timeout: Option<nat>) returns (ok: bool)
      modifies this
      ensures (locks, if ok then Granted else Refused)
           == Apply(old(locks), now, Op.Acquire(key, owner, priority, timeout))
    {
      var t := if timeout.Some? then timeout.value else DEFAULT_TIMEOUT;
      if key in locks {
        var existing := locks[key];
        if !Expired(existing, now) {
          if existing.owner == owner {
            locks := locks[key := Entry(owner, priority, now, t)];
            return true;
          }
          if Rank(existing.priority) >= Rank(priority) {
            return false;
          }
        }
      }
      locks := locks[key := Entry(owner, priority, now, t)];
      return true;
    }

    method Release(now: nat, key: Key, caller: string, priority: Priority) returns (answer: Answer)
      modifies this
      ensures (locks, answer) == Apply(old(locks), now, Op.Release(key, caller, priority))
    {
      if key !in locks {
        return NoSuchLock;
      }
      if locks[key].owner != caller && Rank(priority) < Rank(User) {
        return NotOwner;
      }
      locks := locks - {key};
      return Released;
    }

    method IsLocked(now: nat, key: Key) returns (held: bool)
      modifies this
      ensures (locks, Locked(held)) == Apply(old(locks), now, Op.IsLocked(key))
    {
      if key in locks {
        if Expired(locks[key], now) {
          locks := locks - {key};
          return false;
        }
        return true;
      }
      return false;
    }

    /** Removes the expired keys one by one, then reports what is left. */
    method List(now: nat) returns (all: set<Status>)
      modifies this
      ensures (locks, Listing(all)) == Apply(old(locks), now, Op.List)
    {
      var expired := set k | k in locks && Expired(locks[k], now);
      ghost var start := locks;
      while expired != {}
        invariant locks.Keys <= start.Keys && forall k :: k in locks ==> locks[k] == start[k]
        invariant expired <= locks.Keys && forall k :: k in expired ==> Expired(locks[k], now)
        invariant forall k :: k in start && k !in locks ==> Expired(start[k], now)
        invariant forall k :: k in locks && k !in expired ==> !Expired(locks[k], now)
        decreases expired
      {
        var k :| k in expired;
        expired := expired - {k};
        locks := locks - {k};
      }
      assert locks == Live(start, now);
      return set k | k in locks :: StatusOf(k, locks[k], now);
    }

    method SweepExpired(now: nat) returns (evicted: nat)
      modifies this
      ensures (locks, Swept(evicted)) == Apply(old(locks), now, Op.Sweep)
    {
      var before := |locks|;
      locks := map k | k in locks && !Expired(locks[k], now) :: locks[k];
      assert locks == Live(old(locks), now);
      return before - |locks|;
    }
  }

  // ----- lazy expiry refines eager expiry -----

  /** An operation that removes nothing but what it is told to: no purging of expired entries.
      A sweep does nothing. */
  function Core(m: Table, now: nat, op: Op): (Table, Answer) {
    match op
    case Acquire(_, _, _, _) => Apply(m, now, op)
    case Release(_, _, _) => Apply(m, now, op)
    case IsLocked(key) => (m, Locked(Holds(m, key, now)))
    case List => (m, Listing(Listed(Live(m, now), now)))
    case Sweep => (m, Swept(0))
  }

  /** The table without those of the given keys whose entries have expired. */
  function Purge(m: Table, now: nat, keys: set<Key>): Table {
    map k | k in m && !(k in keys && Expired(m[k], now)) :: m[k]
  }

  /** The keys an operation of the manager looks at for purging. */
  function PurgedBy(m: Table, op: Op): set<Key> {
    match op
    case IsLocked(key) => {key}
    case List => m.Keys
    case Sweep => m.Keys
    case _ => {}
  }

  /** The manager's operations are the purge-free ones followed by a purge. */
  lemma ApplyIsCoreThenPurge(m: Table, now: nat, op: Op)
    ensures Apply(m, now, op).0 == Purge(Core(m, now, op).0, now, PurgedBy(m, op))
    ensures op != Sweep ==> Apply(m, now, op).1 == Core(m, now, op).1
  {
  }

  /** One step of a run: the time, the operation, and the expired entries dropped after it. */
  datatype Event = Event(now: nat, op: Op, purge: set<Key>)

  function Step(m: Table, e: Event): (Table, Answer) {
    var (m', a) := Core(m, e.now, e.op);
    (Purge(m', e.now, e.purge), a)
  }

  predicate Ordered(events: seq<Event>, start: nat) {
    events == [] || (start <= events[0].now && Ordered(events[1..], events[0].now))
  }

  /** The last time of a run that started at `start`. */
  function EndTime(events: seq<Event>, start: nat): nat {
    if events == [] then start else EndTime(events[1..], events[0].now)
  }

  function RunTable(m: Table, events: seq<Event>): Table
    decreases |events|
  {
    if events == [] then m else RunTable(Step(m, events[0]).0, events[1..])
  }

  /** The operations and answers of a run, sweeps left out. */
  function RunAnswers(m: Table, events: seq<Event>): seq<(Op, Answer)>
    decreases |events|
  {
    if events == [] then []
    else (if events[0].op == Sweep then [] else [(events[0].op, Step(m, events[0]).1)])
         + RunAnswers(Step(m, events[0]).0, events[1..])
  }

  /** What a caller sees of a run: times and operations, not the sweeps. */
  function Visible(events: seq<Event>): seq<(nat, Op)> {
    if events == [] then []
    else (if events[0].op == Sweep then [] else [(events[0].now, events[0].op)]) + Visible(events[1..])
  }

  /** The reference: expired entries are dropped before every operation. */
  function EagerTable(m: Table, ops: seq<(nat, Op)>): Table
    decreases |ops|
  {
    if ops == [] then m else EagerTable(Core(Live(m, ops[0].0), ops[0].0, ops[0].1).0, ops[1..])
  }

  function EagerAnswers(m: Table, ops: seq<(nat, Op)>): (r: seq<(Op, Answer)>)
    ensures |r| == |ops|
    decreases |ops|
  {
    if ops == [] then []
    else
      var (m', a) := Core(Live(m, ops[0].0), ops[0].0, ops[0].1);
      [(ops[0].1, a)] + EagerAnswers(m', ops[1..])
  }

  /** The same answer, or a release of a lock that no longer counts. */
  predicate Agrees(lazy: (Op, Answer), eager: (Op, Answer)) {
    lazy.0 == eager.0 && (lazy.1 == eager.1 || (lazy.0.Release? && eager.1 == NoSuchLock))
  }

  predicate AllAgree(lazy: seq<(Op, Answer)>, eager: seq<(Op, Answer)>) {
    |lazy| == |eager| && forall i :: 0 <= i < |lazy| ==> Agrees(lazy[i], eager[i])
  }

  /** Two tables that no operation from `now` on can tell apart by their unexpired entries. */
  predicate SameLive(a: Table, b: Table, now: nat) {
    Live(a, now) == Live(b, now)
  }

  lemma SameLiveLater(a: Table, b: Table, now: nat, later: nat)
    requires SameLive(a, b, now) && now <= later
    ensures SameLive(a, b, later)
  {
    forall k | k in Live(a, later) || k in Live(b, later)
      ensures k in Live(a, now) && k in Live(b, now)
    {
    }
    assert Live(a, later) == Live(Live(a, now), later);
    assert Live(b, later) == Live(Live(b, now), later);
  }

  lemma PurgeKeepsLive(m: Table, now: nat, keys: set<Key>)
    ensures SameLive(Purge(m, now, keys), m, now)
  {
  }

  lemma SameLiveHolds(a: Table, b: Table, now: nat, key: Key)
    requires SameLive(a, b, now)
    ensures Holds(a, key, now) <==> Holds(b, key, now)
    ensures Holds(a, key, now) ==> a[key] == b[key]
  {
    assert key in Live(a, now) <==> key in Live(b, now);
  }

  lemma CoreAnswersAlike(a: Table, b: Table, now: nat, op: Op)
    requires SameLive(a, b, now)
    ensures !op.Release? || Holds(a, op.key, now) ==> Core(a, now, op).1 == Core(b, now, op).1
  {
    if op.Acquire? || op.Release? || op.IsLocked? {
      SameLiveHolds(a, b, now, op.key);
    }
    hide Live;
  }

  lemma CoreChangesAlike(a: Table, b: Table, now: nat, op: Op, k: Key)
    requires SameLive(a, b, now)
    ensures var x, y := Core(a, now, op).0, Core(b, now, op).0;
            (Holds(x, k, now) <==> Holds(y, k, now)) && (Holds(x, k, now) ==> x[k] == y[k])
  {
    if op.Acquire? || op.Release? || op.IsLocked? {
      SameLiveHolds(a, b, now, op.key);
    }
    SameLiveHolds(a, b, now, k);
    hide Live, Listed, SameLive;
  }

  lemma SameLiveIf(x: Table, y: Table, now: nat)
    requires forall k :: (Holds(x, k, now) <==> Holds(y, k, now)) && (Holds(x, k, now) ==> x[k] == y[k])
    ensures SameLive(x, y, now)
  {
  }

  lemma CoreKeepsSameLive(a: Table, b: Table, now: nat, op: Op)
    requires SameLive(a, b, now)
    ensures SameLive(Core(a, now, op).0, Core(b, now, op).0, now)
    ensures !op.Release? ==> Core(a, now, op).1 == Core(b, now, op).1
    ensures op.Release? && Holds(a, op.key, now) ==> Core(a, now, op).1 == Core(b, now, op).1
  {
    hide Core, Live, Listed, SameLive;
    CoreAnswersAlike(a, b, now, op);
    var x, y := Core(a, now, op).0, Core(b, now, op).0;
    forall k ensures (Holds(x, k, now) <==> Holds(y, k, now)) && (Holds(x, k, now) ==> x[k] == y[k]) {
      CoreChangesAlike(a, b, now, op, k);
    }
    SameLiveIf(x, y, now);
  }

  lemma EagerStep(m: Table, live: Table, now: nat, op: Op)
    requires live == Live(m, now)
    ensures Agrees((op, Core(m, now, op).1), (op, Core(live, now, op).1))
    ensures SameLive(Core(m, now, op).0, Core(live, now, op).0, now)
  {
    assert SameLive(m, live, now);
    CoreKeepsSameLive(m, live, now, op);
  }

  lemma AgreeCons(x: (Op, Answer), xs: seq<(Op, Answer)>, y: (Op, Answer), ys: seq<(Op, Answer)>)
    requires Agrees(x, y) && AllAgree(xs, ys)
    ensures AllAgree([x] + xs, [y] + ys)
  {
  }

  /** Over any run, whatever is purged and whenever it is swept, every answer is the eager one,
      and the same entries count afterwards; only the release of a lock that has expired may be
      answered differently. */
  lemma {:induction false} LazyRefinesEager(m: Table, m0: Table, events: seq<Event>, start: nat)
    requires Ordered(events, start) && SameLive(m, m0, start)
    ensures AllAgree(RunAnswers(m, events), EagerAnswers(m0, Visible(events)))
    ensures SameLive(RunTable(m, events), EagerTable(m0, Visible(events)), EndTime(events, start))
    decreases |events|
  {
    if events != [] {
      hide Core, Agrees, AllAgree, SameLive, Live, Purge;
      var e := events[0];
      var m1 := Step(m, e).0;
      PurgeKeepsLive(Core(m, e.now, e.op).0, e.now, e.purge);
      SameLiveLater(m, m0, start, e.now);
      if e.op == Sweep {
        SweepStep(m, m0, e);
        LazyRefinesEager(m1, m0, events[1..], e.now);
        assert [] + RunAnswers(m1, events[1..]) == RunAnswers(m1, events[1..]);
        assert [] + Visible(events[1..]) == Visible(events[1..]);
      } else {
        VisibleStep(m, m0, e);
        var (m2, a) := Core(Live(m0, e.now), e.now, e.op);
        LazyRefinesEager(m1, m2, events[1..], e.now);
        AgreeCons((e.op, Step(m, e).1), RunAnswers(m1, events[1..]), (e.op, a), EagerAnswers(m2, Visible(events[1..])));
        assert Visible(events)[1..] == Visible(events[1..]);
      }
    } else {
      assert AllAgree([], []);
    }
  }

  lemma SweepStep(m: Table, m0: Table, e: Event)
    requires e.op == Sweep && SameLive(m, m0, e.now)
    ensures SameLive(Step(m, e).0, m0, e.now)
  {
    PurgeKeepsLive(m, e.now, e.purge);
  }

  lemma VisibleStep(m: Table, m0: Table, e: Event)
    requires SameLive(m, m0, e.now)
    ensures SameLive(Step(m, e).0, Core(Live(m0, e.now), e.now, e.op).0, e.now)
    ensures Agrees((e.op, Step(m, e).1), (e.op, Core(Live(m0, e.now), e.now, e.op).1))
  {
    hide Core, Agrees;
    EagerStep(m, Live(m0, e.now), e.now, e.op);
    PurgeKeepsLive(Core(m, e.now, e.op).0, e.now, e.purge);
  }

  /** Equal answers, or answers to a release of a lock that the reference no longer has. */
  predicate SameAnswers(x: seq<(Op, Answer)>, y: seq<(Op, Answer)>, eager: seq<(Op, Answer)>) {
    |x| == |y| == |eager| &&
    forall i :: 0 <= i < |x| ==> x[i] == y[i] || (x[i].0.Release? && y[i].0 == x[i].0 && eager[i].1 == NoSuchLock)
  }

  lemma AgreeingRuns(x: seq<(Op, Answer)>, y: seq<(Op, Answer)>, eager: seq<(Op, Answer)>)
    requires AllAgree(x, eager) && AllAgree(y, eager)
    ensures SameAnswers(x, y, eager)
  {
    forall i | 0 <= i < |x|
      ensures x[i] == y[i] || (x[i].0.Release? && y[i].0 == x[i].0 && eager[i].1 == NoSuchLock)
    {
      assert Agrees(x[i], eager[i]) && Agrees(y[i], eager[i]);
    }
  }

  /** Two runs of the same visible operations, with sweeps and purges in different places, give
      the same answers but for releases of locks that have expired, and leave the same locks. */
  lemma SweepsAreInvisible(m: Table, a: seq<Event>, b: seq<Event>, start: nat, later: nat)
    requires Ordered(a, start) && Ordered(b, start) && Visible(a) == Visible(b)
    requires EndTime(a, start) <= later && EndTime(b, start) <= later
    ensures SameAnswers(RunAnswers(m, a), RunAnswers(m, b), EagerAnswers(m, Visible(a)))
    ensures SameLive(RunTable(m, a), RunTable(m, b), later)
  {
    hide *;
    SameLiveRefl(m, start);
    LazyRefinesEager(m, m, a, start);
    LazyRefinesEager(m, m, b, start);
    AgreeingRuns(RunAnswers(m, a), RunAnswers(m, b), EagerAnswers(m, Visible(a)));
    SameLiveLater(RunTable(m, a), EagerTable(m, Visible(a)), EndTime(a, start), later);
    SameLiveLater(RunTable(m, b), EagerTable(m, Visible(b)), EndTime(b, start), later);
    SameLiveJoin(RunTable(m, a), EagerTable(m, Visible(a)), RunTable(m, b), later);
  }

  lemma SameLiveRefl(m: Table, now: nat)
    ensures SameLive(m, m, now)
  {
  }

  lemma SameLiveJoin(a: Table, e: Table, b: Table, now: nat)
    requires SameLive(a, e, now) && SameLive(b, e, now)
    ensures SameLive(a, b, now)
  {
  }

  /** The table after a run of the manager's own operations. */
  function ManagerRun(m: Table, ops: seq<(nat, Op)>): Table
    decreases |ops|
  {
    if ops == [] then m else ManagerRun(Apply(m, ops[0].0, ops[0].1).0, ops[1..])
  }

  /** The manager's answers, those of its sweeps left out. */
  function ManagerAnswers(m: Table, ops: seq<(nat, Op)>): seq<(Op, Answer)>
    decreases |ops|
  {
    if ops == [] then []
    else (if ops[0].1 == Sweep then [] else [(ops[0].1, Apply(m, ops[0].0, ops[0].1).1)])
         + ManagerAnswers(Apply(m, ops[0].0, ops[0].1).0, ops[1..])
  }

  function ManagerEvents(m: Table, ops: seq<(nat, Op)>): seq<Event>
    decreases |ops|
  {
    if ops == [] then []
    else [Event(ops[0].0, ops[0].1, PurgedBy(m, ops[0].1))]
         + ManagerEvents(Apply(m, ops[0].0, ops[0].1).0, ops[1..])
  }

  /** The manager's runs, with the purging of `is_locked`, `list` and the sweeper, are runs of the
      kind that refines the eager reference. */
  lemma {:induction false} ManagerRunsArePurgingRuns(m: Table, ops: seq<(nat, Op)>)
    ensures RunTable(m, ManagerEvents(m, ops)) == ManagerRun(m, ops)
    ensures RunAnswers(m, ManagerEvents(m, ops)) == ManagerAnswers(m, ops)
    decreases |ops|
  {
    if ops != [] {
      hide Apply, Core, Purge, PurgedBy;
      var e := Event(ops[0].0, ops[0].1, PurgedBy(m, ops[0].1));
      ApplyIsCoreThenPurge(m, ops[0].0, ops[0].1);
      var m' := Apply(m, ops[0].0, ops[0].1).0;
      ManagerRunsArePurgingRuns(m', ops[1..]);
      assert ManagerEvents(m, ops)[0] == e && ManagerEvents(m, ops)[1..] == ManagerEvents(m', ops[1..]);
    }
  }

  // ----- who may take a lock away -----

  /** The operation takes the key from the owner of entry e: by a strictly higher priority, or by
      a release that the owner or a User-priority caller asks for. */
  predicate MayTake(key: Key, e: Entry, op: Op) {
    || (op.Acquire? && op.key == key && op.owner != e.owner && Rank(op.priority) > Rank(e.priority))
    || (op.Release? && op.key == key && (op.caller == e.owner || op.callerPriority == User))
  }

  /** The owner asks again for its own lock. */
  predicate Refreshes(key: Key, e: Entry, op: Op) {
    op.Acquire? && op.key == key && op.owner == e.owner
  }

  /** An unexpired entry leaves the table, or is replaced, only in these three ways. */
  lemma EntryChanges(m: Table, now: nat, op: Op, key: Key)
    requires Holds(m, key, now)
    ensures var m' := Apply(m, now, op).0;
      && (MayTake(key, m[key], op) <==> key !in m' || m'[key].owner != m[key].owner)
      && (MayTake(key, m[key], op) && op.Acquire? ==>
            Holds(m', key, now) && m'[key].owner == op.owner && m'[key].priority == op.priority)
      && (!MayTake(key, m[key], op) && !Refreshes(key, m[key], op) ==> key in m' && m'[key] == m[key])
  {
  }

  /** A refused or failed operation changes nothing. */
  lemma RefusedChangesNothing(m: Table, now: nat, op: Op)
    requires Apply(m, now, op).1 in {Refused, NoSuchLock, NotOwner}
    ensures Apply(m, now, op).0 == m
  {
  }

  /** The key's lock never expires before an operation of the run, and no operation satisfies
      `bad` for the entry it meets. */
  predicate Unbroken(m: Table, ops: seq<(nat, Op)>, key: Key, bad: (Entry, Op) -> bool)
    decreases |ops|
  {
    ops == [] || (Holds(m, key, ops[0].0) && !bad(m[key], ops[0].1)
                  && Unbroken(Apply(m, ops[0].0, ops[0].1).0, ops[1..], key, bad))
  }

  /** Over any run: as long as a lock does not expire and nobody entitled takes it, it stays with
      its owner. */
  lemma {:induction false} OwnerKeepsLock(m: Table, ops: seq<(nat, Op)>, key: Key)
    requires key in m && Unbroken(m, ops, key, (e, op) => MayTake(key, e, op))
    ensures key in ManagerRun(m, ops) && ManagerRun(m, ops)[key].owner == m[key].owner
    decreases |ops|
  {
    hide MayTake, Apply;
    if ops != [] {
      EntryChanges(m, ops[0].0, ops[0].1, key);
      OwnerKeepsLock(Apply(m, ops[0].0, ops[0].1).0, ops[1..], key);
    }
  }

  /** How often the key's owner changes in a run that keeps the key. */
  function OwnerChanges(m: Table, ops: seq<(nat, Op)>, key: Key): nat
    decreases |ops|
  {
    if ops == [] then 0
    else
      var m' := Apply(m, ops[0].0, ops[0].1).0;
      (if key in m && key in m' && m[key].owner == m'[key].owner then 0 else 1)
      + OwnerChanges(m', ops[1..], key)
  }

  /** Without expiry, release or refresh in between, every change of owner raises the priority,
      so there are at most two. */
  lemma {:induction false} AtMostTwoChanges(m: Table, ops: seq<(nat, Op)>, key: Key)
    requires key in m
    requires Unbroken(m, ops, key, (e, op) => Refreshes(key, e, op) || (op.Release? && MayTake(key, e, op)))
    ensures OwnerChanges(m, ops, key) <= Rank(User) - Rank(m[key].priority)
    decreases |ops|
  {
    if ops != [] {
      var m' := Apply(m, ops[0].0, ops[0].1).0;
      EntryChanges(m, ops[0].0, ops[0].1, key);
      hide Apply;
      AtMostTwoChanges(m', ops[1..], key);
    }
  }

  /** The bound needs the last condition: an owner that refreshes its lock at a lower priority
      opens it to the next one, here for three changes. */
  lemma RefreshLowersPriority()
    ensures var k := Task("t");
      var m: Table := map[k := Entry("a", Automation, 0, 9)];
      var ops := [(0, Op.Acquire(k, "b", Agent, None)), (0, Op.Acquire(k, "b", Automation, None)),
                  (0, Op.Acquire(k, "c", Agent, None)), (0, Op.Acquire(k, "c", Automation, None)),
                  (0, Op.Acquire(k, "d", Agent, None))];
      OwnerChanges(m, ops, k) == 3
  {
    var k := Task("t");
    var m0: Table := map[k := Entry("a", Automation, 0, 9)];
    var ops := [(0, Op.Acquire(k, "b", Agent, None)), (0, Op.Acquire(k, "b", Automation, None)),
                (0, Op.Acquire(k, "c", Agent, None)), (0, Op.Acquire(k, "c", Automation, None)),
                (0, Op.Acquire(k, "d", Agent, None))];
    var m1 := Apply(m0, 0, ops[0].1).0;
    var m2 := Apply(m1, 0, ops[1].1).0;
    var m3 := Apply(m2, 0, ops[2].1).0;
    var m4 := Apply(m3, 0, ops[3].1).0;
    var m5 := Apply(m4, 0, ops[4].1).0;
    assert m1[k].owner == "b" && m2[k].owner == "b" && m3[k].owner == "c" && m4[k].owner == "c" && m5[k].owner == "d";
    hide Apply;
    assert OwnerChanges(m5, ops[5..], k) == 0;
    assert OwnerChanges(m4, ops[4..], k) == 1;
    assert OwnerChanges(m3, ops[3..], k) == 1;
    assert OwnerChanges(m2, ops[2..], k) == 2;
    assert OwnerChanges(m1, ops[1..], k) == 2;
    assert ops[0..] == ops;
  }
}
