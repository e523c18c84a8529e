/** What the lock manager answers, told by the history of calls alone: who was granted a lock when
    and for how long, and what was released or purged since. */
module LockHistory {
  import opened Seqs
  import opened LockManager

  // ----- histories -----

  /** A call with its time and its answer. */
  datatype Call = Call(now: nat, op: Op, answer: Answer)

  /** The calls of a run of the manager, with its answers. */
  function History(m: Table, ops: seq<(nat, Op)>): (h: seq<Call>)
    ensures |h| == |ops|
    decreases |ops|
  {
    if ops == [] then []
    else
      var (m', answer) := Apply(m, ops[0].0, ops[0].1);
      [Call(ops[0].0, ops[0].1, answer)] + History(m', ops[1..])
  }

  /** The call granted the lock. */
  predicate Grants(c: Call, key: Key) {
    c.op.Acquire? && c.op.key == key && c.answer == Granted
  }

  predicate Frees(c: Call, key: Key) {
    c.op.Release? && c.op.key == key && c.answer == Released
  }

  /** The i-th call granted the lock, and no call behind it granted or freed it. */
  predicate Standing(h: seq<Call>, i: nat, key: Key) {
    i < |h| && Grants(h[i], key) && forall j :: i < j < |h| ==> !Grants(h[j], key) && !Frees(h[j], key)
  }

  /** The grant counts: no more time has passed than was asked for, or thirty seconds. */
  predicate InTime(c: Call, now: nat) {
    c.op.Acquire? && now <= c.now + if c.op.timeout.Some? then c.op.timeout.value else 30_000_000_000
  }

  /** The call looks at the key and drops what has run out. */
  predicate LooksAt(op: Op, key: Key) {
    op == IsLocked(key) || op == List || op == Sweep
  }

  /** A call behind the i-th has found its grant run out and dropped it. */
  predicate Dropped(h: seq<Call>, i: nat, key: Key)
    requires i < |h|
  {
    exists j :: i < j < |h| && LooksAt(h[j].op, key) && !InTime(h[i], h[j].now)
  }

  /** The lock is held by the i-th call's owner. */
  predicate HeldBy(h: seq<Call>, i: nat, key: Key, now: nat) {
    Standing(h, i, key) && InTime(h[i], now)
  }

  /** The i-th call's grant is in the table, whether it counts or not. */
  predicate Kept(h: seq<Call>, i: nat, key: Key) {
    Standing(h, i, key) && !Dropped(h, i, key)
  }

  predicate Outranks(p: Priority, q: Priority) {
    (p == User && q != User) || (p == Agent && q == Automation)
  }

  predicate MayRelease(c: Call, caller: string, priority: Priority) {
    c.op.Acquire? && (c.op.owner == caller || priority == User)
  }

  /** The seconds that have passed since the call. */
  function SecondsSince(c: Call, now: nat): nat {
    if now < c.now then 0 else (now - c.now) / 1_000_000_000
  }

  function SecondsAsked(c: Call): nat
    requires c.op.Acquire?
  {
    if c.op.timeout.Some? then c.op.timeout.value / 1_000_000_000 else 30
  }

  /** The status reports the i-th call's grant. */
  predicate Reports(s: Status, h: seq<Call>, i: nat, now: nat) {
    HeldBy(h, i, s.key, now) && s.owner == h[i].op.owner && s.priority == h[i].op.priority
    && s.elapsedSecs == SecondsSince(h[i], now) && s.timeoutSecs == SecondsAsked(h[i])
  }

  /** A grant of the key has run out and is still in the table. */
  predicate RunOut(h: seq<Call>, key: Key, now: nat) {
    exists i :: 0 <= i < |h| && Kept(h, i, key) && !InTime(h[i], now)
  }

  ghost predicate AreRunOut(h: seq<Call>, keys: set<Key>, now: nat) {
    forall k :: k in keys <==> RunOut(h, k, now)
  }

  /** The answer to a call after a history. */
  ghost predicate Answers(h: seq<Call>, now: nat, op: Op, answer: Answer) {
    match op
    case Acquire(key, owner, priority, _) =>
      answer == if exists i :: 0 <= i < |h| && HeldBy(h, i, key, now) && h[i].op.owner != owner
                               && !Outranks(priority, h[i].op.priority)
                then Refused else Granted
    case Release(key, caller, priority) =>
      if exists i :: 0 <= i < |h| && Kept(h, i, key) then
        answer == if exists i :: 0 <= i < |h| && Kept(h, i, key) && MayRelease(h[i], caller, priority)
                  then Released else NotOwner
      else answer == NoSuchLock
    case IsLocked(key) => answer == Locked(exists i :: 0 <= i < |h| && HeldBy(h, i, key, now))
    case List =>
      answer.Listing? && forall s :: s in answer.locks <==> exists i :: 0 <= i < |h| && Reports(s, h, i, now)
    case Sweep =>
      answer.Swept? && exists keys: set<Key> :: |keys| == answer.count && AreRunOut(h, keys, now)
  }

  // ----- the table and the history -----

  /** The table has the grants that stand and were not dropped, as they were given. */
  ghost predicate Mirrors(m: Table, h: seq<Call>) {
    forall k :: MirrorsKey(m, h, k)
  }

  ghost predicate MirrorsKey(m: Table, h: seq<Call>, k: Key) {
    (k in m ==> exists i :: 0 <= i < |h| && Kept(h, i, k)) &&
    (forall i :: 0 <= i < |h| && Kept(h, i, k) ==> k in m && SameGrant(m[k], h[i]))
  }

  predicate SameGrant(e: Entry, c: Call) {
    c.op.Acquire? && e.owner == c.op.owner && e.priority == c.op.priority && e.acquiredAt == c.now
    && e.timeout == if c.op.timeout.Some? then c.op.timeout.value else 30_000_000_000
  }

  lemma SameGrantTimes(e: Entry, c: Call, now: nat)
    requires SameGrant(e, c)
    ensures Expired(e, now) <==> !InTime(c, now)
  {
  }

  lemma KeptBefore(h: seq<Call>, c: Call, i: nat, k: Key)
    requires i < |h|
    ensures Kept(h + [c], i, k) <==>
      (Kept(h, i, k) && !Grants(c, k) && !Frees(c, k) && !(LooksAt(c.op, k) && !InTime(h[i], c.now)))
  {
    hide Grants, Frees, LooksAt, InTime;
    var all := h + [c];
    assert all[i] == h[i] && all[|h|] == c;
    assert forall j :: i < j < |h| ==> all[j] == h[j];
    if Dropped(h, i, k) {
      var j :| i < j < |h| && LooksAt(h[j].op, k) && !InTime(h[i], h[j].now);
      assert LooksAt(all[j].op, k) && !InTime(all[i], all[j].now);
    }
    if LooksAt(c.op, k) && !InTime(h[i], c.now) {
      assert LooksAt(all[|h|].op, k) && !InTime(all[i], all[|h|].now);
    }
  }

  lemma KeptLast(h: seq<Call>, c: Call, k: Key)
    ensures Kept(h + [c], |h|, k) <==> Grants(c, k)
  {
  }

  /** What an operation does to one key, and what is left alone. */
  lemma EffectOn(m: Table, now: nat, op: Op, k: Key)
    ensures var (m', a) := Apply(m, now, op);
            var c := Call(now, op, a);
            if Grants(c, k) then k in m' && SameGrant(m'[k], c)
            else if Frees(c, k) || (LooksAt(op, k) && k in m && Expired(m[k], now)) then k !in m'
            else (k in m' <==> k in m) && (k in m ==> m'[k] == m[k])
  {
  }

  lemma MirrorStep(m: Table, h: seq<Call>, now: nat, op: Op, k: Key)
    requires MirrorsKey(m, h, k)
    ensures var (m', a) := Apply(m, now, op); MirrorsKey(m', h + [Call(now, op, a)], k)
  {
    hide Apply, Kept, Grants, Frees, LooksAt, SameGrant, Expired, InTime;
    var (m', a) := Apply(m, now, op);
    var c := Call(now, op, a);
    var all := h + [c];
    EffectOn(m, now, op, k);
    KeptLast(h, c, k);
    forall i | 0 <= i < |h|
      ensures Kept(all, i, k) <==>
        (Kept(h, i, k) && !Grants(c, k) && !Frees(c, k) && !(LooksAt(c.op, k) && !InTime(h[i], c.now)))
      ensures Kept(h, i, k) ==> k in m && (Expired(m[k], now) <==> !InTime(h[i], now))
    {
      KeptBefore(h, c, i, k);
      if Kept(h, i, k) { SameGrantTimes(m[k], h[i], now); }
    }
    if k in m' {
      if Grants(c, k) {
        assert Kept(all, |h|, k);
      } else {
        var i :| 0 <= i < |h| && Kept(h, i, k);
        assert Kept(all, i, k);
      }
    }
    forall i | 0 <= i < |all| && Kept(all, i, k) ensures k in m' && SameGrant(m'[k], all[i]) {
      assert i < |h| ==> all[i] == h[i];
    }
  }

  predicate Timed(h: seq<Call>, now: nat) {
    forall i :: 0 <= i < |h| ==> h[i].now <= now && TimedAt(h, i)
  }

  predicate TimedAt(h: seq<Call>, i: nat)
    requires i < |h|
  {
    forall j :: 0 <= j < i ==> h[j].now <= h[i].now
  }

  /** What counts now counted at every call before, so that nobody has dropped it. */
  lemma HeldIsKept(h: seq<Call>, i: nat, k: Key, now: nat)
    requires Timed(h, now)
    ensures HeldBy(h, i, k, now) <==> (Kept(h, i, k) && InTime(h[i], now))
  {
    hide Grants, Frees, LooksAt, TimedAt;
    forall j | i < j < |h| && InTime(h[i], now) ensures InTime(h[i], h[j].now) {
      assert h[j].now <= now;
    }
  }

  /** The entry of a key and the grant it mirrors. */
  lemma EntryIs(m: Table, h: seq<Call>, k: Key, now: nat)
    requires MirrorsKey(m, h, k) && Timed(h, now)
    ensures k in m <==> exists i :: 0 <= i < |h| && Kept(h, i, k)
    ensures forall i :: 0 <= i < |h| && Kept(h, i, k) ==>
      k in m && SameGrant(m[k], h[i]) && (Expired(m[k], now) <==> !InTime(h[i], now))
    ensures forall i :: 0 <= i < |h| ==> (HeldBy(h, i, k, now) <==> (Kept(h, i, k) && InTime(h[i], now)))
    ensures Holds(m, k, now) <==> exists i :: 0 <= i < |h| && HeldBy(h, i, k, now)
  {
    hide Kept, HeldBy, InTime, SameGrant, Expired, Timed;
    forall i | 0 <= i < |h| ensures HeldBy(h, i, k, now) <==> (Kept(h, i, k) && InTime(h[i], now)) {
      HeldIsKept(h, i, k, now);
    }
    forall i | 0 <= i < |h| && Kept(h, i, k) ensures k in m && (Expired(m[k], now) <==> !InTime(h[i], now)) {
      SameGrantTimes(m[k], h[i], now);
    }
    if k in m {
      var i :| 0 <= i < |h| && Kept(h, i, k);
      assert Holds(m, k, now) ==> HeldBy(h, i, k, now);
    }
  }

  lemma AcquireAnswer(m: Table, h: seq<Call>, now: nat, key: Key, owner: string, priority: Priority, timeout: Option<nat>)
    requires MirrorsKey(m, h, key) && Timed(h, now)
    ensures var op := Op.Acquire(key, owner, priority, timeout); Answers(h, now, op, Apply(m, now, op).1)
  {
    EntryIs(m, h, key, now);
    hide Kept, HeldBy, InTime, Expired, Timed, MirrorsKey;
    if Blocked(m, now, key, owner, priority) {
      var i :| 0 <= i < |h| && HeldBy(h, i, key, now);
      assert h[i].op.owner != owner && !Outranks(priority, h[i].op.priority);
    }
  }

  lemma ReleaseAnswer(m: Table, h: seq<Call>, now: nat, key: Key, caller: string, priority: Priority)
    requires MirrorsKey(m, h, key) && Timed(h, now)
    ensures var op := Op.Release(key, caller, priority); Answers(h, now, op, Apply(m, now, op).1)
  {
    EntryIs(m, h, key, now);
    hide Kept, HeldBy, InTime, Expired, Timed, MirrorsKey;
    if key in m {
      var i :| 0 <= i < |h| && Kept(h, i, key);
      assert MayRelease(h[i], caller, priority) <==> m[key].owner == caller || priority == User;
    }
  }

  lemma IsLockedAnswer(m: Table, h: seq<Call>, now: nat, key: Key)
    requires MirrorsKey(m, h, key) && Timed(h, now)
    ensures Answers(h, now, IsLocked(key), Apply(m, now, IsLocked(key)).1)
  {
    EntryIs(m, h, key, now);
    hide Kept, HeldBy, InTime, Expired, Timed, MirrorsKey;
  }

  lemma ReportsIs(m: Table, h: seq<Call>, now: nat, s: Status)
    requires MirrorsKey(m, h, s.key) && Timed(h, now)
    ensures s in Listed(Live(m, now), now) <==> exists i :: 0 <= i < |h| && Reports(s, h, i, now)
  {
    var key := s.key;
    EntryIs(m, h, key, now);
    hide Kept, HeldBy, InTime, Expired, Timed, MirrorsKey, Live;
    assert s in Listed(Live(m, now), now) <==> Holds(m, key, now) && s == StatusOf(key, m[key], now);
    if Holds(m, key, now) {
      var i :| 0 <= i < |h| && HeldBy(h, i, key, now);
      StatusReports(s, m[key], h, i, now);
    }
    if i :| 0 <= i < |h| && Reports(s, h, i, now) {
      StatusReports(s, m[key], h, i, now);
    }
  }

  lemma StatusReports(s: Status, e: Entry, h: seq<Call>, i: nat, now: nat)
    requires i < |h| && HeldBy(h, i, s.key, now) && SameGrant(e, h[i])
    ensures s == StatusOf(s.key, e, now) <==> Reports(s, h, i, now)
  {
    hide HeldBy;
  }

  lemma ListAnswer(m: Table, h: seq<Call>, now: nat)
    requires Mirrors(m, h) && Timed(h, now)
    ensures Answers(h, now, List, Apply(m, now, List).1)
  {
    hide Listed, Live, MirrorsKey, Timed, Reports;
    forall s ensures s in Listed(Live(m, now), now) <==> exists i :: 0 <= i < |h| && Reports(s, h, i, now) {
      assert MirrorsKey(m, h, s.key);
      ReportsIs(m, h, now, s);
    }
  }

  lemma RunOutIs(m: Table, h: seq<Call>, now: nat, k: Key)
    requires MirrorsKey(m, h, k) && Timed(h, now)
    ensures k in m && Expired(m[k], now) <==> RunOut(h, k, now)
  {
    EntryIs(m, h, k, now);
    hide Kept, HeldBy, InTime, Expired, Timed, MirrorsKey, SameGrant;
  }

  lemma SweepAnswer(m: Table, h: seq<Call>, now: nat)
    requires Mirrors(m, h) && Timed(h, now)
    ensures Answers(h, now, Sweep, Apply(m, now, Sweep).1)
  {
    hide MirrorsKey, Timed, RunOut, Expired;
    var keys := set k | k in m && Expired(m[k], now);
    forall k ensures k in keys <==> RunOut(h, k, now) {
      assert MirrorsKey(m, h, k);
      RunOutIs(m, h, now, k);
    }
    SweptCount(m, now, keys);
    assert AreRunOut(h, keys, now);
  }

  lemma SweptCount(m: Table, now: nat, keys: set<Key>)
    requires keys == set k | k in m && Expired(m[k], now)
    ensures |keys| == |m| - |Live(m, now)|
  {
    hide Expired;
    assert Live(m, now).Keys == m.Keys - keys;
    assert |m| == |m.Keys| && |Live(m, now)| == |Live(m, now).Keys|;
  }

  lemma OneAnswer(m: Table, h: seq<Call>, now: nat, op: Op)
    requires Mirrors(m, h) && Timed(h, now)
    ensures Answers(h, now, op, Apply(m, now, op).1)
  {
    hide Answers, Apply, MirrorsKey, Timed;
    match op {
      case Acquire(key, owner, priority, timeout) =>
        assert MirrorsKey(m, h, key);
        AcquireAnswer(m, h, now, key, owner, priority, timeout);
      case Release(key, caller, priority) =>
        assert MirrorsKey(m, h, key);
        ReleaseAnswer(m, h, now, key, caller, priority);
      case IsLocked(key) =>
        assert MirrorsKey(m, h, key);
        IsLockedAnswer(m, h, now, key);
      case List => ListAnswer(m, h, now);
      case Sweep => SweepAnswer(m, h, now);
    }
  }

  // ----- whole runs -----

  lemma {:induction false} HistorySnoc(m: Table, ops: seq<(nat, Op)>, x: (nat, Op))
    ensures ManagerRun(m, ops + [x]) == Apply(ManagerRun(m, ops), x.0, x.1).0
    ensures History(m, ops + [x]) ==
      History(m, ops) + [Call(x.0, x.1, Apply(ManagerRun(m, ops), x.0, x.1).1)]
    decreases |ops|
  {
    hide Apply;
    if ops == [] {
      assert ops + [x] == [x] && [x][1..] == [];
    } else {
      assert (ops + [x])[1..] == ops[1..] + [x];
      HistorySnoc(Apply(m, ops[0].0, ops[0].1).0, ops[1..], x);
    }
  }

  /** Time does not run backwards. */
  predicate Forward(ops: seq<(nat, Op)>) {
    forall i, j :: 0 <= i < j < |ops| ==> ops[i].0 <= ops[j].0
  }

  lemma {:induction false} HistoryIs(m: Table, ops: seq<(nat, Op)>)
    ensures forall i :: 0 <= i < |ops| ==> History(m, ops)[i].now == ops[i].0 && History(m, ops)[i].op == ops[i].1
    decreases |ops|
  {
    hide Apply;
    if ops != [] {
      HistoryIs(Apply(m, ops[0].0, ops[0].1).0, ops[1..]);
    }
  }

  lemma {:induction false} HistoryTimed(ops: seq<(nat, Op)>, now: nat)
    requires Forward(ops) && forall i :: 0 <= i < |ops| ==> ops[i].0 <= now
    ensures Timed(History(map[], ops), now)
  {
    hide History;
    HistoryIs(map[], ops);
  }

  lemma {:induction false} HistoryMirrors(ops: seq<(nat, Op)>)
    ensures Mirrors(ManagerRun(map[], ops), History(map[], ops))
    decreases |ops|
  {
    hide Apply, MirrorsKey, History, ManagerRun;
    if ops == [] {
      NothingMirrored(ops);
    } else {
      var front, x := ops[..|ops| - 1], ops[|ops| - 1];
      assert ops == front + [x];
      HistoryMirrors(front);
      HistorySnoc(map[], front, x);
      forall k ensures MirrorsKey(ManagerRun(map[], ops), History(map[], ops), k) {
        assert MirrorsKey(ManagerRun(map[], front), History(map[], front), k);
        MirrorStep(ManagerRun(map[], front), History(map[], front), x.0, x.1, k);
      }
    }
  }

  lemma {:induction false} NothingMirrored(ops: seq<(nat, Op)>)
    requires ops == []
    ensures Mirrors(ManagerRun(map[], ops), History(map[], ops))
  {
  }

  /** Every answer of a run of a new manager follows from the calls before it and their answers. */
  lemma {:induction false} AnswersFollowHistory(ops: seq<(nat, Op)>, n: nat)
    requires Forward(ops) && n < |ops|
    ensures History(map[], ops)[n].now == ops[n].0 && History(map[], ops)[n].op == ops[n].1
    ensures Answers(History(map[], ops)[..n], ops[n].0, ops[n].1, History(map[], ops)[n].answer)
  {
    hide Apply, Answers, History, ManagerRun, Mirrors, Timed;
    var front, x := ops[..n], ops[n];
    HistoryIs(map[], ops);
    HistoryMirrors(front);
    HistoryTimed(front, x.0);
    HistorySnoc(map[], front, x);
    OneAnswer(ManagerRun(map[], front), History(map[], front), x.0, x.1);
    HistoryPrefix(map[], ops, n + 1);
    HistoryPrefix(map[], ops, n);
    assert ops[..n + 1] == front + [x];
    assert History(map[], ops)[..n + 1][n] == History(map[], ops)[n];
  }

  lemma {:induction false} HistoryPrefix(m: Table, ops: seq<(nat, Op)>, n: nat)
    requires n <= |ops|
    ensures History(m, ops)[..n] == History(m, ops[..n])
    decreases |ops|
  {
    hide Apply;
    if n > 0 {
      HistoryPrefix(Apply(m, ops[0].0, ops[0].1).0, ops[1..], n - 1);
      assert ops[..n][1..] == ops[1..][..n - 1];
    }
  }

  /** A granted lock is held by its owner, at its priority, from then on and until the time that
      was asked for, or thirty seconds, is over; as long as no call grants it again or frees it. */
  lemma {:induction false} GrantLasts(ops: seq<(nat, Op)>, i: nat, n: nat, key: Key)
    requires Forward(ops) && i < n < |ops| && ops[n].1 == IsLocked(key)
    requires Standing(History(map[], ops)[..n], i, key)
    ensures History(map[], ops)[n].answer ==
      Locked(ops[n].0 - ops[i].0 <=
             if ops[i].1.Acquire? && ops[i].1.timeout.Some? then ops[i].1.timeout.value else 30_000_000_000)
  {
    hide Apply, History, Standing;
    var h := History(map[], ops)[..n];
    AnswersFollowHistory(ops, n);
    HistoryIs(map[], ops);
    StandingIsOne(h, i, key);
    assert InTime(h[i], ops[n].0) ==> HeldBy(h, i, key, ops[n].0);
  }

  lemma StandingIsOne(h: seq<Call>, i: nat, key: Key)
    requires Standing(h, i, key)
    ensures h[i].op.Acquire? && forall j :: 0 <= j < |h| && Standing(h, j, key) ==> j == i
  {
  }
}
