/** context_budget.rs: a bounded walk over the source files of a project. */
module ContextBudget {
  import opened Seqs
  import Words

  datatype FileInfo = FileInfo(name: string, size: nat, modified: Option<int>)

  /** A directory entry. A directory may be unreadable; `Other` is a symbolic link, anything that is
      neither a file nor a directory, and an entry whose type or metadata cannot be read. */
  datatype Entry = File(info: FileInfo) | Dir(name: string, children: Listing) | Other(name: string)

  /** The entries of a directory in the order in which they are enumerated. */
  datatype Listing = Unreadable | Listed(entries: seq<Entry>)

  const SKIPPED_DIRS: seq<string> := ["target", "node_modules", "__pycache__", "dist"]

  predicate Skipped(name: string) {
    "." <= name || name in SKIPPED_DIRS
  }

  // ----- what the source files of a tree are -----

  /** The source files below one entry, depth first. */
  function FilesOf(e: Entry): seq<FileInfo>
    decreases e, 0
  {
    match e
    case File(info) => [info]
    case Dir(name, Listed(entries)) => if Skipped(name) then [] else FilesOfAll(entries)
    case _ => []
  }

  function FilesOfAll(es: seq<Entry>): seq<FileInfo>
    decreases es, 1
  {
    if es == [] then [] else FilesOf(es[0]) + FilesOfAll(es[1..])
  }

  function FilesBelow(d: Listing): seq<FileInfo> {
    match d
    case Unreadable => []
    case Listed(entries) => FilesOfAll(entries)
  }

  // ----- the source files by their paths -----

  /** A directory whose files are sources: not hidden, and none of the four that hold other things. */
  predicate HoldsSources(name: string) {
    !(name != "" && name[0] == '.') && name != "target" && name != "node_modules" && name != "__pycache__"
    && name != "dist"
  }

  /** The path, as positions in listings, leads to the file through directories that hold sources. */
  predicate LeadsTo(d: Listing, path: seq<nat>, f: FileInfo)
    decreases |path|
  {
    d.Listed? && path != [] && path[0] < |d.entries| &&
    match d.entries[path[0]]
    case File(info) => |path| == 1 && info == f
    case Dir(name, children) => HoldsSources(name) && LeadsTo(children, path[1..], f)
    case Other(_) => false
  }

  ghost predicate Leads(d: Listing, path: seq<nat>) {
    exists f :: LeadsTo(d, path, f)
  }

  /** The paths of a directory's entries from the n-th on, in the order of the files below them. */
  function PathsFrom(es: seq<Entry>, n: nat): seq<seq<nat>>
    requires n <= |es|
    decreases es, |es| - n, 1
  {
    if n == |es| then [] else PathsAt(es, n) + PathsFrom(es, n + 1)
  }

  function PathsAt(es: seq<Entry>, n: nat): seq<seq<nat>>
    requires n < |es|
    decreases es, |es| - n, 0
  {
    match es[n]
    case File(_) => [[n]]
    case Dir(name, Listed(entries)) => if HoldsSources(name) then Map(Under(n), PathsFrom(entries, 0)) else []
    case _ => []
  }

  function Under(n: nat): seq<nat> -> seq<nat> {
    (path: seq<nat>) => [n] + path
  }

  function PathsBelow(d: Listing): seq<seq<nat>> {
    match d
    case Unreadable => []
    case Listed(entries) => PathsFrom(entries, 0)
  }

  lemma SourceDirectory(name: string)
    ensures HoldsSources(name) <==> !Skipped(name)
  {
    assert SKIPPED_DIRS[0] in SKIPPED_DIRS && SKIPPED_DIRS[1] in SKIPPED_DIRS && SKIPPED_DIRS[2] in SKIPPED_DIRS
      && SKIPPED_DIRS[3] in SKIPPED_DIRS;
  }

  ghost predicate LeadsFrom(es: seq<Entry>, n: nat, path: seq<nat>) {
    path != [] && n <= path[0] && Leads(Listed(es), path)
  }

  predicate OnceEach(ps: seq<seq<nat>>) {
    forall i, j :: 0 <= i < j < |ps| ==> ps[i] != ps[j]
  }

  /** The i-th path leads to the i-th file. */
  predicate LeadToEach(d: Listing, ps: seq<seq<nat>>, fs: seq<FileInfo>) {
    |ps| == |fs| && forall i :: 0 <= i < |ps| ==> LeadsTo(d, ps[i], fs[i])
  }

  lemma MapUnder(n: nat, ps: seq<seq<nat>>)
    requires OnceEach(ps)
    ensures OnceEach(Map(Under(n), ps))
    ensures forall path :: path in Map(Under(n), ps) <==> path != [] && path[0] == n && path[1..] in ps
  {
    var qs := Map(Under(n), ps);
    forall i | 0 <= i < |qs| ensures qs[i][0] == n && qs[i][1..] == ps[i] {
      assert qs[i] == [n] + ps[i];
    }
    forall path | path != [] && path[0] == n && path[1..] in ps ensures path in qs {
      var i :| 0 <= i < |ps| && ps[i] == path[1..];
      assert qs[i] == path;
    }
  }

  lemma {:induction false} PathsAtAre(es: seq<Entry>, n: nat)
    requires n < |es|
    ensures LeadToEach(Listed(es), PathsAt(es, n), FilesOf(es[n])) && OnceEach(PathsAt(es, n))
    ensures forall path :: path in PathsAt(es, n) <==>
      path != [] && path[0] == n && Leads(Listed(es), path)
    decreases es, |es| - n, 0
  {
    hide HoldsSources, Skipped, FilesOfAll, PathsFrom;
    match es[n] {
      case File(info) =>
        FileLeads(es, n);
      case Dir(name, Listed(entries)) =>
        SourceDirectory(name);
        if HoldsSources(name) {
          PathsFromAre(entries, 0);
          var ps := PathsFrom(entries, 0);
          assert entries[0..] == entries;
          MapUnder(n, ps);
          forall i | 0 <= i < |ps| ensures LeadsTo(Listed(es), Map(Under(n), ps)[i], FilesOfAll(entries)[i]) {
            assert ([n] + ps[i])[1..] == ps[i];
          }
          forall path | path != [] && path[0] == n
            ensures path[1..] in ps <==> Leads(Listed(es), path)
          {
            if path[1..] in ps {
              var f :| LeadsTo(Listed(entries), path[1..], f);
              assert LeadsTo(Listed(es), path, f);
            }
            if Leads(Listed(es), path) {
              var f :| LeadsTo(Listed(es), path, f);
              assert LeadsTo(Listed(entries), path[1..], f);
              assert LeadsFrom(entries, 0, path[1..]);
            }
          }
        }
      case _ => DeadEnd(es, n);
    }
  }

  lemma TogetherOnce(a: seq<seq<nat>>, b: seq<seq<nat>>, n: nat)
    requires OnceEach(a) && OnceEach(b)
    requires forall path :: path in a ==> path != [] && path[0] == n
    requires forall path :: path in b ==> path != [] && path[0] > n
    ensures OnceEach(a + b)
  {
    forall i, j | 0 <= i < |a| && 0 <= j < |b| ensures a[i] != b[j] {
      assert a[i] in a && b[j] in b;
    }
  }

  lemma TogetherLead(d: Listing, a: seq<seq<nat>>, x: seq<FileInfo>, b: seq<seq<nat>>, y: seq<FileInfo>)
    requires LeadToEach(d, a, x) && LeadToEach(d, b, y)
    ensures LeadToEach(d, a + b, x + y)
  {
    hide LeadsTo;
  }

  lemma {:induction false} PathsFromAre(es: seq<Entry>, n: nat)
    requires n <= |es|
    ensures LeadToEach(Listed(es), PathsFrom(es, n), FilesOfAll(es[n..])) && OnceEach(PathsFrom(es, n))
    ensures forall path :: path in PathsFrom(es, n) <==> LeadsFrom(es, n, path)
    decreases es, |es| - n, 1
  {
    hide PathsAt, FilesOf, FilesOfAll, LeadsTo, Leads, OnceEach, LeadToEach, PathsFrom;
    PathsFromStep(es, n);
    if n < |es| {
      PathsAtAre(es, n);
      PathsFromAre(es, n + 1);
      assert es[n..] == [es[n]] + es[n + 1..];
      EntryFiles(es[n], es[n + 1..]);
      var a, b := PathsAt(es, n), PathsFrom(es, n + 1);
      TogetherOnce(a, b, n);
      TogetherLead(Listed(es), a, FilesOf(es[n]), b, FilesOfAll(es[n + 1..]));
    } else {
      assert es[n..] == [];
      PathsEnd(es);
    }
  }

  lemma PathsFromStep(es: seq<Entry>, n: nat)
    requires n <= |es|
    ensures n < |es| ==> PathsFrom(es, n) == PathsAt(es, n) + PathsFrom(es, n + 1)
    ensures n == |es| ==> PathsFrom(es, n) == [] && FilesOfAll([]) == [] && OnceEach([]) && LeadToEach(Listed(es), [], [])
  {
    hide PathsAt;
  }

  lemma DeadEnd(es: seq<Entry>, n: nat)
    requires n < |es| && (es[n].Other? || (es[n].Dir? && es[n].children.Unreadable?))
    ensures forall path :: path != [] && path[0] == n ==> !Leads(Listed(es), path)
  {
    forall path, f | path != [] && path[0] == n ensures !LeadsTo(Listed(es), path, f) {
      if es[n].Dir? { NothingInUnreadable(es[n].children, path[1..], f); }
    }
  }

  lemma NothingInUnreadable(d: Listing, path: seq<nat>, f: FileInfo)
    requires d.Unreadable?
    ensures !LeadsTo(d, path, f)
  {
  }

  lemma FileLeads(es: seq<Entry>, n: nat)
    requires n < |es| && es[n].File?
    ensures LeadsTo(Listed(es), [n], es[n].info)
    ensures forall path :: path == [n] <==> path != [] && path[0] == n && Leads(Listed(es), path)
  {
    assert LeadsTo(Listed(es), [n], es[n].info);
    forall path | path != [] && path[0] == n && Leads(Listed(es), path) ensures path == [n] {
      var f :| LeadsTo(Listed(es), path, f);
    }
  }

  lemma LeadsSomewhere(d: Listing, path: seq<nat>)
    ensures Leads(d, path) ==> path != [] && d.Listed?
  {
  }

  lemma PathsEnd(es: seq<Entry>)
    ensures forall path :: !LeadsFrom(es, |es|, path)
  {
  }

  lemma EntryFiles(e: Entry, rest: seq<Entry>)
    ensures FilesOfAll([e] + rest) == FilesOf(e) + FilesOfAll(rest)
  {
    hide FilesOf;
    assert ([e] + rest)[1..] == rest;
  }

  /** The source files of a tree are those at the ends of the paths that lead through directories
      that hold sources, each path once. */
  lemma SourceFilesAre(d: Listing)
    ensures LeadToEach(d, PathsBelow(d), FilesBelow(d)) && OnceEach(PathsBelow(d))
    ensures forall path :: path in PathsBelow(d) <==> Leads(d, path)
  {
    hide PathsFrom, FilesOfAll;
    if d.Listed? {
      PathsFromAre(d.entries, 0);
      assert d.entries[0..] == d.entries;
      forall path ensures LeadsFrom(d.entries, 0, path) <==> Leads(d, path) {
        assert d == Listed(d.entries);
        LeadsSomewhere(d, path);
      }
    }
  }

  // ----- the walk -----

  function FilesHere(es: seq<Entry>): seq<FileInfo> {
    if es == [] then []
    else (if es[0].File? then [es[0].info] else []) + FilesHere(es[1..])
  }

  function DirsHere(es: seq<Entry>): seq<Listing> {
    if es == [] then []
    else (if es[0].Dir? && !Skipped(es[0].name) then [es[0].children] else []) + DirsHere(es[1..])
  }

  function EntriesOf(d: Listing): seq<Entry> {
    match d
    case Unreadable => []
    case Listed(entries) => entries
  }

  function Weight(e: Entry): nat
    decreases e, 0
  {
    match e
    case Dir(_, Listed(entries)) => 1 + WeightAll(entries)
    case _ => 1
  }

  function WeightAll(es: seq<Entry>): nat
    decreases es, 1
  {
    if es == [] then 0 else Weight(es[0]) + WeightAll(es[1..])
  }

  function StackWeight(stack: seq<Listing>): nat {
    if stack == [] then 0 else 1 + WeightAll(EntriesOf(stack[0])) + StackWeight(stack[1..])
  }

  lemma {:induction false} StackWeightAppend(a: seq<Listing>, b: seq<Listing>)
    ensures StackWeight(a + b) == StackWeight(a) + StackWeight(b)
  {
    if a == [] {
      assert a + b == b;
    } else {
      assert (a + b)[1..] == a[1..] + b;
      StackWeightAppend(a[1..], b);
    }
  }

  lemma {:induction false} DirsWeigh(es: seq<Entry>)
    ensures StackWeight(DirsHere(es)) <= WeightAll(es)
  {
    hide Skipped;
    if es != [] {
      DirsWeigh(es[1..]);
      if es[0].Dir? && !Skipped(es[0].name) {
        assert ([es[0].children] + DirsHere(es[1..]))[1..] == DirsHere(es[1..]);
      } else {
        assert [] + DirsHere(es[1..]) == DirsHere(es[1..]);
      }
    }
  }

  function Top(stack: seq<Listing>): seq<Entry>
    requires stack != []
  {
    EntriesOf(stack[|stack| - 1])
  }

  /** The stack once its last directory is taken off and read. */
  function Read(stack: seq<Listing>): (next: seq<Listing>)
    requires stack != []
    ensures StackWeight(next) < StackWeight(stack)
  {
    var rest := stack[..|stack| - 1];
    StackWeightAppend(rest, [stack[|stack| - 1]]);
    assert stack == rest + [stack[|stack| - 1]];
    assert [stack[|stack| - 1]][1..] == [];
    StackWeightAppend(rest, DirsHere(Top(stack)));
    DirsWeigh(Top(stack));
    rest + DirsHere(Top(stack))
  }

  /** The files in the order in which the walk comes to them. */
  function WalkOrder(stack: seq<Listing>): seq<FileInfo>
    decreases StackWeight(stack)
  {
    if stack == [] then [] else FilesHere(Top(stack)) + WalkOrder(Read(stack))
  }

  function FilesBelowAll(stack: seq<Listing>): seq<FileInfo> {
    if stack == [] then [] else FilesBelow(stack[0]) + FilesBelowAll(stack[1..])
  }

  lemma {:induction false} FilesBelowAppend(a: seq<Listing>, b: seq<Listing>)
    ensures FilesBelowAll(a + b) == FilesBelowAll(a) + FilesBelowAll(b)
  {
    hide FilesBelow;
    if a == [] {
      assert a + b == b;
    } else {
      assert (a + b)[1..] == a[1..] + b;
      FilesBelowAppend(a[1..], b);
    }
  }

  lemma OneDirectory(d: Listing)
    ensures FilesBelowAll([d]) == FilesBelow(d)
  {
    assert [d][1..] == [];
  }

  predicate Descends(e: Entry) {
    e.Dir? && !Skipped(e.name)
  }

  lemma EntrySteps(e: Entry, rest: seq<Entry>)
    ensures FilesOfAll([e] + rest) == FilesOf(e) + FilesOfAll(rest)
    ensures FilesHere([e] + rest) == (if e.File? then [e.info] else []) + FilesHere(rest)
    ensures DirsHere([e] + rest) == (if Descends(e) then [e.children] else []) + DirsHere(rest)
  {
    hide Skipped, FilesOf;
    assert ([e] + rest)[1..] == rest;
  }

  lemma OneEntry(e: Entry)
    ensures FilesOf(e) == if e.File? then [e.info] else if Descends(e) then FilesBelow(e.children) else []
  {
    hide Skipped;
  }

  /** What is below a list of entries is what is here and what is below its directories. */
  lemma {:induction false} HereAndBelow(es: seq<Entry>)
    ensures multiset(FilesOfAll(es)) == multiset(FilesHere(es)) + multiset(FilesBelowAll(DirsHere(es)))
  {
    hide Descends, FilesOf, FilesOfAll, FilesHere, DirsHere, FilesBelowAll, FilesBelow;
    if es == [] {
      NoEntries();
    } else {
      var e, rest := es[0], es[1..];
      HereAndBelow(rest);
      assert es == [e] + rest;
      EntrySteps(e, rest);
      OneEntry(e);
      if Descends(e) {
        NotBoth(e);
        FilesBelowAppend([e.children], DirsHere(rest));
        OneDirectory(e.children);
        assert [] + FilesHere(rest) == FilesHere(rest);
      } else {
        assert [] + DirsHere(rest) == DirsHere(rest) && [] + FilesHere(rest) == FilesHere(rest);
        assert [] + FilesOfAll(rest) == FilesOfAll(rest);
      }
    }
  }

  lemma NotBoth(e: Entry)
    requires Descends(e)
    ensures e.Dir?
  {
  }

  lemma NoEntries()
    ensures FilesOfAll([]) == [] && FilesHere([]) == [] && DirsHere([]) == [] && FilesBelowAll([]) == []
  {
  }

  lemma NothingBelow(stack: seq<Listing>)
    requires stack == []
    ensures WalkOrder(stack) == [] && FilesBelowAll(stack) == []
  {
  }

  lemma WalkStep(stack: seq<Listing>)
    requires stack != []
    ensures WalkOrder(stack) == FilesHere(Top(stack)) + WalkOrder(Read(stack))
    ensures Read(stack) == stack[..|stack| - 1] + DirsHere(Top(stack))
  {
    hide FilesHere, DirsHere;
  }

  lemma TopFiles(stack: seq<Listing>)
    requires stack != []
    ensures FilesBelowAll(stack) == FilesBelowAll(stack[..|stack| - 1]) + FilesOfAll(Top(stack))
  {
    hide FilesBelowAll, FilesOf;
    assert stack == stack[..|stack| - 1] + [stack[|stack| - 1]];
    FilesBelowAppend(stack[..|stack| - 1], [stack[|stack| - 1]]);
    OneDirectory(stack[|stack| - 1]);
  }

  /** The walk comes to every source file exactly once, in some order. */
  lemma {:induction false} WalkVisitsAll(stack: seq<Listing>)
    ensures multiset(WalkOrder(stack)) == multiset(FilesBelowAll(stack))
    decreases StackWeight(stack)
  {
    hide FilesHere, DirsHere, WalkOrder, FilesBelowAll, FilesOfAll, StackWeight;
    if stack == [] {
      NothingBelow(stack);
    } else {
      var rest := stack[..|stack| - 1];
      WalkStep(stack);
      WalkVisitsAll(Read(stack));
      HereAndBelow(Top(stack));
      TopFiles(stack);
      FilesBelowAppend(rest, DirsHere(Top(stack)));
    }
  }

  // ----- the visitor -----

  /** The visitor is run over the files until it breaks off. */
  function FoldUntil<S>(visit: (S, FileInfo) -> (S, bool), state: S, files: seq<FileInfo>): S {
    if files == [] then state
    else
      var (next, stop) := visit(state, files[0]);
      if stop then next else FoldUntil(visit, next, files[1..])
  }

  lemma VisitOne<S>(visit: (S, FileInfo) -> (S, bool), state: S, f: FileInfo, files: seq<FileInfo>)
    ensures FoldUntil(visit, state, [f] + files) ==
      if visit(state, f).1 then visit(state, f).0 else FoldUntil(visit, visit(state, f).0, files)
  {
    assert ([f] + files)[1..] == files;
  }

  lemma EntryStep(es: seq<Entry>, n: nat)
    requires n < |es|
    ensures FilesHere(es[n..]) == (if es[n].File? then [es[n].info] else []) + FilesHere(es[n + 1..])
    ensures DirsHere(es[n..]) ==
      (if es[n].Dir? && !Skipped(es[n].name) then [es[n].children] else []) + DirsHere(es[n + 1..])
  {
    hide Skipped;
    assert es[n..][1..] == es[n + 1..];
  }

  lemma LastEntry(es: seq<Entry>)
    ensures FilesHere(es[|es|..]) == [] && DirsHere(es[|es|..]) == [] && es[0..] == es
  {
  }

  /** `walk_sources`: the stack of directories still to be read, and the visitor. */
  method WalkSources<S>(root: Listing, visit: (S, FileInfo) -> (S, bool), initial: S) returns (state: S)
    ensures state == FoldUntil(visit, initial, WalkOrder([root]))
  {
    hide FoldUntil, WalkOrder, FilesHere, DirsHere, Skipped, Read, StackWeight, WeightAll;
    state := initial;
    var stack := [root];
    while stack != []
      invariant FoldUntil(visit, state, WalkOrder(stack)) == FoldUntil(visit, initial, WalkOrder([root]))
      decreases StackWeight(stack)
    {
      ghost var before := stack;
      var entries := Top(stack);
      stack := stack[..|stack| - 1];
      WalkStep(before);
      LastEntry(entries);
      var n := 0;
      while n < |entries|
        invariant n <= |entries|
        invariant stack + DirsHere(entries[n..]) == Read(before)
        invariant FoldUntil(visit, state, FilesHere(entries[n..]) + WalkOrder(Read(before))) ==
          FoldUntil(visit, initial, WalkOrder([root]))
      {
        EntryStep(entries, n);
        assert [] + FilesHere(entries[n + 1..]) == FilesHere(entries[n + 1..]);
        assert [] + DirsHere(entries[n + 1..]) == DirsHere(entries[n + 1..]);
        var entry := entries[n];
        if entry.Dir? {
          if !Skipped(entry.name) {
            assert stack + ([entry.children] + DirsHere(entries[n + 1..])) ==
              (stack + [entry.children]) + DirsHere(entries[n + 1..]);
            stack := stack + [entry.children];
          }
        } else if entry.File? {
          var rest := FilesHere(entries[n + 1..]) + WalkOrder(Read(before));
          assert [entry.info] + FilesHere(entries[n + 1..]) + WalkOrder(Read(before)) == [entry.info] + rest;
          VisitOne(visit, state, entry.info, rest);
          var (next, stop) := visit(state, entry.info);
          state := next;
          if stop { return; }
        }
        n := n + 1;
      }
      LastEntry(entries);
      assert stack == Read(before);
      assert FilesHere(entries[n..]) + WalkOrder(Read(before)) == WalkOrder(stack);
    }
    EmptyWalk(visit, state);
  }

  lemma EmptyWalk<S>(visit: (S, FileInfo) -> (S, bool), state: S)
    ensures FoldUntil(visit, state, WalkOrder([])) == state
  {
  }

  // ----- `measure` -----

  function SizeOf(f: FileInfo): nat {
    f.size
  }

  /** The size of all source files of a tree. */
  function Total(root: Listing): nat {
    Sum(SizeOf, FilesBelow(root))
  }

  datatype Measured = Measured(bytes: int, exceeded: bool)

  function Count(limit: nat): (Measured, FileInfo) -> (Measured, bool) {
    (m: Measured, f: FileInfo) =>
      var bytes := m.bytes + f.size;
      if bytes > limit then (Measured(bytes, true), true) else (Measured(bytes, m.exceeded), false)
  }

  lemma {:induction false} CountUntil(limit: nat, bytes: nat, files: seq<FileInfo>)
    requires bytes <= limit
    ensures var r := FoldUntil(Count(limit), Measured(bytes, false), files);
            && r.exceeded == (bytes + Sum(SizeOf, files) > limit)
            && (if r.exceeded then limit < r.bytes <= bytes + Sum(SizeOf, files)
                else r.bytes == bytes + Sum(SizeOf, files))
    decreases |files|
  {
    if files != [] {
      var f := files[0];
      VisitOne(Count(limit), Measured(bytes, false), f, files[1..]);
      assert files == [f] + files[1..];
      if bytes + f.size <= limit {
        CountUntil(limit, bytes + f.size, files[1..]);
      }
    }
  }

  lemma WalkTotal(root: Listing)
    ensures Sum(SizeOf, WalkOrder([root])) == Total(root)
  {
    hide *;
    WalkVisitsAll([root]);
    OneDirectory(root);
    SumOfPermutation(SizeOf, WalkOrder([root]), FilesBelow(root));
    TotalIs(root);
  }

  lemma TotalIs(root: Listing)
    ensures Total(root) == Sum(SizeOf, FilesBelow(root))
  {
  }

  /** The early exit changes no verdict: the budget is exceeded exactly if the sizes of all source
      files add up to more than it; the count is then a lower bound, and otherwise the total. */
  method Measure(root: Listing, limit: nat) returns (bytes: nat, exceeded: bool)
    ensures exceeded <==> Total(root) > limit
    ensures if exceeded then limit < bytes <= Total(root) else bytes == Total(root)
  {
    hide WalkOrder, FoldUntil, Total, Count;
    WalkTotal(root);
    CountUntil(limit, 0, WalkOrder([root]));
    var m := WalkSources(root, Count(limit), Measured(0, false));
    bytes, exceeded := m.bytes, m.exceeded;
  }

  // ----- `sigmap_is_fresh` -----

  /** `Path::extension` is "md": something other than nothing stands before the last full stop. */
  predicate IsMarkdown(name: string) {
    match Words.RSplitOnce(name, '.')
    case None => false
    case Some(parts) => parts.0 != "" && parts.1 == "md"
  }

  ghost predicate NamedMarkdown(name: string) {
    exists stem :: stem != "" && name == stem + ".md"
  }

  /** Markdown files are those named something followed by ".md". */
  lemma MarkdownNames(name: string)
    ensures IsMarkdown(name) <==> NamedMarkdown(name)
  {
    hide Words.RSplitOnce;
    if IsMarkdown(name) {
      Words.RSplitOnceParts(name, '.');
      var stem := Words.RSplitOnce(name, '.').value.0;
      assert stem + ['.'] + "md" == stem + ".md";
    }
    if stem :| stem != "" && name == stem + ".md" {
      assert name == stem + ['.'] + "md";
      Words.RSplitOnceOf(stem, '.', "md");
    }
  }

  /** A source file that makes a map of the given age stale. */
  predicate Outdates(f: FileInfo, mapTime: int) {
    !IsMarkdown(f.name) && f.modified.Some? && f.modified.value > mapTime
  }

  function CheckAge(mapTime: int): (bool, FileInfo) -> (bool, bool) {
    (current: bool, f: FileInfo) => if Outdates(f, mapTime) then (false, true) else (current, false)
  }

  lemma {:induction false} CheckUntil(mapTime: int, files: seq<FileInfo>)
    ensures FoldUntil(CheckAge(mapTime), true, files) <==> forall f :: f in files ==> !Outdates(f, mapTime)
  {
    hide Outdates;
    if files != [] {
      VisitOne(CheckAge(mapTime), true, files[0], files[1..]);
      assert files == [files[0]] + files[1..];
      CheckUntil(mapTime, files[1..]);
    }
  }

  lemma WalkMembers(root: Listing, f: FileInfo)
    ensures f in WalkOrder([root]) <==> f in FilesBelow(root)
  {
    hide *;
    WalkVisitsAll([root]);
    OneDirectory(root);
    assert f in multiset(WalkOrder([root])) <==> f in multiset(FilesBelow(root));
  }

  /** The map is fresh exactly if there is one and no source file but Markdown is newer. */
  method SigmapIsFresh(root: Listing, sigmap: Option<int>) returns (r: bool)
    ensures r <==>
      (sigmap.Some? &&
       forall f :: f in FilesBelow(root) && f.modified.Some? && f.modified.value > sigmap.value ==> NamedMarkdown(f.name))
  {
    hide WalkOrder, FoldUntil, FilesBelow, IsMarkdown;
    forall f: FileInfo ensures IsMarkdown(f.name) <==> NamedMarkdown(f.name) { MarkdownNames(f.name); }
    if sigmap.None? { return false; }
    hide Outdates;
    CheckUntil(sigmap.value, WalkOrder([root]));
    forall f: FileInfo ensures f in WalkOrder([root]) <==> f in FilesBelow(root) { WalkMembers(root, f); }
    r := WalkSources(root, CheckAge(sigmap.value), true);
  }
}
