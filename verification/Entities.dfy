/** entities.rs, `dedup_nested`: of projects inside one another only the outermost stay. */
module Entities {
  import opened Seqs

  /** A canonical path as its components; a path starts with another if its components do. */
  type Path = seq<string>

  datatype Project = Project(name: string, localPath: string)

  datatype Item = Item(path: Path, project: Project)

  /** The projects whose path can be made canonical, each with that path. */
  function Canonicalized(canonical: string -> Option<Path>, projects: seq<Project>): seq<Item> {
    if projects == [] then []
    else
      (match canonical(projects[0].localPath)
       case Some(path) => [Item(path, projects[0])]
       case None => [])
      + Canonicalized(canonical, projects[1..])
  }

  function ProjectOf(x: Item): Project {
    x.project
  }

  function HasPlace(canonical: string -> Option<Path>): Project -> bool {
    (p: Project) => canonical(p.localPath).Some?
  }

  /** These are the projects whose path can be made canonical, in their order, each with that path. */
  lemma {:induction false} CanonicalizedAre(canonical: string -> Option<Path>, projects: seq<Project>)
    ensures Map(ProjectOf, Canonicalized(canonical, projects)) == Filter(HasPlace(canonical), projects)
    ensures forall i :: 0 <= i < |Canonicalized(canonical, projects)| ==>
      var x := Canonicalized(canonical, projects)[i]; canonical(x.project.localPath) == Some(x.path)
  {
    if projects != [] {
      var p, rest := projects[0], projects[1..];
      CanonicalizedAre(canonical, rest);
      assert projects == [p] + rest;
      FilterCons(HasPlace(canonical), p, rest);
      if canonical(p.localPath).Some? {
        var x := Item(canonical(p.localPath).value, p);
        MapAppend(ProjectOf, [x], Canonicalized(canonical, rest));
        assert Map(ProjectOf, [x]) == [p];
      } else {
        assert [] + Canonicalized(canonical, rest) == Canonicalized(canonical, rest);
        assert [] + Filter(HasPlace(canonical), rest) == Filter(HasPlace(canonical), rest);
      }
    }
  }

  // ----- the stable sort by depth -----

  function Depth(x: Item): nat {
    |x.path|
  }

  predicate SortedByDepth(xs: seq<Item>) {
    forall i, j :: 0 <= i < j < |xs| ==> Depth(xs[i]) <= Depth(xs[j])
  }

  function Insert(x: Item, ys: seq<Item>): seq<Item> {
    if ys == [] || Depth(x) <= Depth(ys[0]) then [x] + ys else [ys[0]] + Insert(x, ys[1..])
  }

  /** `sort_by_key`, which keeps the order of items of equal depth. */
  function Sort(xs: seq<Item>): seq<Item> {
    if xs == [] then [] else Insert(xs[0], Sort(xs[1..]))
  }

  function AtPath(p: Path): Item -> bool {
    (x: Item) => x.path == p
  }

  function AtDepth(n: nat): Item -> bool {
    (x: Item) => |x.path| == n
  }

  lemma {:induction false} InsertBag(x: Item, ys: seq<Item>)
    ensures multiset(Insert(x, ys)) == multiset([x] + ys)
  {
    if ys != [] && Depth(x) > Depth(ys[0]) {
      InsertBag(x, ys[1..]);
      assert ys == [ys[0]] + ys[1..];
    }
  }

  lemma SortedCons(y: Item, zs: seq<Item>)
    requires SortedByDepth(zs) && forall z :: z in zs ==> Depth(y) <= Depth(z)
    ensures SortedByDepth([y] + zs)
  {
    hide Depth;
  }

  lemma SortedTail(ys: seq<Item>)
    requires SortedByDepth(ys) && ys != []
    ensures SortedByDepth(ys[1..]) && forall y :: y in ys ==> Depth(ys[0]) <= Depth(y)
  {
    hide Depth;
  }

  lemma {:induction false} InsertSorts(x: Item, ys: seq<Item>)
    requires SortedByDepth(ys)
    ensures SortedByDepth(Insert(x, ys))
  {
    hide SortedByDepth;
    if ys != [] {
      SortedTail(ys);
      if Depth(x) > Depth(ys[0]) {
        var zs := Insert(x, ys[1..]);
        InsertSorts(x, ys[1..]);
        InsertBag(x, ys[1..]);
        forall z | z in zs ensures Depth(ys[0]) <= Depth(z) {
          assert z in multiset(zs);
          assert z == x || z in ys[1..];
        }
        SortedCons(ys[0], zs);
      } else {
        SortedCons(x, ys);
      }
    } else {
      OneIsSorted(x);
    }
  }

  lemma OneIsSorted(x: Item)
    ensures SortedByDepth([x] + [])
  {
  }

  lemma InsertFacts(x: Item, ys: seq<Item>)
    requires SortedByDepth(ys)
    ensures SortedByDepth(Insert(x, ys)) && multiset(Insert(x, ys)) == multiset([x] + ys)
  {
    hide *;
    InsertSorts(x, ys);
    InsertBag(x, ys);
  }

  lemma {:induction false} SortFacts(xs: seq<Item>)
    ensures SortedByDepth(Sort(xs)) && multiset(Sort(xs)) == multiset(xs)
  {
    if xs != [] {
      SortFacts(xs[1..]);
      InsertFacts(xs[0], Sort(xs[1..]));
      assert xs == [xs[0]] + xs[1..];
    }
  }

  lemma {:induction false} InsertIsStable(x: Item, ys: seq<Item>, n: nat)
    requires SortedByDepth(ys)
    ensures Filter(AtDepth(n), Insert(x, ys)) == Filter(AtDepth(n), [x] + ys)
  {
    hide Filter;
    if ys != [] && Depth(x) > Depth(ys[0]) {
      var p, y, rest := AtDepth(n), ys[0], ys[1..];
      InsertIsStable(x, rest, n);
      FilterCons(p, y, Insert(x, rest));
      FilterCons(p, x, rest);
      assert ys == [y] + rest;
      FilterCons(p, y, rest);
      FilterCons(p, x, ys);
      assert [] + Filter(p, rest) == Filter(p, rest) && [] + Filter(p, ys) == Filter(p, ys);
    }
  }

  /** Items of equal depth stay in their order. */
  lemma {:induction false} SortIsStable(xs: seq<Item>, n: nat)
    ensures Filter(AtDepth(n), Sort(xs)) == Filter(AtDepth(n), xs)
  {
    hide Filter, Insert;
    if xs != [] {
      SortIsStable(xs[1..], n);
      SortFacts(xs[1..]);
      InsertIsStable(xs[0], Sort(xs[1..]), n);
      FilterCons(AtDepth(n), xs[0], Sort(xs[1..]));
      FilterCons(AtDepth(n), xs[0], xs[1..]);
      assert xs == [xs[0]] + xs[1..];
    }
  }

  lemma {:induction false} FilterTwice(p: Path, xs: seq<Item>)
    ensures Filter(AtPath(p), Filter(AtDepth(|p|), xs)) == Filter(AtPath(p), xs)
  {
    hide Filter;
    if xs != [] {
      var x, rest := xs[0], xs[1..];
      FilterTwice(p, rest);
      assert xs == [x] + rest;
      FilterCons(AtDepth(|p|), x, rest);
      FilterCons(AtPath(p), x, rest);
      FilterCons(AtPath(p), x, Filter(AtDepth(|p|), rest));
      assert [] + Filter(AtPath(p), rest) == Filter(AtPath(p), rest);
      assert [] + Filter(AtDepth(|p|), rest) == Filter(AtDepth(|p|), rest);
    } else {
      NoItems(p);
    }
  }

  lemma NoItems(p: Path)
    ensures Filter(AtPath(p), []) == [] && Filter(AtDepth(|p|), []) == []
  {
  }

  lemma SamePathOrder(p: Path, xs: seq<Item>)
    ensures Filter(AtPath(p), Sort(xs)) == Filter(AtPath(p), xs)
  {
    hide *;
    FilterTwice(p, xs);
    FilterTwice(p, Sort(xs));
    SortIsStable(xs, |p|);
  }

  // ----- what is to be kept -----

  predicate HasPath(xs: seq<Item>, p: Path) {
    exists i :: 0 <= i < |xs| && xs[i].path == p
  }

  /** No other path of the list leads to p. */
  ghost predicate Outermost(xs: seq<Item>, p: Path) {
    HasPath(xs, p) && forall q :: HasPath(xs, q) && q <= p ==> q == p
  }

  /** The first item of the list with the path. */
  function First(xs: seq<Item>, p: Path): nat {
    FirstIndex(AtPath(p), xs)
  }

  /** The shallower path comes first, and of equally deep ones that which the list has first. */
  predicate Before(xs: seq<Item>, p: Path, q: Path) {
    |p| < |q| || (|p| == |q| && First(xs, p) < First(xs, q))
  }

  predicate InOrder(xs: seq<Item>, paths: seq<Path>) {
    forall i, j :: 0 <= i < j < |paths| ==> Before(xs, paths[i], paths[j])
  }

  /** Paths and the projects that stand for them. */
  ghost predicate Kept(xs: seq<Item>, paths: seq<Path>, result: seq<Project>) {
    && |paths| == |result|
    && InOrder(xs, paths)
    && (forall p :: p in paths <==> Outermost(xs, p))
    && (forall i :: 0 <= i < |paths| ==>
          Filter(AtPath(paths[i]), xs) != [] && result[i] == Filter(AtPath(paths[i]), xs)[0].project)
  }

  /** The projects are those that stand for the outermost paths. */
  ghost predicate Deduped(xs: seq<Item>, result: seq<Project>) {
    exists paths :: Kept(xs, paths, result)
  }

  // ----- the loop -----

  predicate Nested(seen: seq<Path>, p: Path) {
    exists k :: 0 <= k < |seen| && seen[k] <= p
  }

  /** What the loop has made of the first n items. */
  ghost predicate Progress(xs: seq<Item>, n: nat, seen: seq<Path>, result: seq<Project>)
    requires n <= |xs|
  {
    && |seen| == |result|
    && (forall i :: 0 <= i < n ==> Nested(seen, xs[i].path))
    && (forall k :: 0 <= k < |seen| ==> HasPath(xs[..n], seen[k]))
    && (forall k, l :: 0 <= k < l < |seen| ==> !(seen[k] <= seen[l]) && !(seen[l] <= seen[k]) && |seen[k]| <= |seen[l]|)
    && (forall k :: 0 <= k < |seen| ==>
          Filter(AtPath(seen[k]), xs[..n]) != [] && Filter(AtPath(seen[k]), xs[..n])[0].project == result[k])
    && (forall k :: 0 <= k < |seen| ==> First(xs, seen[k]) < n)
    && (forall k, l :: 0 <= k < l < |seen| ==> First(xs, seen[k]) < First(xs, seen[l]))
  }

  lemma SeenIsNotDeeper(xs: seq<Item>, n: nat, p: Path)
    requires SortedByDepth(xs) && n < |xs| && HasPath(xs[..n], p)
    ensures |p| <= |xs[n].path|
  {
    var i :| 0 <= i < |xs[..n]| && xs[..n][i].path == p;
    assert xs[i].path == p;
    assert Depth(xs[i]) <= Depth(xs[n]);
  }

  lemma HasPathNext(xs: seq<Item>, n: nat, p: Path)
    requires n < |xs|
    ensures HasPath(xs[..n + 1], p) <==> HasPath(xs[..n], p) || xs[n].path == p
  {
    var a, b := xs[..n], xs[..n + 1];
    assert b[n] == xs[n];
    if HasPath(a, p) {
      var i :| 0 <= i < |a| && a[i].path == p;
      assert b[i].path == p;
    }
    if HasPath(b, p) && xs[n].path != p {
      var i :| 0 <= i < |b| && b[i].path == p;
      assert a[i].path == p;
    }
  }

  lemma FirstAtPath(xs: seq<Item>, n: nat, p: Path)
    requires n < |xs|
    ensures Filter(AtPath(p), xs[..n + 1]) ==
      Filter(AtPath(p), xs[..n]) + if xs[n].path == p then [xs[n]] else []
  {
    hide Filter;
    assert xs[..n + 1] == xs[..n] + [xs[n]];
    FilterAppend(AtPath(p), xs[..n], [xs[n]]);
    FilterOne(AtPath(p), xs[n]);
  }

  lemma {:induction false} NoneAtPath(xs: seq<Item>, p: Path)
    requires !HasPath(xs, p)
    ensures Filter(AtPath(p), xs) == []
  {
    hide Filter;
    forall x | x in xs ensures !AtPath(p)(x) {
      var i :| 0 <= i < |xs| && xs[i] == x;
    }
    FilterNone(AtPath(p), xs);
  }

  lemma NestedMore(seen: seq<Path>, p: Path, q: Path)
    requires Nested(seen, p) || q <= p
    ensures Nested(seen + [q], p)
  {
    if Nested(seen, p) {
      var k :| 0 <= k < |seen| && seen[k] <= p;
      assert (seen + [q])[k] <= p;
    } else {
      assert (seen + [q])[|seen|] <= p;
    }
  }

  lemma NewIsApart(xs: seq<Item>, n: nat, seen: seq<Path>, k: nat)
    requires SortedByDepth(xs) && n < |xs| && k < |seen| && HasPath(xs[..n], seen[k]) && !Nested(seen, xs[n].path)
    ensures !(seen[k] <= xs[n].path) && !(xs[n].path <= seen[k]) && |seen[k]| <= |xs[n].path|
  {
    hide HasPath;
    SeenIsNotDeeper(xs, n, seen[k]);
  }

  lemma NotSeenYet(xs: seq<Item>, n: nat, seen: seq<Path>, result: seq<Project>, p: Path)
    requires n <= |xs| && Progress(xs, n, seen, result) && !Nested(seen, p)
    ensures !HasPath(xs[..n], p)
  {
    forall i | 0 <= i < |xs[..n]| ensures xs[..n][i].path != p {
      assert Nested(seen, xs[i].path);
    }
  }

  lemma Skip(xs: seq<Item>, n: nat, seen: seq<Path>, result: seq<Project>)
    requires n < |xs| && Progress(xs, n, seen, result) && Nested(seen, xs[n].path)
    ensures Progress(xs, n + 1, seen, result)
  {
    hide Nested, Filter, HasPath, First;
    forall k | 0 <= k < |seen|
      ensures HasPath(xs[..n + 1], seen[k])
      ensures Filter(AtPath(seen[k]), xs[..n + 1]) != []
      ensures Filter(AtPath(seen[k]), xs[..n + 1])[0].project == result[k]
    {
      HasPathNext(xs, n, seen[k]);
      FirstAtPath(xs, n, seen[k]);
    }
  }

  lemma Accept(xs: seq<Item>, n: nat, seen: seq<Path>, result: seq<Project>)
    requires SortedByDepth(xs) && n < |xs| && Progress(xs, n, seen, result) && !Nested(seen, xs[n].path)
    ensures Progress(xs, n + 1, seen + [xs[n].path], result + [xs[n].project])
  {
    hide Nested, Filter, HasPath, SortedByDepth, First;
    var p := xs[n].path;
    var more, out := seen + [p], result + [xs[n].project];
    NotSeenYet(xs, n, seen, result, p);
    FirstIsNew(xs, n);
    NoneAtPath(xs[..n], p);
    forall i | 0 <= i < n + 1 ensures Nested(more, xs[i].path) {
      NestedMore(seen, xs[i].path, p);
    }
    forall k | 0 <= k < |seen|
      ensures !(seen[k] <= p) && !(p <= seen[k]) && |seen[k]| <= |p|
    {
      NewIsApart(xs, n, seen, k);
    }
    forall k | 0 <= k < |more|
      ensures HasPath(xs[..n + 1], more[k])
      ensures Filter(AtPath(more[k]), xs[..n + 1]) != []
      ensures Filter(AtPath(more[k]), xs[..n + 1])[0].project == out[k]
    {
      HasPathNext(xs, n, more[k]);
      FirstAtPath(xs, n, more[k]);
    }
  }

  lemma FirstIsNew(xs: seq<Item>, n: nat)
    requires n < |xs| && !HasPath(xs[..n], xs[n].path)
    ensures First(xs, xs[n].path) == n
  {
    hide FirstIndex;
    var p := xs[n].path;
    forall i | 0 <= i < n ensures !AtPath(p)(xs[..n][i]) {
      assert xs[..n][i].path != p;
    }
    FirstIndexOf(AtPath(p), xs[..n], xs[n..]);
    assert xs[..n] + xs[n..] == xs;
  }

  lemma FirstStep(x: Item, xs: seq<Item>, p: Path)
    ensures First([x] + xs, p) == if x.path == p then 0 else 1 + First(xs, p)
  {
    assert ([x] + xs)[1..] == xs;
  }

  /** Which of two equally deep paths comes first is seen from the items of that depth. */
  lemma {:induction false} FirstAtDepth(xs: seq<Item>, p: Path, q: Path)
    requires |p| == |q| && p != q
    ensures First(Filter(AtDepth(|p|), xs), p) < First(Filter(AtDepth(|p|), xs), q) <==> First(xs, p) < First(xs, q)
  {
    hide Filter, First;
    if xs == [] {
      NoFirst(p);
      NoFirst(q);
      NoItems(p);
    } else {
      var x, rest, ofDepth := xs[0], xs[1..], Filter(AtDepth(|p|), xs[1..]);
      FirstAtDepth(rest, p, q);
      assert xs == [x] + rest;
      FilterCons(AtDepth(|p|), x, rest);
      FirstStep(x, rest, p);
      FirstStep(x, rest, q);
      FirstStep(x, ofDepth, p);
      FirstStep(x, ofDepth, q);
      assert [] + ofDepth == ofDepth;
    }
  }

  lemma NoFirst(p: Path)
    ensures First([], p) == 0
  {
  }

  lemma SortKeepsFirst(xs: seq<Item>, p: Path, q: Path)
    requires |p| == |q| && p != q
    ensures First(Sort(xs), p) < First(Sort(xs), q) <==> First(xs, p) < First(xs, q)
  {
    hide *;
    FirstAtDepth(xs, p, q);
    FirstAtDepth(Sort(xs), p, q);
    SortIsStable(xs, |p|);
  }

  lemma SeenInOrder(items: seq<Item>, xs: seq<Item>, seen: seq<Path>, result: seq<Project>)
    requires xs == Sort(items) && Progress(xs, |xs|, seen, result)
    ensures InOrder(items, seen)
  {
    hide Sort, HasPath, Filter, Nested, First;
    forall k, l | 0 <= k < l < |seen| ensures Before(items, seen[k], seen[l]) {
      if |seen[k]| == |seen[l]| { SortKeepsFirst(items, seen[k], seen[l]); }
    }
  }

  lemma PathsOfSorted(xs: seq<Item>, p: Path)
    ensures HasPath(Sort(xs), p) <==> HasPath(xs, p)
  {
    SortFacts(xs);
    hide Sort, SortedByDepth;
    if HasPath(xs, p) {
      var i :| 0 <= i < |xs| && xs[i].path == p;
      assert xs[i] in multiset(Sort(xs));
      var j :| 0 <= j < |Sort(xs)| && Sort(xs)[j] == xs[i];
    }
    if HasPath(Sort(xs), p) {
      var i :| 0 <= i < |Sort(xs)| && Sort(xs)[i].path == p;
      assert Sort(xs)[i] in multiset(xs);
      var j :| 0 <= j < |xs| && xs[j] == Sort(xs)[i];
    }
  }

  lemma AllNested(xs: seq<Item>, seen: seq<Path>, result: seq<Project>, p: Path)
    requires Progress(xs, |xs|, seen, result) && HasPath(xs, p)
    ensures Nested(seen, p)
  {
    hide Nested;
    var i :| 0 <= i < |xs| && xs[i].path == p;
  }

  lemma SeenIsOutermost(xs: seq<Item>, seen: seq<Path>, result: seq<Project>, l: nat)
    requires Progress(xs, |xs|, seen, result) && l < |seen|
    ensures Outermost(xs, seen[l])
  {
    hide Progress, HasPath;
    SeenHavePaths(xs, seen, result);
    forall q | HasPath(xs, q) && q <= seen[l] ensures q == seen[l] {
      AllNested(xs, seen, result, q);
      var k :| 0 <= k < |seen| && seen[k] <= q;
      PrefixOfPrefix(seen[k], q, seen[l]);
      SeenAreApart(xs, seen, result, k, l);
      PrefixBothWays(q, seen[l]);
    }
  }

  lemma PrefixOfPrefix(a: Path, b: Path, c: Path)
    requires a <= b && b <= c
    ensures a <= c
  {
  }

  lemma PrefixBothWays(a: Path, b: Path)
    requires a <= b && b <= a
    ensures a == b
  {
  }

  lemma OutermostIsSeen(xs: seq<Item>, seen: seq<Path>, result: seq<Project>, p: Path)
    requires Progress(xs, |xs|, seen, result) && Outermost(xs, p)
    ensures p in seen
  {
    hide Progress, HasPath;
    SeenHavePaths(xs, seen, result);
    AllNested(xs, seen, result, p);
    var k :| 0 <= k < |seen| && seen[k] <= p;
    assert HasPath(xs, seen[k]);
  }

  lemma SeenAreOutermost(xs: seq<Item>, seen: seq<Path>, result: seq<Project>, p: Path)
    requires Progress(xs, |xs|, seen, result)
    ensures p in seen <==> Outermost(xs, p)
  {
    hide *;
    if p in seen {
      var l :| 0 <= l < |seen| && seen[l] == p;
      SeenIsOutermost(xs, seen, result, l);
    }
    if Outermost(xs, p) { OutermostIsSeen(xs, seen, result, p); }
  }

  lemma SeenHavePaths(xs: seq<Item>, seen: seq<Path>, result: seq<Project>)
    requires Progress(xs, |xs|, seen, result)
    ensures forall k :: 0 <= k < |seen| ==> HasPath(xs, seen[k])
  {
    hide HasPath, Filter, Nested;
    assert xs[..|xs|] == xs;
  }

  lemma SeenAreApart(xs: seq<Item>, seen: seq<Path>, result: seq<Project>, k: nat, l: nat)
    requires Progress(xs, |xs|, seen, result) && k < |seen| && l < |seen| && seen[k] <= seen[l]
    ensures k == l
  {
    hide HasPath, Filter, Nested;
  }

  lemma Done(items: seq<Item>, xs: seq<Item>, seen: seq<Path>, result: seq<Project>)
    requires xs == Sort(items) && Progress(xs, |xs|, seen, result)
    ensures Kept(items, seen, result)
  {
    hide Sort, HasPath, Filter, Nested, InOrder, First;
    SeenInOrder(items, xs, seen, result);
    forall p ensures p in seen <==> Outermost(items, p) {
      SeenAreOutermost(xs, seen, result, p);
      forall q ensures HasPath(xs, q) <==> HasPath(items, q) { PathsOfSorted(items, q); }
    }
    assert xs[..|xs|] == xs;
    forall k | 0 <= k < |seen|
      ensures Filter(AtPath(seen[k]), items) != [] && result[k] == Filter(AtPath(seen[k]), items)[0].project
    {
      SamePathOrder(seen[k], items);
    }
  }

  /** `dedup_nested`: exactly the outermost canonical paths, each once, shallow ones first and equally
      deep ones in the order of the list, each with the first project of the list that has it. */
  method DedupNested(canonical: string -> Option<Path>, projects: seq<Project>)
    returns (result: seq<Project>)
    ensures Deduped(Canonicalized(canonical, projects), result)
  {
    hide *;
    var xs := Sort(Canonicalized(canonical, projects));
    SortFacts(Canonicalized(canonical, projects));
    var seen: seq<Path> := [];
    result := [];
    NoProgress(xs);
    for n := 0 to |xs|
      invariant Progress(xs, n, seen, result)
    {
      var nested := IsNested(seen, xs[n].path);
      if nested {
        Skip(xs, n, seen, result);
      } else {
        Accept(xs, n, seen, result);
        seen := seen + [xs[n].path];
        result := result + [xs[n].project];
      }
    }
    Done(Canonicalized(canonical, projects), xs, seen, result);
    DedupedBy(Canonicalized(canonical, projects), seen, result);
  }

  lemma DedupedBy(xs: seq<Item>, paths: seq<Path>, result: seq<Project>)
    requires Kept(xs, paths, result)
    ensures Deduped(xs, result)
  {
    hide Kept;
  }

  method IsNested(seen: seq<Path>, p: Path) returns (r: bool)
    ensures r == Nested(seen, p)
  {
    r := false;
    for k := 0 to |seen|
      invariant r == exists j :: 0 <= j < k && seen[j] <= p
    {
      if seen[k] <= p { r := true; }
    }
  }

  lemma NoProgress(xs: seq<Item>)
    ensures Progress(xs, 0, [], [])
  {
  }

  // ----- what that means -----

  /** Every path of the list is inside exactly one of the kept ones, or is that one. */
  lemma OneAncestor(xs: seq<Item>, paths: seq<Path>, result: seq<Project>, p: Path)
    requires Kept(xs, paths, result) && HasPath(xs, p)
    ensures exists a :: a in paths && a <= p && forall b :: b in paths && b <= p ==> b == a
  {
    var a := OutermostAbove(xs, p);
    forall b | b in paths && b <= p ensures b == a {
      PrefixesNest(a, b, p);
    }
  }

  lemma PrefixesNest(a: Path, b: Path, p: Path)
    requires a <= p && b <= p
    ensures a <= b || b <= a
  {
    assert a == p[..|a|] && b == p[..|b|];
  }

  lemma {:induction false} OutermostAbove(xs: seq<Item>, p: Path) returns (a: Path)
    requires HasPath(xs, p)
    ensures Outermost(xs, a) && a <= p
    decreases |p|
  {
    if q :| HasPath(xs, q) && q <= p && q != p {
      a := OutermostAbove(xs, q);
    } else {
      a := p;
    }
  }

  /** The kept paths do not depend on the order of the list. */
  lemma OrderDoesNotMatter(xs: seq<Item>, ys: seq<Item>, paths: seq<Path>, result: seq<Project>,
                           others: seq<Path>, rest: seq<Project>)
    requires multiset(xs) == multiset(ys) && Kept(xs, paths, result) && Kept(ys, others, rest)
    ensures multiset(paths) == multiset(others)
  {
    hide Filter, First;
    forall p ensures p in paths <==> p in others {
      forall q ensures HasPath(xs, q) <==> HasPath(ys, q) { SamePaths(xs, ys, q); SamePaths(ys, xs, q); }
      assert Outermost(xs, p) <==> Outermost(ys, p);
    }
    OnceEach(paths);
    OnceEach(others);
    forall p: Path ensures multiset(paths)[p] == multiset(others)[p] {
      assert p in multiset(paths) <==> p in paths;
      assert p in multiset(others) <==> p in others;
    }
  }

  lemma SamePaths(xs: seq<Item>, ys: seq<Item>, q: Path)
    requires multiset(xs) == multiset(ys)
    ensures HasPath(xs, q) ==> HasPath(ys, q)
  {
    if HasPath(xs, q) {
      var i :| 0 <= i < |xs| && xs[i].path == q;
      assert xs[i] in multiset(ys);
      var j :| 0 <= j < |ys| && ys[j] == xs[i];
    }
  }

  lemma {:induction false} OnceEach(paths: seq<Path>)
    requires forall i, j :: 0 <= i < j < |paths| ==> paths[i] != paths[j]
    ensures forall p :: p in paths ==> multiset(paths)[p] == 1
  {
    if paths != [] {
      OnceEach(paths[1..]);
      assert paths == [paths[0]] + paths[1..];
    }
  }

  lemma InOrderTail(xs: seq<Item>, paths: seq<Path>)
    requires InOrder(xs, paths) && paths != []
    ensures InOrder(xs, paths[1..]) && forall p :: p in paths[1..] ==> Before(xs, paths[0], p)
  {
    hide Before;
  }

  lemma NotBothBefore(xs: seq<Item>, p: Path, q: Path)
    requires Before(xs, p, q)
    ensures !Before(xs, q, p) && p != q
  {
    hide First;
  }

  lemma Uncons(paths: seq<Path>)
    requires paths != []
    ensures forall p :: p in paths <==> p == paths[0] || p in paths[1..]
  {
    assert paths == [paths[0]] + paths[1..];
  }

  lemma SameHead(xs: seq<Item>, p: seq<Path>, q: seq<Path>)
    requires InOrder(xs, p) && InOrder(xs, q) && p != [] && q != [] && forall x :: x in p <==> x in q
    ensures p[0] == q[0]
  {
    hide InOrder, Before;
    InOrderTail(xs, p);
    InOrderTail(xs, q);
    Uncons(p);
    Uncons(q);
    assert p[0] in q && q[0] in p;
    if p[0] != q[0] {
      NotBothBefore(xs, p[0], q[0]);
    }
  }

  /** The order leaves no choice. */
  lemma {:induction false} OneOrder(xs: seq<Item>, p: seq<Path>, q: seq<Path>)
    requires InOrder(xs, p) && InOrder(xs, q) && forall x :: x in p <==> x in q
    ensures p == q
  {
    hide InOrder, Before;
    EmptyTogether(p, q);
    if p != [] {
      SameHead(xs, p, q);
      InOrderTail(xs, p);
      InOrderTail(xs, q);
      Uncons(p);
      Uncons(q);
      forall x ensures x in p[1..] <==> x in q[1..] {
        if x == p[0] {
          NotAgain(xs, p);
          NotAgain(xs, q);
        }
      }
      OneOrder(xs, p[1..], q[1..]);
      assert p == [p[0]] + p[1..] && q == [q[0]] + q[1..];
    }
  }

  lemma EmptyTogether(p: seq<Path>, q: seq<Path>)
    requires forall x :: x in p <==> x in q
    ensures p == [] <==> q == []
  {
    if p != [] { assert p[0] in p; }
    if q != [] { assert q[0] in q; }
  }

  lemma NotAgain(xs: seq<Item>, p: seq<Path>)
    requires InOrder(xs, p) && p != []
    ensures p[0] !in p[1..]
  {
    hide InOrder, Before;
    InOrderTail(xs, p);
    if p[0] in p[1..] { NotBothBefore(xs, p[0], p[0]); }
  }

  /** Only one list of projects will do. */
  lemma OneResult(xs: seq<Item>, a: seq<Project>, b: seq<Project>)
    requires Deduped(xs, a) && Deduped(xs, b)
    ensures a == b
  {
    hide Filter, InOrder, Outermost;
    var p: seq<Path> :| Kept(xs, p, a);
    var q: seq<Path> :| Kept(xs, q, b);
    OneOrder(xs, p, q);
    forall i | 0 <= i < |a| ensures a[i] == b[i] {
    }
  }
}
