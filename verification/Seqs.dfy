/** Sequence vocabulary shared by the text models: flattening, filtering, mapping and
    in-order subsequences, with the algebraic laws the other modules use. */
module Seqs {

  datatype Option<+T> = None | Some(value: T)

  function Flatten<T>(ss: seq<seq<T>>): seq<T> {
    if ss == [] then [] else ss[0] + Flatten(ss[1..])
  }

  lemma {:induction false} FlattenAppend<T>(a: seq<seq<T>>, b: seq<seq<T>>)
    ensures Flatten(a + b) == Flatten(a) + Flatten(b)
  {
    if a == [] {
      assert a + b == b;
    } else {
      assert (a + b)[0] == a[0] && (a + b)[1..] == a[1..] + b;
      FlattenAppend(a[1..], b);
    }
  }

  lemma FlattenOne<T>(s: seq<T>)
    ensures Flatten([s]) == s
  {
    assert [s][1..] == [];
  }

  function Map<A, B>(f: A -> B, s: seq<A>): (r: seq<B>)
    ensures |r| == |s|
    ensures forall i :: 0 <= i < |s| ==> r[i] == f(s[i])
  {
    seq(|s|, i requires 0 <= i < |s| => f(s[i]))
  }

  lemma MapAppend<A, B>(f: A -> B, a: seq<A>, b: seq<A>)
    ensures Map(f, a + b) == Map(f, a) + Map(f, b)
  {
  }

  function Filter<T>(p: T -> bool, s: seq<T>): (r: seq<T>)
    ensures forall x :: x in r ==> x in s && p(x)
    ensures forall x :: x in s && p(x) ==> x in r
  {
    if s == [] then []
    else
      assert s == [s[0]] + s[1..];
      (if p(s[0]) then [s[0]] else []) + Filter(p, s[1..])
  }

  lemma {:induction false} FilterAppend<T>(p: T -> bool, a: seq<T>, b: seq<T>)
    ensures Filter(p, a + b) == Filter(p, a) + Filter(p, b)
  {
    if a == [] {
      assert a + b == b;
    } else {
      assert (a + b)[0] == a[0] && (a + b)[1..] == a[1..] + b;
      FilterAppend(p, a[1..], b);
    }
  }

  lemma FilterOne<T>(p: T -> bool, x: T)
    ensures Filter(p, [x]) == if p(x) then [x] else []
  {
    assert [x][1..] == [];
  }

  lemma FilterCons<T>(p: T -> bool, x: T, xs: seq<T>)
    ensures Filter(p, [x] + xs) == (if p(x) then [x] else []) + Filter(p, xs)
  {
    assert ([x] + xs)[1..] == xs;
  }

  lemma {:induction false} FilterAll<T>(p: T -> bool, s: seq<T>)
    requires forall x :: x in s ==> p(x)
    ensures Filter(p, s) == s
  {
    if s != [] {
      assert s == [s[0]] + s[1..];
      FilterAll(p, s[1..]);
    }
  }

  lemma {:induction false} FilterNone<T>(p: T -> bool, s: seq<T>)
    requires forall x :: x in s ==> !p(x)
    ensures Filter(p, s) == []
  {
    if s != [] {
      assert s == [s[0]] + s[1..];
      FilterNone(p, s[1..]);
    }
  }

  /** xs is obtained from ys by deleting elements. */
  predicate Subseq<T(==)>(xs: seq<T>, ys: seq<T>) {
    if xs == [] then true
    else if ys == [] then false
    else (xs[0] == ys[0] && Subseq(xs[1..], ys[1..])) || Subseq(xs, ys[1..])
  }

  lemma {:induction false} SubseqRefl<T>(s: seq<T>)
    ensures Subseq(s, s)
  {
    if s != [] { SubseqRefl(s[1..]); }
  }

  lemma {:induction false} SubseqAppend<T>(a: seq<T>, b: seq<T>, c: seq<T>, d: seq<T>)
    requires Subseq(a, b) && Subseq(c, d)
    ensures Subseq(a + c, b + d)
    decreases |b|
  {
    if b == [] {
      assert a + c == c && b + d == d;
    } else {
      assert (b + d)[1..] == b[1..] + d;
      if a == [] {
        SubseqAppend([], b[1..], c, d);
        assert a + c == [] + c;
      } else if a[0] == b[0] && Subseq(a[1..], b[1..]) {
        SubseqAppend(a[1..], b[1..], c, d);
        assert (a + c)[1..] == a[1..] + c;
      } else {
        SubseqAppend(a, b[1..], c, d);
      }
    }
  }

  lemma SubseqInside<T>(e: seq<T>, p: seq<T>, f: seq<T>, t: seq<T>)
    requires Subseq(e, f)
    ensures Subseq(e, p + f + t)
  {
    SubseqAppend([], p, e, f);
    assert [] + e == e;
    SubseqAppend(e, p + f, [], t);
    assert e + [] == e;
  }

  lemma SubseqMiddle<T>(p: seq<T>, f: seq<T>, g: seq<T>, h: seq<T>, t: seq<T>)
    ensures Subseq(p + g + t, p + (f + g + h) + t)
  {
    SubseqRefl(p);
    SubseqRefl(g);
    SubseqRefl(t);
    SubseqDropped(f, g, g);
    SubseqAppend(g, f + g, [], h);
    assert g + [] == g;
    SubseqAppend(p, p, g, f + g + h);
    SubseqAppend(p + g, p + (f + g + h), t, t);
  }

  lemma SubseqDropped<T>(a: seq<T>, c: seq<T>, d: seq<T>)
    requires Subseq(c, d)
    ensures Subseq(c, a + d)
  {
    SubseqAppend([], a, c, d);
    assert [] + c == c;
  }

  // ----- cutting at the first element with a property -----

  predicate HasNone<T>(p: T -> bool, s: seq<T>) {
    forall i :: 0 <= i < |s| ==> !p(s[i])
  }

  lemma {:induction false} SubseqHasNone<T>(p: T -> bool, xs: seq<T>, ys: seq<T>)
    requires Subseq(xs, ys) && HasNone(p, ys)
    ensures HasNone(p, xs)
    decreases |ys|
  {
    if xs != [] {
      if xs[0] == ys[0] && Subseq(xs[1..], ys[1..]) {
        SubseqHasNone(p, xs[1..], ys[1..]);
        assert xs == [xs[0]] + xs[1..];
      } else {
        SubseqHasNone(p, xs, ys[1..]);
      }
    }
  }

  /** The index of the first element with property p, or the length. */
  function FirstIndex<T>(p: T -> bool, s: seq<T>): (n: nat)
    ensures n <= |s| && HasNone(p, s[..n]) && (n < |s| ==> p(s[n]))
  {
    if s == [] || p(s[0]) then 0
    else
      var n := 1 + FirstIndex(p, s[1..]);
      assert s[..n] == [s[0]] + s[1..][..n - 1];
      n
  }

  lemma {:induction false} FirstIndexOf<T>(p: T -> bool, a: seq<T>, x: seq<T>)
    requires HasNone(p, a) && (x == [] || p(x[0]))
    ensures FirstIndex(p, a + x) == |a|
  {
    if a == [] {
      assert a + x == x;
    } else {
      assert (a + x)[1..] == a[1..] + x;
      FirstIndexOf(p, a[1..], x);
    }
  }

  lemma {:induction false} FirstIndexSkip<T>(p: T -> bool, a: seq<T>, x: seq<T>)
    requires HasNone(p, a)
    ensures FirstIndex(p, a + x) == |a| + FirstIndex(p, x)
  {
    if a == [] {
      assert a + x == x;
    } else {
      assert (a + x)[1..] == a[1..] + x;
      assert !p(a[0]);
      FirstIndexSkip(p, a[1..], x);
    }
  }

  /** Where a sequence is cut before its first element with property p is determined. */
  lemma SamePrefix<T>(p: T -> bool, a: seq<T>, x: seq<T>, b: seq<T>, y: seq<T>)
    requires a + x == b + y
    requires HasNone(p, a) && (x == [] || p(x[0]))
    requires HasNone(p, b) && (y == [] || p(y[0]))
    ensures a == b && x == y
  {
    FirstIndexOf(p, a, x);
    FirstIndexOf(p, b, y);
    assert a == (a + x)[..|a|] && x == (a + x)[|a|..];
    assert b == (b + y)[..|b|] && y == (b + y)[|b|..];
  }

  // ----- sums and bags over a sequence, independent of its order -----

  function Sum<T>(f: T -> nat, s: seq<T>): nat {
    if s == [] then 0 else f(s[0]) + Sum(f, s[1..])
  }

  lemma {:induction false} SumAppend<T>(f: T -> nat, a: seq<T>, b: seq<T>)
    ensures Sum(f, a + b) == Sum(f, a) + Sum(f, b)
  {
    if a == [] {
      assert a + b == b;
    } else {
      assert (a + b)[1..] == a[1..] + b;
      SumAppend(f, a[1..], b);
    }
  }

  function Without<T>(s: seq<T>, i: nat): seq<T>
    requires i < |s|
  {
    s[..i] + s[i + 1..]
  }

  lemma WithoutBag<T>(s: seq<T>, i: nat)
    requires i < |s|
    ensures multiset(Without(s, i)) == multiset(s) - multiset{s[i]}
  {
    assert s == s[..i] + [s[i]] + s[i + 1..];
  }

  lemma SumWithout<T>(f: T -> nat, s: seq<T>, i: nat)
    requires i < |s|
    ensures Sum(f, s) == f(s[i]) + Sum(f, Without(s, i))
  {
    SumAppend(f, s[..i], s[i + 1..]);
    SumAppend(f, s[..i], s[i..]);
    assert s[..i] + s[i..] == s;
  }

  /** An occurrence of the first element of a in a permutation of a. */
  lemma Occurrence<T>(a: seq<T>, b: seq<T>) returns (i: nat)
    requires multiset(a) == multiset(b) && a != []
    ensures i < |b| && b[i] == a[0]
    ensures multiset(a[1..]) == multiset(Without(b, i))
  {
    assert a[0] in multiset(b);
    i :| 0 <= i < |b| && b[i] == a[0];
    WithoutBag(b, i);
    WithoutBag(a, 0);
    assert Without(a, 0) == a[1..];
  }

  lemma EmptyPermutation<T>(b: seq<T>)
    requires multiset(b) == multiset{}
    ensures b == []
  {
    assert |multiset(b)| == |b|;
  }

  lemma {:induction false} SumOfPermutation<T>(f: T -> nat, a: seq<T>, b: seq<T>)
    requires multiset(a) == multiset(b)
    ensures Sum(f, a) == Sum(f, b)
  {
    if a == [] {
      EmptyPermutation(b);
    } else {
      var i := Occurrence(a, b);
      SumOfPermutation(f, a[1..], Without(b, i));
      SumWithout(f, b, i);
    }
  }

  lemma {:induction false} MapOfPermutation<T, U>(f: T -> U, a: seq<T>, b: seq<T>)
    requires multiset(a) == multiset(b)
    ensures multiset(Map(f, a)) == multiset(Map(f, b))
  {
    if a == [] {
      EmptyPermutation(b);
    } else {
      var i := Occurrence(a, b);
      MapOfPermutation(f, a[1..], Without(b, i));
      WithoutBag(Map(f, b), i);
      assert Without(Map(f, b), i) == Map(f, Without(b, i));
      assert Map(f, a) == [f(a[0])] + Map(f, a[1..]);
    }
  }

  lemma {:induction false} FilterCount<T>(p: T -> bool, s: seq<T>, x: T)
    ensures multiset(Filter(p, s))[x] == if p(x) then multiset(s)[x] else 0
  {
    if s != [] {
      FilterCount(p, s[1..], x);
      assert s == [s[0]] + s[1..];
    }
  }

  lemma FilterOfPermutation<T(!new)>(p: T -> bool, a: seq<T>, b: seq<T>)
    requires multiset(a) == multiset(b)
    ensures multiset(Filter(p, a)) == multiset(Filter(p, b))
  {
    forall x: T
      ensures multiset(Filter(p, a))[x] == multiset(Filter(p, b))[x]
    {
      FilterCount(p, a, x);
      FilterCount(p, b, x);
    }
  }
}
