/** The outline that a constitution is read as, told from its headers and lines. */
module OutlineOutcome {
  import opened Seqs
  import opened Text
  import Words
  import opened Constitution

  // ----- the text as headers and bodies -----

  datatype Sub = Sub(header: string, body: seq<string>)

  datatype Part = Part(header: string, body: seq<string>, subs: seq<Sub>)

  predicate TwoSigns(l: string) {
    |l| >= 3 && l[0] == '#' && l[1] == '#' && l[2] == ' '
  }

  predicate ThreeSigns(l: string) {
    |l| >= 4 && l[0] == '#' && l[1] == '#' && l[2] == '#' && l[3] == ' '
  }

  predicate Plain(l: string) {
    !TwoSigns(l) && !ThreeSigns(l)
  }

  predicate AllPlain(ls: seq<string>) {
    forall i :: 0 <= i < |ls| ==> Plain(ls[i])
  }

  predicate IsSub(s: Sub) {
    ThreeSigns(s.header) && AllPlain(s.body)
  }

  predicate IsPart(p: Part) {
    TwoSigns(p.header) && AllPlain(p.body) && forall i :: 0 <= i < |p.subs| ==> IsSub(p.subs[i])
  }

  predicate AreParts(ps: seq<Part>) {
    forall i :: 0 <= i < |ps| ==> IsPart(ps[i])
  }

  predicate IsPreface(ls: seq<string>) {
    forall i :: 0 <= i < |ls| ==> !TwoSigns(ls[i])
  }

  function SubLines(s: Sub): seq<string> {
    [s.header] + s.body
  }

  function PartLines(p: Part): seq<string> {
    [p.header] + p.body + Flatten(Map(SubLines, p.subs))
  }

  function OutlineLines(preface: seq<string>, ps: seq<Part>): seq<string> {
    preface + Flatten(Map(PartLines, ps))
  }

  // ----- what is read of it -----

  predicate Solid(l: string) {
    !AllSpace(l)
  }

  /** The place of the last line that holds something, or 0. */
  function LastSolid(ls: seq<string>): nat {
    if ls == [] then 0 else if Solid(ls[|ls| - 1]) then |ls| - 1 else LastSolid(ls[..|ls| - 1])
  }

  function ItemsOf(ls: seq<string>): seq<string> {
    Map(StripListMarker, Filter(Solid, ls))
  }

  /** A subsection whose header is line `start`. */
  function ReadSub(s: Sub, start: nat): Section
    requires IsSub(s)
  {
    Section(2, Trim(s.header[4..]), start, start + LastSolid(SubLines(s)), ItemsOf(s.body), [])
  }

  function ReadSubs(ss: seq<Sub>, start: nat): seq<Section>
    requires forall i :: 0 <= i < |ss| ==> IsSub(ss[i])
  {
    if ss == [] then [] else [ReadSub(ss[0], start)] + ReadSubs(ss[1..], start + |SubLines(ss[0])|)
  }

  function ReadPart(p: Part, start: nat): Section
    requires IsPart(p)
  {
    Section(1, Trim(p.header[3..]), start, start + LastSolid(PartLines(p)), ItemsOf(p.body),
            ReadSubs(p.subs, start + 1 + |p.body|))
  }

  function ReadParts(ps: seq<Part>, start: nat): seq<Section>
    requires AreParts(ps)
  {
    if ps == [] then []
    else
      assert IsPart(ps[0]);
      [ReadPart(ps[0], start)] + ReadParts(ps[1..], start + |PartLines(ps[0])|)
  }

  // ----- the parser does so -----

  lemma SignsAre(l: string)
    ensures TwoSigns(l) <==> IsHead(l)
    ensures ThreeSigns(l) <==> IsSubhead(l)
    ensures Solid(l) <==> !Blank(l)
  {
    BlankIsAllSpace(l);
  }

  /** The lines from i on are these. */
  predicate At(lines: seq<string>, i: nat, ls: seq<string>) {
    i + |ls| <= |lines| && lines[i..i + |ls|] == ls
  }

  lemma AtFirst(lines: seq<string>, i: nat, ls: seq<string>)
    requires At(lines, i, ls) && ls != []
    ensures i < |lines| && lines[i] == ls[0] && At(lines, i + 1, ls[1..])
  {
    assert lines[i..i + |ls|][0] == lines[i];
    assert lines[i + 1..i + |ls|] == lines[i..i + |ls|][1..];
  }

  lemma AtParts(lines: seq<string>, i: nat, a: seq<string>, b: seq<string>)
    requires At(lines, i, a + b)
    ensures At(lines, i, a) && At(lines, i + |a|, b)
  {
    assert lines[i..i + |a|] == lines[i..i + |a + b|][..|a|];
    assert lines[i + |a|..i + |a| + |b|] == lines[i..i + |a + b|][|a|..];
  }

  /** The last solid line after the lines from i on are read, if `last` was it before. */
  function LastAfter(ls: seq<string>, i: nat, last: nat): nat {
    if ls == [] then last else LastAfter(ls[1..], i + 1, if Solid(ls[0]) then i else last)
  }

  lemma ItemsCons(l: string, rest: seq<string>)
    ensures ItemsOf([l] + rest) == (if Solid(l) then [StripListMarker(l)] else []) + ItemsOf(rest)
  {
    hide Filter, Map, StripListMarker, Solid;
    FilterCons(Solid, l, rest);
    MapAppend(StripListMarker, if Solid(l) then [l] else [], Filter(Solid, rest));
    assert Map(StripListMarker, [l]) == [StripListMarker(l)] && Map(StripListMarker, []) == [];
  }

  lemma NoItems()
    ensures ItemsOf([]) == []
  {
  }

  /** Plain lines only add their items. */
  lemma {:induction false} PlainLines(lines: seq<string>, i: nat, body: seq<string>, last: nat, stop: bool)
    requires At(lines, i, body) && AllPlain(body)
    ensures i + |body| <= |lines|
    ensures var rest := BodyFrom(lines, i + |body|, LastAfter(body, i, last), stop);
            BodyFrom(lines, i, last, stop) == rest.(items := ItemsOf(body) + rest.items)
    decreases |body|
  {
    hide BodyFrom, ItemsOf, Solid, StripListMarker, Blank, IsHead, IsSubhead, TwoSigns, ThreeSigns;
    if body == [] {
      NoItems();
      var p := BodyFrom(lines, i, last, stop);
      assert [] + p.items == p.items && p == p.(items := p.items);
    } else {
      AtFirst(lines, i, body);
      var l := body[0];
      SignsAre(l);
      assert Plain(l);
      BodyStep(lines, i, last, stop);
      PlainLines(lines, i + 1, body[1..], if Solid(l) then i else last, stop);
      ItemsCons(l, body[1..]);
      assert body == [l] + body[1..];
      var rest := BodyFrom(lines, i + |body|, LastAfter(body, i, last), stop);
      assert [StripListMarker(l)] + (ItemsOf(body[1..]) + rest.items) ==
        ([StripListMarker(l)] + ItemsOf(body[1..])) + rest.items;
      assert [] + ItemsOf(body[1..]) == ItemsOf(body[1..]);
    }
  }

  /** The next line, if there is one, is a header. */
  predicate HeaderNext(lines: seq<string>, i: nat) {
    i <= |lines| && (i < |lines| ==> TwoSigns(lines[i]) || ThreeSigns(lines[i]))
  }

  lemma {:induction false} LastAfterIs(ls: seq<string>, i: nat, last: nat)
    ensures (exists k :: 0 <= k < |ls| && Solid(ls[k])) ==> LastAfter(ls, i, last) == i + LastSolid(ls)
    ensures !(exists k :: 0 <= k < |ls| && Solid(ls[k])) ==> LastAfter(ls, i, last) == last
    decreases |ls|
  {
    hide Solid;
    if ls != [] {
      var rest := ls[1..];
      LastAfterIs(rest, i + 1, if Solid(ls[0]) then i else last);
      LastSolidCons(ls);
      if k :| 0 <= k < |rest| && Solid(rest[k]) { assert Solid(ls[k + 1]); }
      if k :| 0 <= k < |ls| && Solid(ls[k]) { assert k > 0 ==> Solid(rest[k - 1]); }
    }
  }

  lemma {:induction false} LastSolidCons(ls: seq<string>)
    requires ls != []
    ensures (exists k :: 0 <= k < |ls[1..]| && Solid(ls[1..][k])) ==> LastSolid(ls) == 1 + LastSolid(ls[1..])
    ensures !(exists k :: 0 <= k < |ls[1..]| && Solid(ls[1..][k])) ==> LastSolid(ls) == 0
    decreases |ls|
  {
    hide Solid;
    var n := |ls| - 1;
    if n > 0 {
      var front := ls[..n];
      LastSolidCons(front);
      assert front[1..] == ls[1..][..n - 1] && ls[1..][n - 1] == ls[n];
      if k :| 0 <= k < |ls[1..]| && Solid(ls[1..][k]) {
        assert k < n - 1 ==> Solid(front[1..][k]);
      }
      if k :| 0 <= k < |front[1..]| && Solid(front[1..][k]) { assert Solid(ls[1..][k]); }
    }
  }

  lemma {:induction false} LastAfterAppend(a: seq<string>, b: seq<string>, i: nat, last: nat)
    ensures LastAfter(a + b, i, last) == LastAfter(b, i + |a|, LastAfter(a, i, last))
    decreases |a|
  {
    hide Solid;
    if a == [] {
      assert a + b == b;
    } else {
      assert (a + b)[1..] == a[1..] + b;
      LastAfterAppend(a[1..], b, i + 1, if Solid(a[0]) then i else last);
    }
  }

  /** A header and what follows, read from the header on, ends at its last solid line. */
  lemma SolidFirst(header: string, rest: seq<string>, i: nat)
    requires Solid(header)
    ensures LastAfter(rest, i + 1, i) == i + LastSolid([header] + rest)
  {
    hide Solid;
    var ls := [header] + rest;
    assert ls[1..] == rest && Solid(ls[0]);
    LastAfterIs(ls, i, i);
  }

  lemma HeadersAreSolid(l: string)
    requires TwoSigns(l) || ThreeSigns(l)
    ensures Solid(l)
  {
    assert !IsSpace(l[0]);
  }

  /** A subsection is read with its lines, and only those. */
  lemma SubBody(lines: seq<string>, i: nat, s: Sub)
    requires At(lines, i, SubLines(s)) && IsSub(s) && HeaderNext(lines, i + |SubLines(s)|)
    ensures i + 1 <= |lines|
    ensures BodyFrom(lines, i + 1, i, true) ==
      Parsed(ItemsOf(s.body), [], i + LastSolid(SubLines(s)), i + |SubLines(s)|)
  {
    hide BodyFrom, ItemsOf, Solid, LastSolid, IsHead, IsSubhead, TwoSigns, ThreeSigns;
    AtFirst(lines, i, SubLines(s));
    assert SubLines(s)[1..] == s.body;
    PlainLines(lines, i + 1, s.body, i, true);
    HeadersAreSolid(s.header);
    SolidFirst(s.header, s.body, i);
    var end := i + |SubLines(s)|;
    if end < |lines| { SignsAre(lines[end]); }
    BodyStep(lines, end, i + LastSolid(SubLines(s)), true);
    assert ItemsOf(s.body) + [] == ItemsOf(s.body);
  }

  lemma NextSub(lines: seq<string>, i: nat, ss: seq<Sub>)
    requires At(lines, i, Flatten(Map(SubLines, ss))) && HeaderNext(lines, i + |Flatten(Map(SubLines, ss))|)
    requires ss != [] && forall k :: 0 <= k < |ss| ==> IsSub(ss[k])
    ensures At(lines, i, SubLines(ss[0])) && HeaderNext(lines, i + |SubLines(ss[0])|)
    ensures At(lines, i + |SubLines(ss[0])|, Flatten(Map(SubLines, ss[1..])))
    ensures HeaderNext(lines, i + |SubLines(ss[0])| + |Flatten(Map(SubLines, ss[1..]))|)
    ensures i < |lines| && lines[i] == ss[0].header
    ensures Flatten(Map(SubLines, ss)) == SubLines(ss[0]) + Flatten(Map(SubLines, ss[1..]))
  {
    hide At, SubLines, TwoSigns, ThreeSigns;
    var rest := Flatten(Map(SubLines, ss[1..]));
    assert Map(SubLines, ss)[1..] == Map(SubLines, ss[1..]);
    assert Flatten(Map(SubLines, ss)) == SubLines(ss[0]) + rest;
    AtParts(lines, i, SubLines(ss[0]), rest);
    SubFirst(ss[0]);
    AtFirst(lines, i, SubLines(ss[0]));
    if |ss| > 1 {
      assert Map(SubLines, ss[1..])[0] == SubLines(ss[1]);
      SubFirst(ss[1]);
      assert IsSub(ss[1]);
      AtFirst(lines, i + |SubLines(ss[0])|, rest);
    } else {
      assert rest == [];
    }
    InLines(lines, i, SubLines(ss[0]));
  }

  lemma SubFirst(s: Sub)
    ensures SubLines(s) != [] && SubLines(s)[0] == s.header
  {
  }

  lemma InLines(lines: seq<string>, i: nat, ls: seq<string>)
    requires At(lines, i, ls)
    ensures i + |ls| <= |lines|
  {
  }

  /** Subsections follow one another up to the next header of a section. */
  lemma {:induction false} SubsRead(lines: seq<string>, i: nat, ss: seq<Sub>, last: nat)
    requires At(lines, i, Flatten(Map(SubLines, ss))) && forall k :: 0 <= k < |ss| ==> IsSub(ss[k])
    requires var end := i + |Flatten(Map(SubLines, ss))|; end <= |lines| && (end < |lines| ==> TwoSigns(lines[end]))
    ensures i <= |lines|
    ensures BodyFrom(lines, i, last, false) ==
      Parsed([], ReadSubs(ss, i), LastAfter(Flatten(Map(SubLines, ss)), i, last), i + |Flatten(Map(SubLines, ss))|)
    decreases |ss|
  {
    hide BodyFrom, ItemsOf, Solid, LastSolid, IsHead, IsSubhead, TwoSigns, ThreeSigns, At, LastAfter, ReadSub, SubLines;
    if ss == [] {
      NoSubs(i, last);
      if i < |lines| { SignsAre(lines[i]); }
      BodyStep(lines, i, last, false);
    } else {
      NextSub(lines, i, ss);
      var s, rest := ss[0], Flatten(Map(SubLines, ss[1..]));
      var next := i + |SubLines(s)|;
      assert IsSub(s);
      SubBody(lines, i, s);
      SignsAre(lines[i]);
      HeadIsNotSubhead(lines[i]);
      BodyStep(lines, i, last, false);
      var end := i + LastSolid(SubLines(s));
      SubsRead(lines, next, ss[1..], end);
      LastOfSub(s, rest, i, last);
      ReadSubIs(s, i);
    }
  }

  lemma ReadSubIs(s: Sub, i: nat)
    requires IsSub(s)
    ensures ReadSub(s, i) == Section(2, Trim(s.header[4..]), i, i + LastSolid(SubLines(s)), ItemsOf(s.body), [])
  {
    hide Trim, LastSolid, ItemsOf, SubLines;
  }

  lemma NoSubs(i: nat, last: nat)
    ensures Flatten(Map(SubLines, [])) == [] && LastAfter([], i, last) == last
  {
  }

  lemma LastOfSub(s: Sub, rest: seq<string>, i: nat, last: nat)
    requires IsSub(s)
    ensures LastAfter(SubLines(s) + rest, i, last) == LastAfter(rest, i + |SubLines(s)|, i + LastSolid(SubLines(s)))
  {
    hide Solid, LastSolid, ThreeSigns, AllPlain;
    LastAfterAppend(SubLines(s), rest, i, last);
    HeadersAreSolid(s.header);
    SolidFirst(s.header, s.body, i);
    LastAfterAppend([s.header], s.body, i, last);
    OneSolid(s.header, i, last);
  }

  lemma OneSolid(l: string, i: nat, last: nat)
    requires Solid(l)
    ensures LastAfter([l], i, last) == i
  {
    hide Solid;
    assert [l][1..] == [];
  }

  /** A section is read with its lines and subsections. */
  lemma PartRead(lines: seq<string>, i: nat, p: Part)
    requires At(lines, i, PartLines(p)) && IsPart(p)
    requires var end := i + |PartLines(p)|; end <= |lines| && (end < |lines| ==> TwoSigns(lines[end]))
    ensures i < |lines| && IsHead(lines[i]) && SectionAt(lines, i) == ReadPart(p, i)
    ensures BodyFrom(lines, i + 1, i, false).next == i + |PartLines(p)|
  {
    hide BodyFrom, ItemsOf, Solid, LastSolid, IsHead, IsSubhead, TwoSigns, ThreeSigns, At, LastAfter, ReadSub, SubLines,
      AllPlain, Flatten, Trim;
    var subs := Flatten(Map(SubLines, p.subs));
    var tail := p.body + subs;
    assert PartLines(p) == [p.header] + tail;
    AtFirst(lines, i, PartLines(p));
    assert PartLines(p)[1..] == tail;
    SignsAre(lines[i]);
    AtParts(lines, i + 1, p.body, subs);
    PlainLines(lines, i + 1, p.body, i, false);
    var last := LastAfter(p.body, i + 1, i);
    SubsRead(lines, i + 1 + |p.body|, p.subs, last);
    LastAfterAppend(p.body, subs, i + 1, i);
    HeadersAreSolid(p.header);
    SolidFirst(p.header, tail, i);
    assert ItemsOf(p.body) + [] == ItemsOf(p.body);
  }

  lemma {:induction false} PartsRead(lines: seq<string>, i: nat, ps: seq<Part>)
    requires At(lines, i, Flatten(Map(PartLines, ps))) && AreParts(ps) && i + |Flatten(Map(PartLines, ps))| == |lines|
    ensures i <= |lines| && SectionsFrom(lines, i) == ReadParts(ps, i)
    decreases |ps|
  {
    hide BodyFrom, At, PartLines, ReadPart, SectionAt, IsHead, TwoSigns, SectionsFrom;
    if ps == [] {
      assert Flatten(Map(PartLines, ps)) == [];
      NoMoreSections(lines);
    } else {
      var p, rest := ps[0], Flatten(Map(PartLines, ps[1..]));
      assert Map(PartLines, ps)[1..] == Map(PartLines, ps[1..]);
      assert Flatten(Map(PartLines, ps)) == PartLines(p) + rest;
      AtParts(lines, i, PartLines(p), rest);
      assert IsPart(p);
      if |ps| > 1 {
        assert Map(PartLines, ps[1..])[0] == PartLines(ps[1]);
        PartFirst(ps[1]);
        assert IsPart(ps[1]);
        AtFirst(lines, i + |PartLines(p)|, rest);
      } else {
        assert rest == [];
      }
      PartRead(lines, i, p);
      SectionsStep(lines, i);
      PartsRead(lines, i + |PartLines(p)|, ps[1..]);
    }
  }

  lemma PartFirst(p: Part)
    ensures PartLines(p) != [] && PartLines(p)[0] == p.header
  {
  }

  lemma {:induction false} PrefaceSkipped(lines: seq<string>, i: nat, n: nat)
    requires i <= n <= |lines| && forall k :: i <= k < n ==> !TwoSigns(lines[k])
    ensures SectionsFrom(lines, i) == SectionsFrom(lines, n)
    decreases n - i
  {
    hide SectionsFrom, IsHead, TwoSigns;
    if i < n {
      SignsAre(lines[i]);
      SectionsStep(lines, i);
      PrefaceSkipped(lines, i + 1, n);
    }
  }

  /** The outline: one section for each part, with trimmed title, the places of its header and of its
      last line that holds something, the lines of its own that do, without list markers, and its
      subsections in the same way. */
  lemma OutlineWrittenOut(content: string, preface: seq<string>, ps: seq<Part>)
    requires Lines(content) == OutlineLines(preface, ps) && IsPreface(preface) && AreParts(ps)
    ensures ParseSections(content) == ReadParts(ps, |preface|)
  {
    hide Lines, SectionsFrom, IsHead, TwoSigns, AreParts, Flatten, Map;
    var lines := Lines(content);
    var n := |preface|;
    forall k | 0 <= k < n ensures !TwoSigns(lines[k]) { assert lines[k] == preface[k]; }
    PrefaceSkipped(lines, 0, n);
    assert lines[n..n + |Flatten(Map(PartLines, ps))|] == Flatten(Map(PartLines, ps));
    PartsRead(lines, n, ps);
  }

  // ----- every text is one -----

  lemma {:induction false} CutPlain(ls: seq<string>) returns (body: seq<string>, rest: seq<string>)
    ensures ls == body + rest && AllPlain(body) && (rest == [] || !Plain(rest[0]))
  {
    hide Plain;
    if ls == [] || !Plain(ls[0]) {
      body, rest := [], ls;
    } else {
      var b, r := CutPlain(ls[1..]);
      body, rest := [ls[0]] + b, r;
      assert ls == [ls[0]] + ls[1..];
    }
  }

  lemma MapFlattenCons<T>(f: T -> seq<string>, x: T, rest: seq<T>)
    ensures Flatten(Map(f, [x] + rest)) == f(x) + Flatten(Map(f, rest))
  {
    hide Flatten;
    MapAppend(f, [x], rest);
    assert Map(f, [x]) == [f(x)];
    FlattenAppend([f(x)], Map(f, rest));
    FlattenOne(f(x));
  }

  lemma {:induction false} CutSubs(ls: seq<string>) returns (ss: seq<Sub>, rest: seq<string>)
    requires ls == [] || !Plain(ls[0])
    ensures ls == Flatten(Map(SubLines, ss)) + rest && (forall i :: 0 <= i < |ss| ==> IsSub(ss[i]))
    ensures rest == [] || TwoSigns(rest[0])
    decreases |ls|
  {
    hide TwoSigns, ThreeSigns;
    if ls == [] || TwoSigns(ls[0]) {
      ss, rest := [], ls;
      assert Flatten(Map(SubLines, [])) == [];
    } else {
      var body, more := CutPlain(ls[1..]);
      var tail;
      tail, rest := CutSubs(more);
      var s := Sub(ls[0], body);
      ss := [s] + tail;
      MapFlattenCons(SubLines, s, tail);
      assert ls == [ls[0]] + ls[1..];
      assert SubLines(s) + Flatten(Map(SubLines, tail)) + rest == [ls[0]] + (body + (Flatten(Map(SubLines, tail)) + rest));
    }
  }

  lemma {:induction false} CutParts(ls: seq<string>) returns (ps: seq<Part>)
    requires ls == [] || TwoSigns(ls[0])
    ensures ls == Flatten(Map(PartLines, ps)) && AreParts(ps)
    decreases |ls|
  {
    hide TwoSigns, ThreeSigns, IsSub, Flatten, Map, PartLines, AllPlain;
    if ls == [] {
      ps := [];
      NoParts();
    } else {
      var body, more := CutPlain(ls[1..]);
      var subs, rest := CutSubs(more);
      var tail := CutParts(rest);
      var p := Part(ls[0], body, subs);
      ps := [p] + tail;
      MapFlattenCons(PartLines, p, tail);
      assert ls == [ls[0]] + ls[1..];
      PartThen(p, rest);
    }
  }

  lemma NoParts()
    ensures Flatten(Map(PartLines, [])) == []
  {
  }

  lemma PartThen(p: Part, rest: seq<string>)
    ensures PartLines(p) + rest == [p.header] + (p.body + (Flatten(Map(SubLines, p.subs)) + rest))
  {
    hide Flatten, Map;
  }

  lemma {:induction false} CutPreface(ls: seq<string>) returns (preface: seq<string>, rest: seq<string>)
    ensures ls == preface + rest && IsPreface(preface) && (rest == [] || TwoSigns(rest[0]))
  {
    hide TwoSigns;
    if ls == [] || TwoSigns(ls[0]) {
      preface, rest := [], ls;
    } else {
      var p, r := CutPreface(ls[1..]);
      preface, rest := [ls[0]] + p, r;
      assert ls == [ls[0]] + ls[1..];
    }
  }

  /** Every text has such a form. */
  lemma EveryTextIsAnOutline(content: string) returns (preface: seq<string>, ps: seq<Part>)
    ensures Lines(content) == OutlineLines(preface, ps) && IsPreface(preface) && AreParts(ps)
  {
    hide Lines, IsPreface, AreParts, Flatten, Map;
    var rest;
    preface, rest := CutPreface(Lines(content));
    ps := CutParts(rest);
  }
}
