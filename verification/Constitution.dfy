/** `constitution.rs`: a parser of `## ` sections with `### ` subsections, in which one cursor is
    shared by two loops, one calling the other. */
module Constitution {
  import opened Seqs
  import opened Text
  import Words

  datatype Section = Section(level: nat, title: string, lineStart: nat, lineEnd: nat,
                             items: seq<string>, children: seq<Section>)

  predicate IsHead(l: string) {
    "## " <= l
  }

  predicate IsSubhead(l: string) {
    "### " <= l
  }

  // ----- list markers -----

  /** The first position of ". ", or the length. */
  function FindDot(s: string): (n: nat)
    ensures n <= |s|
    ensures n < |s| ==> n + 1 < |s| && s[n] == '.' && s[n + 1] == ' '
    ensures forall i :: 0 <= i < n && i + 1 < |s| ==> !(s[i] == '.' && s[i + 1] == ' ')
  {
    if |s| < 2 then |s|
    else if s[0] == '.' && s[1] == ' ' then 0
    else 1 + FindDot(s[1..])
  }

  function StripListMarker(line: string): string {
    var t := Trim(line);
    if "* " <= t then t[2..]
    else if "- " <= t then t[2..]
    else
      var dot := FindDot(t);
      if dot < |t| && t[..dot] != "" && Words.AllDigits(t[..dot]) then t[dot + 2..] else t
  }

  /** A bullet, or a number with a dot, and a blank. */
  predicate IsMarker(m: string) {
    m == "* " || m == "- " || (|m| >= 3 && Words.AllDigits(m[..|m| - 2]) && m[|m| - 2] == '.' && m[|m| - 1] == ' ')
  }

  lemma {:induction false} FindDotAt(t: string, n: nat)
    requires n + 1 < |t| && Words.AllDigits(t[..n]) && t[n] == '.' && t[n + 1] == ' '
    ensures FindDot(t) == n
  {
    if n > 0 {
      assert t[..n][0] == t[0];
      assert t[1..][..n - 1] == t[..n][1..];
      FindDotAt(t[1..], n - 1);
    }
  }

  /** A leading marker is stripped from the trimmed line. */
  lemma MarkerStripped(line: string, m: string)
    requires IsMarker(m) && m <= Trim(line)
    ensures Trim(line) == m + StripListMarker(line)
  {
    var t := Trim(line);
    hide Trim;
    if m != "* " && m != "- " {
      var n := |m| - 2;
      assert t[..|m|] == m && t[..n] == m[..n] && t[n] == m[n] && t[n + 1] == m[n + 1];
      assert m[..n][0] == t[0];
      FindDotAt(t, n);
    }
  }

  /** Nothing else is. */
  lemma OnlyMarkerStripped(line: string)
    requires StripListMarker(line) != Trim(line)
    ensures exists m :: IsMarker(m) && Trim(line) == m + StripListMarker(line)
  {
    var t := Trim(line);
    hide Trim;
    if "* " <= t || "- " <= t {
      assert t == t[..2] + t[2..];
      assert IsMarker(t[..2]);
    } else {
      var dot := FindDot(t);
      assert t[..dot + 2][..dot] == t[..dot];
      assert IsMarker(t[..dot + 2]);
      assert t == t[..dot + 2] + t[dot + 2..];
    }
  }

  // ----- the parser -----

  datatype Parsed = Parsed(items: seq<string>, children: seq<Section>, last: nat, next: nat)

  /** Where a body ends: before a header, or before a subheader when that stops it too. */
  predicate Stops(lines: seq<string>, i: nat, stopAtChild: bool) {
    i >= |lines| || IsHead(lines[i]) || (stopAtChild && IsSubhead(lines[i]))
  }

  /** What a body yields from line i on, when `last` is the last solid line before it. */
  function BodyFrom(lines: seq<string>, i: nat, last: nat, stopAtChild: bool): (p: Parsed)
    requires i <= |lines|
    ensures i <= p.next <= |lines| && Stops(lines, p.next, stopAtChild)
    decreases |lines| - i, !stopAtChild
  {
    if Stops(lines, i, stopAtChild) then Parsed([], [], last, i)
    else if IsSubhead(lines[i]) then
      var body := BodyFrom(lines, i + 1, i, true);
      var child := Section(2, Trim(lines[i][4..]), i, body.last, body.items, []);
      var rest := BodyFrom(lines, body.next, body.last, stopAtChild);
      Parsed(rest.items, [child] + rest.children, rest.last, rest.next)
    else
      var solid := !Blank(lines[i]);
      var rest := BodyFrom(lines, i + 1, if solid then i else last, stopAtChild);
      Parsed((if solid then [StripListMarker(lines[i])] else []) + rest.items, rest.children, rest.last, rest.next)
  }

  function SectionAt(lines: seq<string>, i: nat): Section
    requires i < |lines| && IsHead(lines[i])
  {
    var body := BodyFrom(lines, i + 1, i, false);
    Section(1, Trim(lines[i][3..]), i, body.last, body.items, body.children)
  }

  function SectionsFrom(lines: seq<string>, i: nat): seq<Section>
    requires i <= |lines|
    decreases |lines| - i
  {
    if i == |lines| then []
    else if IsHead(lines[i]) then
      [SectionAt(lines, i)] + SectionsFrom(lines, BodyFrom(lines, i + 1, i, false).next)
    else SectionsFrom(lines, i + 1)
  }

  function ParseSections(content: string): seq<Section> {
    SectionsFrom(Lines(content), 0)
  }

  lemma HeadIsNotSubhead(l: string)
    ensures !(IsHead(l) && IsSubhead(l))
    ensures IsHead(l) || IsSubhead(l) ==> !Blank(l)
  {
    assert IsHead(l) ==> l[2] == "## "[2];
    assert IsSubhead(l) ==> l[2] == "### "[2];
    if IsHead(l) || IsSubhead(l) {
      NotBlank(l, 0);
    }
  }

  /** One turn of the loop of `parse_body`. */
  lemma BodyStep(lines: seq<string>, i: nat, last: nat, stopAtChild: bool)
    requires i <= |lines|
    ensures Stops(lines, i, stopAtChild) ==> BodyFrom(lines, i, last, stopAtChild) == Parsed([], [], last, i)
    ensures !Stops(lines, i, stopAtChild) && IsSubhead(lines[i]) ==>
              var body := BodyFrom(lines, i + 1, i, true);
              var rest := BodyFrom(lines, body.next, body.last, stopAtChild);
              BodyFrom(lines, i, last, stopAtChild)
                == Parsed(rest.items, [Section(2, Trim(lines[i][4..]), i, body.last, body.items, [])] + rest.children,
                          rest.last, rest.next)
    ensures !Stops(lines, i, stopAtChild) && !IsSubhead(lines[i]) && Blank(lines[i]) ==>
              BodyFrom(lines, i, last, stopAtChild) == BodyFrom(lines, i + 1, last, stopAtChild)
    ensures !Stops(lines, i, stopAtChild) && !IsSubhead(lines[i]) && !Blank(lines[i]) ==>
              var rest := BodyFrom(lines, i + 1, i, stopAtChild);
              BodyFrom(lines, i, last, stopAtChild)
                == rest.(items := [StripListMarker(lines[i])] + rest.items)
  {
    hide Blank, StripListMarker, Trim, IsHead, IsSubhead;
  }

  /** The loop of `parse_body`; the cursor goes in as i and comes out as next. */
  method ParseBodyLoop(lines: seq<string>, i: nat, fallback: nat, stopAtChild: bool)
    returns (items: seq<string>, children: seq<Section>, last: nat, next: nat)
    requires i <= |lines|
    ensures Parsed(items, children, last, next) == BodyFrom(lines, i, fallback, stopAtChild)
    decreases !stopAtChild
  {
    hide Blank, StripListMarker, Trim, BodyFrom, IsHead;
    items, children, last, next := [], [], fallback, i;
    ghost var p := BodyFrom(lines, i, fallback, stopAtChild);
    while next < |lines|
      invariant next <= |lines|
      invariant var rest := BodyFrom(lines, next, last, stopAtChild);
        p == Parsed(items + rest.items, children + rest.children, rest.last, rest.next)
      decreases |lines| - next
    {
      BodyStep(lines, next, last, stopAtChild);
      var line := lines[next];
      if IsHead(line) {
        break;
      }
      if stopAtChild && IsSubhead(line) {
        break;
      }
      if IsSubhead(line) {
        var start := next;
        var childItems, grandchildren, end, after := ParseBodyLoop(lines, next + 1, start, true);
        var child := Section(2, Trim(line[4..]), start, end, childItems, []);
        Regrouped(children, [child], BodyFrom(lines, after, end, stopAtChild).children);
        children := children + [child];
        last := end;
        next := after;
        continue;
      }
      if !Blank(line) {
        Regrouped(items, [StripListMarker(line)], BodyFrom(lines, next + 1, next, stopAtChild).items);
        items := items + [StripListMarker(line)];
        last := next;
      }
      next := next + 1;
    }
    BodyStep(lines, next, last, stopAtChild);
  }

  /** The loop of `parse_sections`. */
  method ParseSectionsLoop(content: string) returns (sections: seq<Section>)
    ensures sections == ParseSections(content)
  {
    hide Trim, Lines;
    var lines := Lines(content);
    sections := [];
    var i := 0;
    while i < |lines|
      invariant i <= |lines| && sections + SectionsFrom(lines, i) == SectionsFrom(lines, 0)
      decreases |lines| - i
    {
      if IsHead(lines[i]) {
        var start := i;
        var items, children, end, next := ParseBodyLoop(lines, i + 1, start, false);
        sections := sections + [Section(1, Trim(lines[start][3..]), start, end, items, children)];
        i := next;
      } else {
        i := i + 1;
      }
    }
  }

  // ----- nothing is lost -----

  /** What a line contributes. */
  datatype Piece = Head(title: string) | Subhead(title: string) | Item(text: string)

  function PieceOf(l: string): Piece {
    if IsHead(l) then Head(Trim(l[3..]))
    else if IsSubhead(l) then Subhead(Trim(l[4..]))
    else Item(StripListMarker(l))
  }

  function PiecesOf(lines: seq<string>): seq<Piece> {
    if lines == [] then []
    else (if Blank(lines[0]) then [] else [PieceOf(lines[0])]) + PiecesOf(lines[1..])
  }

  function Items(items: seq<string>): seq<Piece> {
    Map(t => Item(t), items)
  }

  function ChildPieces(children: seq<Section>): seq<Piece> {
    if children == [] then []
    else [Subhead(children[0].title)] + Items(children[0].items) + ChildPieces(children[1..])
  }

  function SectionPieces(sections: seq<Section>): seq<Piece> {
    if sections == [] then []
    else [Head(sections[0].title)] + Items(sections[0].items) + ChildPieces(sections[0].children)
         + SectionPieces(sections[1..])
  }

  lemma {:induction false} PiecesAppend(a: seq<string>, b: seq<string>)
    ensures PiecesOf(a + b) == PiecesOf(a) + PiecesOf(b)
  {
    hide Blank, PieceOf;
    if a == [] {
      assert a + b == b;
    } else {
      assert (a + b)[1..] == a[1..] + b;
      PiecesAppend(a[1..], b);
    }
  }

  lemma PiecesSplit(lines: seq<string>, i: nat, j: nat, k: nat)
    requires i <= j <= k <= |lines|
    ensures PiecesOf(lines[i..k]) == PiecesOf(lines[i..j]) + PiecesOf(lines[j..k])
  {
    hide PiecesOf;
    PiecesAppend(lines[i..j], lines[j..k]);
    assert lines[i..j] + lines[j..k] == lines[i..k];
  }

  lemma PiecesStep(lines: seq<string>, i: nat, k: nat)
    requires i < k <= |lines|
    ensures PiecesOf(lines[i..k]) == (if Blank(lines[i]) then [] else [PieceOf(lines[i])]) + PiecesOf(lines[i + 1..k])
  {
    hide Blank, PieceOf;
    assert lines[i..k][1..] == lines[i + 1..k];
  }

  lemma ItemsCons(t: string, ts: seq<string>)
    ensures Items([t] + ts) == [Item(t)] + Items(ts)
  {
  }

  /** A body that starts where a subsection has just ended has no items of its own left. */
  lemma ItemsOnlyBeforeChildren(lines: seq<string>, i: nat, last: nat, stopAtChild: bool)
    requires i <= |lines| && Stops(lines, i, true)
    ensures BodyFrom(lines, i, last, stopAtChild).items == []
    decreases |lines| - i
  {
    hide Trim, Blank, StripListMarker;
    if !Stops(lines, i, stopAtChild) {
      var body := BodyFrom(lines, i + 1, i, true);
      ItemsOnlyBeforeChildren(lines, body.next, body.last, stopAtChild);
    }
  }

  lemma ChildlessBody(lines: seq<string>, i: nat, last: nat)
    requires i <= |lines|
    ensures BodyFrom(lines, i, last, true).children == []
    decreases |lines| - i
  {
    hide Trim, Blank, StripListMarker;
    if !Stops(lines, i, true) {
      ChildlessBody(lines, i + 1, if Blank(lines[i]) then last else i);
    }
  }

  /** The items and children of a body are its non-blank lines, in order and of the right kind. */
  lemma {:induction false} BodyLosesNothing(lines: seq<string>, i: nat, last: nat, stopAtChild: bool)
    requires i <= |lines|
    ensures var p := BodyFrom(lines, i, last, stopAtChild);
      Items(p.items) + ChildPieces(p.children) == PiecesOf(lines[i..p.next])
    decreases |lines| - i, !stopAtChild
  {
    hide Blank, StripListMarker, Trim, Items, BodyFrom, PiecesOf, ChildPieces, IsHead, IsSubhead;
    BodyStep(lines, i, last, stopAtChild);
    var p := BodyFrom(lines, i, last, stopAtChild);
    NoItems();
    if Stops(lines, i, stopAtChild) {
      NoPieces(lines[i..i]);
      NoChildPieces();
    } else if IsSubhead(lines[i]) {
      var body := BodyFrom(lines, i + 1, i, true);
      var rest := BodyFrom(lines, body.next, body.last, stopAtChild);
      BodyLosesNothing(lines, i + 1, i, true);
      BodyLosesNothing(lines, body.next, body.last, stopAtChild);
      SubsectionPieces(lines, i, body, p.children[0]);
      ItemsOnlyBeforeChildren(lines, body.next, body.last, stopAtChild);
      PiecesSplit(lines, i, body.next, p.next);
      ChildPiecesCons(p.children[0], rest.children);
    } else {
      var l := if Blank(lines[i]) then last else i;
      BodyLosesNothing(lines, i + 1, l, stopAtChild);
      PiecesStep(lines, i, p.next);
      PlainPiece(lines[i]);
      ItemsCons(StripListMarker(lines[i]), BodyFrom(lines, i + 1, l, stopAtChild).items);
    }
  }

  lemma PlainPiece(l: string)
    requires !IsHead(l) && !IsSubhead(l)
    ensures PieceOf(l) == Item(StripListMarker(l))
  {
  }

  lemma ChildPiecesCons(c: Section, rest: seq<Section>)
    ensures ChildPieces([c] + rest) == [Subhead(c.title)] + Items(c.items) + ChildPieces(rest)
  {
    hide Items;
    assert ([c] + rest)[1..] == rest;
  }

  /** The lines of a subsection. */
  lemma SubsectionPieces(lines: seq<string>, i: nat, body: Parsed, child: Section)
    requires i < |lines| && IsSubhead(lines[i]) && body == BodyFrom(lines, i + 1, i, true)
    requires Items(body.items) + ChildPieces(body.children) == PiecesOf(lines[i + 1..body.next])
    requires child.title == Trim(lines[i][4..]) && child.items == body.items
    ensures [Subhead(child.title)] + Items(child.items) == PiecesOf(lines[i..body.next])
  {
    HeadIsNotSubhead(lines[i]);
    ChildlessBody(lines, i + 1, i);
    PiecesStep(lines, i, body.next);
    assert PieceOf(lines[i]) == Subhead(child.title) by {
      hide Trim, StripListMarker;
    }
    hide *;
    assert ChildPieces([]) == [] by { NoChildPieces(); }
  }

  lemma NoChildPieces()
    ensures ChildPieces([]) == []
  {
  }

  lemma NoItems()
    ensures Items([]) == []
  {
  }

  function FirstHead(lines: seq<string>, i: nat): (n: nat)
    requires i <= |lines|
    ensures i <= n <= |lines| && (n < |lines| ==> IsHead(lines[n]))
    ensures forall j :: i <= j < n ==> !IsHead(lines[j])
    decreases |lines| - i
  {
    if i == |lines| || IsHead(lines[i]) then i else FirstHead(lines, i + 1)
  }

  lemma {:induction false} SectionsLoseNothing(lines: seq<string>, i: nat)
    requires i <= |lines|
    ensures SectionPieces(SectionsFrom(lines, i)) == PiecesOf(lines[FirstHead(lines, i)..])
    decreases |lines| - i
  {
    hide Blank, StripListMarker, Trim, Items, ChildPieces, BodyFrom, PiecesOf;
    if i == |lines| {
      NoPieces(lines[i..]);
    } else if IsHead(lines[i]) {
      var body := BodyFrom(lines, i + 1, i, false);
      SectionsLoseNothing(lines, body.next);
      assert FirstHead(lines, body.next) == body.next;
      OneSectionPieces(lines, i);
      PiecesSplit(lines, i, body.next, |lines|);
      assert lines[i..|lines|] == lines[i..] && lines[body.next..|lines|] == lines[body.next..];
      SectionPiecesCons(SectionAt(lines, i), SectionsFrom(lines, body.next));
    } else {
      SectionsLoseNothing(lines, i + 1);
    }
  }

  lemma OneSectionPieces(lines: seq<string>, i: nat)
    requires i < |lines| && IsHead(lines[i])
    ensures var s := SectionAt(lines, i);
      [Head(s.title)] + Items(s.items) + ChildPieces(s.children)
        == PiecesOf(lines[i..BodyFrom(lines, i + 1, i, false).next])
  {
    hide Blank, StripListMarker, Trim, Items, ChildPieces, BodyFrom, PiecesOf, PieceOf;
    var body := BodyFrom(lines, i + 1, i, false);
    BodyLosesNothing(lines, i + 1, i, false);
    PiecesStep(lines, i, body.next);
    HeadPiece(lines[i]);
  }

  lemma SectionPiecesCons(s: Section, rest: seq<Section>)
    ensures SectionPieces([s] + rest)
         == [Head(s.title)] + Items(s.items) + ChildPieces(s.children) + SectionPieces(rest)
  {
    hide Items, ChildPieces;
    assert ([s] + rest)[1..] == rest;
  }

  lemma NoPieces(lines: seq<string>)
    requires lines == []
    ensures PiecesOf(lines) == []
  {
  }

  lemma HeadPiece(l: string)
    requires IsHead(l)
    ensures PieceOf(l) == Head(Trim(l[3..])) && !Blank(l)
  {
    HeadIsNotSubhead(l);
  }

  /** Flattening sections, items and children gives exactly the non-blank lines from the first
      header on, in order and with the right kind. */
  lemma ParserLosesNothing(content: string)
    ensures SectionPieces(ParseSections(content)) == PiecesOf(Lines(content)[FirstHead(Lines(content), 0)..])
  {
    SectionsLoseNothing(Lines(content), 0);
  }

  // ----- line ranges -----

  /** The last line of a body is its last non-blank one, or the one given. */
  lemma {:induction false} BodyEndsSolid(lines: seq<string>, i: nat, last: nat, stopAtChild: bool)
    requires last < i <= |lines|
    ensures var p := BodyFrom(lines, i, last, stopAtChild);
      && (p.last == last || (i <= p.last < p.next && !Blank(lines[p.last])))
      && (forall j :: i <= j < p.next && p.last < j ==> Blank(lines[j]))
    decreases |lines| - i, !stopAtChild
  {
    hide Blank, StripListMarker, Trim, BodyFrom, IsHead;
    BodyStep(lines, i, last, stopAtChild);
    if !Stops(lines, i, stopAtChild) {
      if IsSubhead(lines[i]) {
        HeadIsNotSubhead(lines[i]);
        var body := BodyFrom(lines, i + 1, i, true);
        BodyEndsSolid(lines, i + 1, i, true);
        BodyEndsSolid(lines, body.next, body.last, stopAtChild);
      } else {
        BodyEndsSolid(lines, i + 1, if Blank(lines[i]) then last else i, stopAtChild);
      }
    }
  }

  /** Subsections follow each other, each within the lines given. */
  predicate ChildrenIn(children: seq<Section>, from: nat, to: nat) {
    children == [] ||
    (from <= children[0].lineStart <= children[0].lineEnd <= to && ChildrenIn(children[1..], children[0].lineEnd + 1, to))
  }

  lemma ChildrenInLonger(children: seq<Section>, from: nat, from': nat, to: nat)
    requires ChildrenIn(children, from, to) && from' <= from
    ensures ChildrenIn(children, from', to)
  {
  }

  lemma {:induction false} BodyChildrenIn(lines: seq<string>, i: nat, last: nat, stopAtChild: bool)
    requires last < i <= |lines|
    ensures ChildrenIn(BodyFrom(lines, i, last, stopAtChild).children, i, BodyFrom(lines, i, last, stopAtChild).last)
    decreases |lines| - i, !stopAtChild
  {
    hide Blank, StripListMarker, Trim, BodyFrom, IsHead;
    BodyStep(lines, i, last, stopAtChild);
    if !Stops(lines, i, stopAtChild) {
      if IsSubhead(lines[i]) {
        var body := BodyFrom(lines, i + 1, i, true);
        var rest := BodyFrom(lines, body.next, body.last, stopAtChild);
        BodyEndsSolid(lines, i + 1, i, true);
        BodyEndsSolid(lines, body.next, body.last, stopAtChild);
        BodyChildrenIn(lines, body.next, body.last, stopAtChild);
        ChildrenInLonger(rest.children, body.next, body.last + 1, rest.last);
        assert BodyFrom(lines, i, last, stopAtChild).children[1..] == rest.children;
      } else {
        var l := if Blank(lines[i]) then last else i;
        BodyChildrenIn(lines, i + 1, l, stopAtChild);
        ChildrenInLonger(BodyFrom(lines, i + 1, l, stopAtChild).children, i + 1, i, BodyFrom(lines, i + 1, l, stopAtChild).last);
      }
    }
  }

  /** Sections follow each other; each starts at its header and ends at the last non-blank line
      before the next header, with its subsections inside. */
  predicate SectionsIn(lines: seq<string>, sections: seq<Section>, from: nat)
    decreases |sections|
  {
    if sections == [] then forall j :: from <= j < |lines| ==> !IsHead(lines[j])
    else
      var s := sections[0];
      && from <= s.lineStart <= s.lineEnd < |lines| && IsHead(lines[s.lineStart]) && !Blank(lines[s.lineEnd])
      && (forall j :: from <= j < s.lineStart ==> !IsHead(lines[j]))
      && (forall j :: s.lineStart < j <= s.lineEnd ==> !IsHead(lines[j]))
      && ChildrenIn(s.children, s.lineStart + 1, s.lineEnd)
      && (forall j :: s.lineEnd < j < (if |sections| > 1 then sections[1].lineStart else |lines|) ==> j < |lines| && Blank(lines[j]))
      && SectionsIn(lines, sections[1..], s.lineEnd + 1)
  }

  lemma {:induction false} BodyHasNoHead(lines: seq<string>, i: nat, last: nat, stopAtChild: bool)
    requires i <= |lines|
    ensures forall j :: i <= j < BodyFrom(lines, i, last, stopAtChild).next ==> !IsHead(lines[j])
    decreases |lines| - i, !stopAtChild
  {
    hide Blank, StripListMarker, Trim, BodyFrom;
    BodyStep(lines, i, last, stopAtChild);
    if !Stops(lines, i, stopAtChild) {
      if IsSubhead(lines[i]) {
        var body := BodyFrom(lines, i + 1, i, true);
        BodyHasNoHead(lines, i + 1, i, true);
        BodyHasNoHead(lines, body.next, body.last, stopAtChild);
      } else {
        BodyHasNoHead(lines, i + 1, if Blank(lines[i]) then last else i, stopAtChild);
      }
    }
  }

  /** From a stop on, sections start right there. */
  lemma SectionsStartAtStop(lines: seq<string>, i: nat)
    requires i <= |lines| && Stops(lines, i, false)
    ensures var ss := SectionsFrom(lines, i); if i == |lines| then ss == [] else ss != [] && ss[0].lineStart == i
  {
    hide Blank, StripListMarker, Trim, BodyFrom;
  }

  lemma SectionsStep(lines: seq<string>, i: nat)
    requires i < |lines|
    ensures IsHead(lines[i]) ==>
              SectionsFrom(lines, i) == [SectionAt(lines, i)] + SectionsFrom(lines, BodyFrom(lines, i + 1, i, false).next)
    ensures !IsHead(lines[i]) ==> SectionsFrom(lines, i) == SectionsFrom(lines, i + 1)
  {
    hide BodyFrom, SectionAt, IsHead;
  }

  lemma SectionsInCons(lines: seq<string>, i: nat, rest: seq<Section>)
    requires i < |lines| && IsHead(lines[i])
    requires var next := BodyFrom(lines, i + 1, i, false).next;
      SectionsIn(lines, rest, next) && (if next == |lines| then rest == [] else rest != [] && rest[0].lineStart == next)
    ensures SectionsIn(lines, [SectionAt(lines, i)] + rest, i)
  {
    hide Blank, StripListMarker, Trim, BodyFrom, ChildrenIn, IsHead, SectionsIn;
    var body, s := BodyFrom(lines, i + 1, i, false), SectionAt(lines, i);
    HeadIsNotSubhead(lines[i]);
    BodyEndsSolid(lines, i + 1, i, false);
    BodyHasNoHead(lines, i + 1, i, false);
    BodyChildrenIn(lines, i + 1, i, false);
    SectionsInEarlier(lines, rest, body.next, body.last + 1);
    SectionsInConsIs(lines, s, rest, i);
  }

  lemma SectionsInConsIs(lines: seq<string>, s: Section, rest: seq<Section>, from: nat)
    requires from == s.lineStart <= s.lineEnd < |lines| && IsHead(lines[s.lineStart]) && !Blank(lines[s.lineEnd])
    requires forall j :: s.lineStart < j <= s.lineEnd ==> !IsHead(lines[j])
    requires ChildrenIn(s.children, s.lineStart + 1, s.lineEnd) && SectionsIn(lines, rest, s.lineEnd + 1)
    requires forall j :: s.lineEnd < j < (if rest != [] then rest[0].lineStart else |lines|) ==> j < |lines| && Blank(lines[j])
    ensures SectionsIn(lines, [s] + rest, from)
  {
    hide Blank, ChildrenIn, IsHead;
    assert ([s] + rest)[1..] == rest;
  }

  lemma {:induction false} SectionsInFrom(lines: seq<string>, i: nat)
    requires i <= |lines| && Stops(lines, i, false)
    ensures SectionsIn(lines, SectionsFrom(lines, i), i)
    decreases |lines| - i
  {
    hide BodyFrom, SectionAt, IsHead, SectionsIn;
    if i < |lines| {
      var body := BodyFrom(lines, i + 1, i, false);
      SectionsStep(lines, i);
      SectionsStartAtStop(lines, body.next);
      SectionsInFrom(lines, body.next);
      SectionsInCons(lines, i, SectionsFrom(lines, body.next));
    } else {
      NoSectionsIn(lines);
    }
  }

  lemma NoSectionsIn(lines: seq<string>)
    ensures SectionsIn(lines, SectionsFrom(lines, |lines|), |lines|)
  {
  }

  lemma SectionsInEarlier(lines: seq<string>, ss: seq<Section>, from: nat, from': nat)
    requires SectionsIn(lines, ss, from) && from' <= from
    requires forall j :: from' <= j < from && j < |lines| ==> !IsHead(lines[j])
    ensures SectionsIn(lines, ss, from')
  {
    hide Blank, ChildrenIn, IsHead;
  }

  lemma {:induction false} SectionsFromFirst(lines: seq<string>, i: nat)
    requires i <= |lines|
    ensures SectionsFrom(lines, i) == SectionsFrom(lines, FirstHead(lines, i))
    decreases |lines| - i
  {
    hide BodyFrom, Trim, IsHead;
    if i < |lines| && !IsHead(lines[i]) {
      SectionsFromFirst(lines, i + 1);
    }
  }

  /** The line ranges are disjoint, increasing and nested, and leave out only blank lines. */
  lemma LineRanges(content: string)
    ensures SectionsIn(Lines(content), ParseSections(content), 0)
  {
    hide Lines, SectionsIn, SectionsFrom, IsHead;
    var lines := Lines(content);
    var n := FirstHead(lines, 0);
    SectionsFromFirst(lines, 0);
    SectionsInFrom(lines, n);
    SectionsInEarlier(lines, SectionsFrom(lines, n), n, 0);
  }

  // ----- parsing a text in two parts -----

  function ShiftChild(offset: nat, c: Section): Section {
    c.(lineStart := offset + c.lineStart, lineEnd := offset + c.lineEnd)
  }

  function ShiftChildren(offset: nat, cs: seq<Section>): seq<Section> {
    if cs == [] then [] else [ShiftChild(offset, cs[0])] + ShiftChildren(offset, cs[1..])
  }

  /** A section whose line numbers count from an earlier line. */
  function ShiftSection(offset: nat, s: Section): Section {
    ShiftChild(offset, s).(children := ShiftChildren(offset, s.children))
  }

  function Shift(offset: nat, ss: seq<Section>): seq<Section> {
    if ss == [] then [] else [ShiftSection(offset, ss[0])] + Shift(offset, ss[1..])
  }

  function ShiftParsed(offset: nat, p: Parsed): Parsed {
    Parsed(p.items, ShiftChildren(offset, p.children), offset + p.last, offset + p.next)
  }

  /** A body does not look past the next header. */
  lemma {:induction false} BodyOfPrefix(a: seq<string>, b: seq<string>, i: nat, last: nat, stopAtChild: bool)
    requires i <= |a| && (b == [] || IsHead(b[0]))
    ensures BodyFrom(a + b, i, last, stopAtChild) == BodyFrom(a, i, last, stopAtChild)
    decreases |a| - i, !stopAtChild
  {
    hide Blank, StripListMarker, Trim, BodyFrom, IsHead, IsSubhead;
    var w := a + b;
    BodyStep(w, i, last, stopAtChild);
    BodyStep(a, i, last, stopAtChild);
    if i == |a| {
      assert b != [] ==> w[i] == b[0];
    } else {
      assert w[i] == a[i];
      if !Stops(a, i, stopAtChild) {
        if IsSubhead(a[i]) {
          var body := BodyFrom(a, i + 1, i, true);
          BodyOfPrefix(a, b, i + 1, i, true);
          BodyOfPrefix(a, b, body.next, body.last, stopAtChild);
        } else {
          BodyOfPrefix(a, b, i + 1, if Blank(a[i]) then last else i, stopAtChild);
        }
      }
    }
  }

  lemma ShiftChildrenCons(offset: nat, c: Section, rest: seq<Section>)
    ensures ShiftChildren(offset, [c] + rest) == [ShiftChild(offset, c)] + ShiftChildren(offset, rest)
  {
    hide ShiftChild;
    assert ([c] + rest)[1..] == rest;
  }

  lemma NoChildrenShifted(offset: nat)
    ensures ShiftChildren(offset, []) == []
  {
  }

  /** Lines in front only shift the line numbers of a body. */
  lemma {:induction false} BodyOfSuffix(a: seq<string>, b: seq<string>, i: nat, last: nat, stopAtChild: bool)
    requires i <= |b|
    ensures BodyFrom(a + b, |a| + i, |a| + last, stopAtChild) == ShiftParsed(|a|, BodyFrom(b, i, last, stopAtChild))
    decreases |b| - i, !stopAtChild
  {
    hide Blank, StripListMarker, Trim, BodyFrom, IsHead, ShiftChildren;
    var w := a + b;
    NoChildrenShifted(|a|);
    BodyStep(w, |a| + i, |a| + last, stopAtChild);
    BodyStep(b, i, last, stopAtChild);
    if i < |b| {
      assert w[|a| + i] == b[i];
      if !Stops(b, i, stopAtChild) {
        if IsSubhead(b[i]) {
          var body := BodyFrom(b, i + 1, i, true);
          BodyOfSuffix(a, b, i + 1, i, true);
          BodyOfSuffix(a, b, body.next, body.last, stopAtChild);
          ShiftChildrenCons(|a|, BodyFrom(b, i, last, stopAtChild).children[0],
                            BodyFrom(b, body.next, body.last, stopAtChild).children);
        } else {
          BodyOfSuffix(a, b, i + 1, if Blank(b[i]) then last else i, stopAtChild);
        }
      }
    }
  }

  lemma ShiftCons(offset: nat, s: Section, rest: seq<Section>)
    ensures Shift(offset, [s] + rest) == [ShiftSection(offset, s)] + Shift(offset, rest)
  {
    hide ShiftSection;
    assert ([s] + rest)[1..] == rest;
  }

  lemma SectionOfSuffix(a: seq<string>, b: seq<string>, i: nat)
    requires i < |b| && IsHead(b[i])
    ensures (a + b)[|a| + i] == b[i]
    ensures SectionAt(a + b, |a| + i) == ShiftSection(|a|, SectionAt(b, i))
    ensures BodyFrom(a + b, |a| + i + 1, |a| + i, false).next == |a| + BodyFrom(b, i + 1, i, false).next
  {
    hide BodyFrom, Trim, ShiftChildren, IsHead;
    BodyOfSuffix(a, b, i + 1, i, false);
  }

  lemma {:induction false} SectionsOfSuffix(a: seq<string>, b: seq<string>, i: nat)
    requires i <= |b|
    ensures SectionsFrom(a + b, |a| + i) == Shift(|a|, SectionsFrom(b, i))
    decreases |b| - i
  {
    hide *;
    var w := a + b;
    if i == |b| {
      NoMoreSections(w);
      NoMoreSections(b);
      NothingShifted(|a|);
    } else {
      assert w[|a| + i] == b[i];
      SectionsStep(w, |a| + i);
      SectionsStep(b, i);
      if IsHead(b[i]) {
        var next := BodyFrom(b, i + 1, i, false).next;
        SectionOfSuffix(a, b, i);
        SectionsOfSuffix(a, b, next);
        ShiftCons(|a|, SectionAt(b, i), SectionsFrom(b, next));
      } else {
        SectionsOfSuffix(a, b, i + 1);
      }
    }
  }

  lemma NoMoreSections(lines: seq<string>)
    ensures SectionsFrom(lines, |lines|) == []
  {
  }

  lemma NothingShifted(offset: nat)
    ensures Shift(offset, []) == []
  {
  }

  lemma {:induction false} SectionsOfBoth(a: seq<string>, b: seq<string>, i: nat)
    requires i <= |a| && (b == [] || IsHead(b[0]))
    ensures SectionsFrom(a + b, i) == SectionsFrom(a, i) + Shift(|a|, SectionsFrom(b, 0))
    decreases |a| - i
  {
    hide BodyFrom, SectionAt, Shift;
    var w := a + b;
    if i == |a| {
      SectionsOfSuffix(a, b, 0);
    } else {
      hide SectionsFrom;
      assert w[i] == a[i];
      SectionsStep(w, i);
      SectionsStep(a, i);
      if IsHead(a[i]) {
        var body := BodyFrom(a, i + 1, i, false);
        SectionOfPrefix(a, b, i);
        SectionsOfBoth(a, b, body.next);
        Regrouped([SectionAt(a, i)], SectionsFrom(a, body.next), Shift(|a|, SectionsFrom(b, 0)));
      } else {
        SectionsOfBoth(a, b, i + 1);
      }
    }
  }

  lemma Regrouped<T>(x: seq<T>, y: seq<T>, z: seq<T>)
    ensures x + (y + z) == x + y + z
  {
  }

  lemma SectionOfPrefix(a: seq<string>, b: seq<string>, i: nat)
    requires i < |a| && IsHead(a[i]) && (b == [] || IsHead(b[0]))
    ensures (a + b)[i] == a[i] && SectionAt(a + b, i) == SectionAt(a, i)
    ensures BodyFrom(a + b, i + 1, i, false) == BodyFrom(a, i + 1, i, false)
  {
    hide BodyFrom, Trim, IsHead;
    BodyOfPrefix(a, b, i + 1, i, false);
  }

  /** A text put together from complete lines and a text that opens with a header parses into the
      sections of the one followed by those of the other, with later line numbers. */
  lemma ParseInParts(a: string, b: string)
    requires a == "" || Terminated(a)
    requires Lines(b) == [] || IsHead(Lines(b)[0])
    ensures ParseSections(a + b) == ParseSections(a) + Shift(|Lines(a)|, ParseSections(b))
  {
    hide SplitInclusive, StripEol, SectionsFrom, IsHead;
    SplitAppend(a, b);
    MapAppend(StripEol, SplitInclusive(a), SplitInclusive(b));
    SectionsOfBoth(Lines(a), Lines(b), 0);
  }
}
