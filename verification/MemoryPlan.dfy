/** The planning half of `memory_archive.rs`: which entries stay in `memory.md`, which go to
    the archive, and what a plan conserves. */
module MemoryPlan {
  import opened Seqs
  import opened Text
  import opened MemoryParse

  // ----- one section -----

  datatype BodyPlan = BodyPlan(kept: seq<string>, moved: seq<seq<string>>)

  function OrderFor(kind: Kind, es: seq<seq<string>>): Order {
    match kind
    case Instincts => NewestFirst
    case ChangeLog => DetectOrder(es)
  }

  function BudgetFor(kind: Kind, policy: Policy): nat {
    match kind
    case ChangeLog => policy.changeLogBytes
    case Instincts => policy.instinctBytes
  }

  function KeptCount(kind: Kind, es: seq<seq<string>>, policy: Policy): (k: nat)
    ensures k <= |es|
  {
    var order := OrderFor(kind, es);
    if order.Unknown? then |es| else SplitPoint(es, order, BudgetFor(kind, policy), policy.minEntries)
  }

  function PlanBody(kind: Kind, body: seq<string>, policy: Policy): BodyPlan {
    var b := SplitBody(body);
    var order, k := OrderFor(kind, b.entries), KeptCount(kind, b.entries, policy);
    BodyPlan(b.preamble + Flatten(Newest(b.entries, order, k)) + b.trailing, Oldest(b.entries, order, k))
  }

  /** What a section leaves behind, and the entries of the given kind it gives up. */
  function PlanSection(s: Section, policy: Policy): Section {
    var kind := SectionKind(s.heading);
    if kind.None? then s else Section(s.heading, PlanBody(kind.value, s.body, policy).kept)
  }

  function MovedOf(kind: Kind, s: Section, policy: Policy): seq<seq<string>> {
    if SectionKind(s.heading) == Some(kind) then PlanBody(kind, s.body, policy).moved else []
  }

  lemma FlattenThree<T>(a: seq<seq<T>>, b: seq<seq<T>>, c: seq<seq<T>>)
    ensures Flatten(a + b + c) == Flatten(a) + Flatten(b) + Flatten(c)
  {
    FlattenAppend(a + b, c);
    FlattenAppend(a, b);
  }

  /** The newest k entries are a contiguous stretch, the others lie around it in order. */
  lemma NewestStretch(es: seq<seq<string>>, order: Order, k: nat) returns (pre: seq<seq<string>>, post: seq<seq<string>>)
    requires k <= |es|
    ensures es == pre + Newest(es, order, k) + post
    ensures Oldest(es, order, k) == pre + post
  {
    if order.NewestFirst? {
      pre, post := [], es[k..];
    } else {
      pre, post := es[..|es| - k], [];
    }
  }

  lemma PlanBodySplit(kind: Kind, body: seq<string>, policy: Policy)
    returns (b: Body, pre: seq<seq<string>>, kept: seq<seq<string>>, post: seq<seq<string>>)
    ensures b == SplitBody(body) && b.entries == pre + kept + post
    ensures kept == Newest(b.entries, OrderFor(kind, b.entries), KeptCount(kind, b.entries, policy))
    ensures PlanBody(kind, body, policy) == BodyPlan(b.preamble + Flatten(kept) + b.trailing, pre + post)
    ensures body == b.preamble + (Flatten(pre) + Flatten(kept) + Flatten(post)) + b.trailing
  {
    b := SplitBody(body);
    var order, k := OrderFor(kind, b.entries), KeptCount(kind, b.entries, policy);
    kept := Newest(b.entries, order, k);
    pre, post := NewestStretch(b.entries, order, k);
    FlattenThree(pre, kept, post);
  }

  /** A section keeps a subsequence of its lines, and the rest are the moved entries. */
  lemma PlanBodyConserves(kind: Kind, body: seq<string>, policy: Policy)
    ensures Subseq(PlanBody(kind, body, policy).kept, body)
    ensures multiset(PlanBody(kind, body, policy).kept) + multiset(Flatten(PlanBody(kind, body, policy).moved))
         == multiset(body)
  {
    var b, pre, kept, post := PlanBodySplit(kind, body, policy);
    FlattenAppend(pre, post);
    SubseqMiddle(b.preamble, Flatten(pre), Flatten(kept), Flatten(post), b.trailing);
  }

  // ----- planning a second time moves nothing -----

  lemma NewestAll(es: seq<seq<string>>, order: Order)
    ensures Newest(es, order, |es|) == es && Oldest(es, order, |es|) == []
  {
    assert es[..|es|] == es && es[0..] == es;
  }

  lemma KeptCountAll(kind: Kind, es: seq<seq<string>>, policy: Policy)
    requires |es| <= policy.minEntries || TotalBytes(es) <= BudgetFor(kind, policy)
    ensures KeptCount(kind, es, policy) == |es|
  {
    NewestAll(es, OrderFor(kind, es));
  }

  /** When everything fits, or the order is unknown, a section gives up no entry. */
  lemma AllFit(kind: Kind, body: seq<string>, policy: Policy)
    requires KeptCount(kind, SplitBody(body).entries, policy) == |SplitBody(body).entries|
    ensures PlanBody(kind, body, policy) == BodyPlan(body, [])
  {
    var es := SplitBody(body).entries;
    NewestAll(es, OrderFor(kind, es));
  }

  /** Without entries the blank lines at the end of the preamble join the trailing ones. */
  lemma SplitWithoutEntries(p: seq<string>, t: seq<string>)
    requires NoBullet(p) && AllBlank(t)
    ensures SplitBody(p + t).entries == []
  {
    hide SplitBody, ContentEnd, Blank;
    var n := ContentEnd(p);
    assert p[..n] + Flatten([]) == p[..n];
    assert p[..n] + (Flatten([]) + p[n..]) + t == p + t;
    SplitOfParts(p[..n], [], p[n..], t);
  }

  lemma EntrySolidPart(e: seq<string>)
    requires IsEntry(e)
    ensures 0 < ContentEnd(e) && IsEntry(e[..ContentEnd(e)])
  {
    var n := ContentEnd(e);
    BulletNotBlank(e[0]);
    ContentEndAbove(e, 0);
    assert e[..n][1..] == e[1..][..n - 1];
  }

  /** The last entry without the blank lines at its end. */
  function Solidified(es: seq<seq<string>>): seq<seq<string>>
    requires es != []
  {
    es[..|es| - 1] + [es[|es| - 1][..ContentEnd(es[|es| - 1])]]
  }

  /** The blank lines that Solidified drops. */
  function LooseTail(es: seq<seq<string>>): (t: seq<string>)
    requires es != []
    ensures AllBlank(t)
  {
    es[|es| - 1][ContentEnd(es[|es| - 1])..]
  }

  lemma CutLast(init: seq<seq<string>>, e: seq<string>, n: nat)
    requires n <= |e|
    ensures Flatten(init + [e[..n]]) + e[n..] == Flatten(init + [e])
  {
    hide Flatten;
    FlattenSnoc(init, e);
    FlattenSnoc(init, e[..n]);
    assert Flatten(init) + e[..n] + e[n..] == Flatten(init) + e;
  }

  lemma SolidifiedLines(es: seq<seq<string>>)
    requires es != []
    ensures Flatten(Solidified(es)) + LooseTail(es) == Flatten(es)
  {
    CutLast(es[..|es| - 1], es[|es| - 1], ContentEnd(es[|es| - 1]));
    assert es == es[..|es| - 1] + [es[|es| - 1]];
  }

  lemma SolidifiedEntries(es: seq<seq<string>>)
    requires AllEntries(es) && es != []
    ensures AllEntries(Solidified(es))
  {
    EntrySolidPart(es[|es| - 1]);
  }

  lemma SolidifiedEndsSolid(p: seq<string>, es: seq<seq<string>>)
    requires AllEntries(es) && es != []
    ensures EndsSolid(p + Flatten(Solidified(es)))
  {
    var init, e := es[..|es| - 1], es[|es| - 1];
    var solid := e[..ContentEnd(e)];
    EntrySolidPart(e);
    FlattenSnoc(init, solid);
    var w := p + Flatten(Solidified(es));
    assert w == (p + Flatten(init)) + solid;
    assert w[|w| - 1] == solid[|solid| - 1];
  }

  /** The entries that a body made of whole entries splits into: the same ones, the last
      without the blank lines at its end. */
  lemma SplitOfEntries(p: seq<string>, es: seq<seq<string>>, t: seq<string>)
    requires NoBullet(p) && AllEntries(es) && AllBlank(t) && es != []
    ensures SplitBody(p + Flatten(es) + t).entries == Solidified(es)
  {
    SolidifiedEntries(es);
    SolidifiedEndsSolid(p, es);
    SolidifiedLines(es);
    SplitOfParts(p, Solidified(es), LooseTail(es), t);
  }

  lemma SplitOfParts(p: seq<string>, es: seq<seq<string>>, loose: seq<string>, t: seq<string>)
    requires NoBullet(p) && AllEntries(es) && EndsSolid(p + Flatten(es)) && AllBlank(loose) && AllBlank(t)
    ensures SplitBody(p + (Flatten(es) + loose) + t).entries == es
  {
    var b := Body(p, es, loose + t);
    assert RenderBody(b) == p + (Flatten(es) + loose) + t;
    SplitBodyUnique(b);
  }

  lemma PrefixBytes(e: seq<string>, n: nat)
    requires n <= |e|
    ensures EntryBytes(e[..n]) <= EntryBytes(e)
  {
    hide Flatten, ByteLen;
    FlattenAppend(e[..n], e[n..]);
    assert e[..n] + e[n..] == e;
    ByteLenAppend(Flatten(e[..n]), Flatten(e[n..]));
  }

  lemma SolidifiedBytes(es: seq<seq<string>>)
    requires es != []
    ensures TotalBytes(Solidified(es)) <= TotalBytes(es)
  {
    hide EntryBytes;
    var init, e := es[..|es| - 1], es[|es| - 1];
    TotalBytesAppend(init, [e]);
    TotalBytesAppend(init, [e[..ContentEnd(e)]]);
    PrefixBytes(e, ContentEnd(e));
    assert es == init + [e];
  }

  lemma SolidifiedFirstLines(es: seq<seq<string>>)
    requires AllEntries(es) && es != []
    ensures |Solidified(es)| == |es|
    ensures forall i :: 0 <= i < |es| ==> FirstLine(Solidified(es)[i]) == FirstLine(es[i])
  {
    EntrySolidPart(es[|es| - 1]);
  }

  lemma KeptFitsAgain(kind: Kind, p: seq<string>, es: seq<seq<string>>, t: seq<string>,
                      body: seq<string>, policy: Policy)
    requires NoBullet(p) && AllEntries(es) && AllBlank(t) && body == p + Flatten(es) + t
    requires |es| <= policy.minEntries || TotalBytes(es) <= BudgetFor(kind, policy)
    ensures PlanBody(kind, body, policy) == BodyPlan(body, [])
  {
    hide *;
    if es == [] {
      assert body == p + t by { FlattenNone(p, es, t); }
      SplitWithoutEntries(p, t);
    } else {
      SplitOfEntries(p, es, t);
      SolidifiedFirstLines(es);
      SolidifiedBytes(es);
    }
    KeptCountAll(kind, SplitBody(body).entries, policy);
    AllFit(kind, body, policy);
  }

  lemma FlattenNone(p: seq<string>, es: seq<seq<string>>, t: seq<string>)
    requires es == []
    ensures p + Flatten(es) + t == p + t
  {
  }

  /** Planning what a section kept moves nothing more, even when blank lines have shifted to
      the end of the section or the kept entries run in the opposite order. */
  lemma ReplanBody(kind: Kind, body: seq<string>, policy: Policy)
    ensures var kept := PlanBody(kind, body, policy).kept;
      PlanBody(kind, kept, policy) == BodyPlan(kept, [])
  {
    var b := SplitBody(body);
    var order := OrderFor(kind, b.entries);
    if order.Unknown? {
      AllFit(kind, body, policy);
    } else {
      var k := KeptCount(kind, b.entries, policy);
      KeptFitsAgain(kind, b.preamble, Newest(b.entries, order, k), b.trailing,
                    PlanBody(kind, body, policy).kept, policy);
    }
  }

  // ----- the whole document -----

  function PlanSections(ss: seq<Section>, policy: Policy): (r: seq<Section>)
    ensures |r| == |ss|
  {
    if ss == [] then [] else [PlanSection(ss[0], policy)] + PlanSections(ss[1..], policy)
  }

  /** The entries of one kind that all sections give up, in file order. */
  function Moved(kind: Kind, ss: seq<Section>, policy: Policy): seq<seq<string>> {
    if ss == [] then [] else MovedOf(kind, ss[0], policy) + Moved(kind, ss[1..], policy)
  }

  function PlanDoc(d: Doc, policy: Policy): Doc {
    Doc(d.preface, PlanSections(d.sections, policy))
  }

  lemma PlanSectionWellFormed(s: Section, policy: Policy)
    requires WellFormedSection(s)
    ensures WellFormedSection(PlanSection(s, policy))
  {
    SectionKeepsOrder(s, policy);
    SubseqHasNone(IsHeading, PlanSection(s, policy).body, s.body);
  }

  lemma {:induction false} PlanSectionsWellFormed(ss: seq<Section>, policy: Policy)
    requires forall i :: 0 <= i < |ss| ==> WellFormedSection(ss[i])
    ensures forall i :: 0 <= i < |ss| ==> WellFormedSection(PlanSections(ss, policy)[i])
  {
    if ss != [] {
      PlanSectionWellFormed(ss[0], policy);
      PlanSectionsWellFormed(ss[1..], policy);
    }
  }

  lemma ReplanSection(s: Section, policy: Policy)
    ensures PlanSection(PlanSection(s, policy), policy) == PlanSection(s, policy)
    ensures forall kind :: MovedOf(kind, PlanSection(s, policy), policy) == []
  {
    var kind := SectionKind(s.heading);
    if kind.Some? {
      ReplanBody(kind.value, s.body, policy);
    }
  }

  lemma {:induction false} ReplanSections(ss: seq<Section>, policy: Policy)
    ensures PlanSections(PlanSections(ss, policy), policy) == PlanSections(ss, policy)
    ensures forall kind :: Moved(kind, PlanSections(ss, policy), policy) == []
  {
    if ss != [] {
      ReplanSection(ss[0], policy);
      ReplanSections(ss[1..], policy);
      assert PlanSections(ss, policy)[1..] == PlanSections(ss[1..], policy);
    }
  }

  lemma SectionConserves(s: Section, policy: Policy)
    ensures multiset(PlanSection(s, policy).body) + multiset(Flatten(MovedOf(ChangeLog, s, policy)))
            + multiset(Flatten(MovedOf(Instincts, s, policy))) == multiset(s.body)
  {
    var kind := SectionKind(s.heading);
    if kind.Some? {
      PlanBodyConserves(kind.value, s.body, policy);
    }
  }

  lemma SectionKeepsOrder(s: Section, policy: Policy)
    ensures Subseq(PlanSection(s, policy).body, s.body)
  {
    var kind := SectionKind(s.heading);
    if kind.Some? {
      PlanBodyConserves(kind.value, s.body, policy);
    } else {
      SubseqRefl(s.body);
    }
  }

  lemma {:induction false} SectionsKeepOrder(ss: seq<Section>, policy: Policy)
    ensures Subseq(RenderSections(PlanSections(ss, policy)), RenderSections(ss))
  {
    if ss != [] {
      var x, y := PlanSection(ss[0], policy).body, ss[0].body;
      var xs, ys := RenderSections(PlanSections(ss[1..], policy)), RenderSections(ss[1..]);
      SectionKeepsOrder(ss[0], policy);
      SectionsKeepOrder(ss[1..], policy);
      assert PlanSections(ss, policy)[1..] == PlanSections(ss[1..], policy);
      SubseqAppend(x, y, xs, ys);
      SubseqRefl([ss[0].heading]);
      SubseqAppend([ss[0].heading], [ss[0].heading], x + xs, y + ys);
    }
  }

  lemma Regroup(h: multiset<string>, k: multiset<string>, c: multiset<string>, i: multiset<string>,
                ks: multiset<string>, cs: multiset<string>, js: multiset<string>)
    ensures h + (k + ks) + (c + cs) + (i + js) == h + ((k + c + i) + (ks + cs + js))
  {
  }

  lemma RenderedBag(ss: seq<Section>)
    requires ss != []
    ensures multiset(RenderSections(ss))
         == multiset([ss[0].heading]) + (multiset(ss[0].body) + multiset(RenderSections(ss[1..])))
  {
  }

  lemma MovedBag(kind: Kind, ss: seq<Section>, policy: Policy)
    requires ss != []
    ensures multiset(Flatten(Moved(kind, ss, policy)))
         == multiset(Flatten(MovedOf(kind, ss[0], policy))) + multiset(Flatten(Moved(kind, ss[1..], policy)))
  {
    FlattenAppend(MovedOf(kind, ss[0], policy), Moved(kind, ss[1..], policy));
  }

  /** Kept lines and moved lines together are the lines there were. */
  lemma {:induction false} SectionsConserve(ss: seq<Section>, policy: Policy)
    ensures multiset(RenderSections(PlanSections(ss, policy))) + multiset(Flatten(Moved(ChangeLog, ss, policy)))
            + multiset(Flatten(Moved(Instincts, ss, policy))) == multiset(RenderSections(ss))
  {
    if ss != [] {
      var s, rest := ss[0], ss[1..];
      var kept := PlanSections(rest, policy);
      SectionConserves(s, policy);
      SectionsConserve(rest, policy);
      assert PlanSections(ss, policy)[1..] == kept;
      RenderedBag(ss);
      RenderedBag(PlanSections(ss, policy));
      MovedBag(ChangeLog, ss, policy);
      MovedBag(Instincts, ss, policy);
      Regroup(multiset([s.heading]), multiset(PlanSection(s, policy).body),
              multiset(Flatten(MovedOf(ChangeLog, s, policy))), multiset(Flatten(MovedOf(Instincts, s, policy))),
              multiset(RenderSections(kept)),
              multiset(Flatten(Moved(ChangeLog, rest, policy))), multiset(Flatten(Moved(Instincts, rest, policy))));
    }
  }

  // ----- the text -----

  datatype Plan = Plan(newContent: string, changeLog: seq<string>, instincts: seq<string>, misfiled: nat)

  predicate Dated(e: seq<string>) {
    EntryDate(FirstLine(e)).Some?
  }

  /** Dated entries under `## Instincts`. */
  function Misfiled(ss: seq<Section>): nat {
    if ss == [] then 0
    else (if SectionKind(ss[0].heading) == Some(Instincts)
          then |Filter(Dated, SplitBody(ss[0].body).entries)| else 0) + Misfiled(ss[1..])
  }

  function PlanText(content: string, policy: Policy): Plan {
    var d := ParseDoc(SplitInclusive(content));
    Plan(Flatten(Render(PlanDoc(d, policy))),
         Map(Flatten, Moved(ChangeLog, d.sections, policy)),
         Map(Flatten, Moved(Instincts, d.sections, policy)),
         Misfiled(d.sections))
  }

  function PlannedLines(content: string, policy: Policy): seq<string> {
    Render(PlanDoc(ParseDoc(SplitInclusive(content)), policy))
  }

  /** The planned lines are some of the original lines, in order, and they are what the new
      text is cut into. */
  lemma PlannedLinesKeepOrder(content: string, policy: Policy)
    ensures Subseq(PlannedLines(content, policy), SplitInclusive(content))
    ensures SplitInclusive(PlanText(content, policy).newContent) == PlannedLines(content, policy)
  {
    var lines := SplitInclusive(content);
    var d := ParseDoc(lines);
    RenderParsed(lines);
    SectionsKeepOrder(d.sections, policy);
    SubseqRefl(d.preface);
    SubseqAppend(d.preface, d.preface, RenderSections(PlanSections(d.sections, policy)), RenderSections(d.sections));
    SplitIsWellFormed(content);
    SubseqWellFormed(PlannedLines(content, policy), lines);
    FlattenThenSplit(PlannedLines(content, policy));
  }

  /** The planned text parses into the planned document. */
  lemma PlannedDoc(content: string, policy: Policy)
    ensures ParseDoc(SplitInclusive(PlanText(content, policy).newContent))
         == PlanDoc(ParseDoc(SplitInclusive(content)), policy)
  {
    var d := ParseDoc(SplitInclusive(content));
    PlannedLinesKeepOrder(content, policy);
    ParsedWellFormed(SplitInclusive(content));
    PlanSectionsWellFormed(d.sections, policy);
    ParseRendered(PlanDoc(d, policy));
  }

  /** Planning is idempotent on every text: a second plan moves nothing and changes no
      character. */
  lemma PlanIdempotent(content: string, policy: Policy)
    ensures var once := PlanText(content, policy).newContent;
      var again := PlanText(once, policy);
      again.newContent == once && again.changeLog == [] && again.instincts == []
  {
    var d := ParseDoc(SplitInclusive(content));
    PlannedDoc(content, policy);
    ReplanSections(d.sections, policy);
  }

  // ----- what a plan conserves -----

  function AllLines(texts: seq<string>): seq<string> {
    Flatten(Map(SplitInclusive, texts))
  }

  lemma AllLinesAppend(a: seq<string>, b: seq<string>)
    ensures AllLines(a + b) == AllLines(a) + AllLines(b)
  {
    MapAppend(SplitInclusive, a, b);
    FlattenAppend(Map(SplitInclusive, a), Map(SplitInclusive, b));
  }

  lemma AllLinesOne(text: string)
    ensures AllLines([text]) == SplitInclusive(text)
  {
    assert Map(SplitInclusive, [text]) == [SplitInclusive(text)];
    FlattenOne(SplitInclusive(text));
  }

  lemma {:induction false} ElementSubseq(es: seq<seq<string>>, i: nat)
    requires i < |es|
    ensures Subseq(es[i], Flatten(es))
  {
    if i == 0 {
      SubseqRefl(es[0]);
      SubseqAppend(es[0], es[0], [], Flatten(es[1..]));
      assert es[0] + [] == es[0];
    } else {
      ElementSubseq(es[1..], i - 1);
      SubseqDropped(es[0], es[i], Flatten(es[1..]));
    }
  }

  lemma OutsideStretch(pre: seq<seq<string>>, kept: seq<seq<string>>, post: seq<seq<string>>, i: nat)
    requires i < |pre + post|
    ensures Subseq((pre + post)[i], Flatten(pre) + Flatten(kept) + Flatten(post))
  {
    hide *;
    var j := if i < |pre| then i else i + |kept|;
    FlattenThree(pre, kept, post);
    ElementSubseq(pre + kept + post, j);
    assert (pre + kept + post)[j] == (pre + post)[i];
  }

  lemma MovedEntryInBody(kind: Kind, body: seq<string>, policy: Policy, i: nat)
    requires i < |PlanBody(kind, body, policy).moved|
    ensures Subseq(PlanBody(kind, body, policy).moved[i], body)
  {
    var b, pre, kept, post := PlanBodySplit(kind, body, policy);
    OutsideStretch(pre, kept, post, i);
    SubseqInside((pre + post)[i], b.preamble, Flatten(pre) + Flatten(kept) + Flatten(post), b.trailing);
  }

  lemma {:induction false} MovedEntryInSections(kind: Kind, ss: seq<Section>, policy: Policy, i: nat)
    requires i < |Moved(kind, ss, policy)|
    ensures Subseq(Moved(kind, ss, policy)[i], RenderSections(ss))
  {
    hide PlanBody, SectionKind, Subseq;
    var e, mine := Moved(kind, ss, policy)[i], MovedOf(kind, ss[0], policy);
    var here, below := ss[0].body, RenderSections(ss[1..]);
    if i < |mine| {
      MovedEntryInBody(kind, here, policy, i);
      SubseqInside(e, [], here, below);
      assert [] + here + below == here + below;
    } else {
      MovedEntryInSections(kind, ss[1..], policy, i - |mine|);
      SubseqDropped(here, e, below);
    }
    SubseqDropped([ss[0].heading], e, here + below);
  }

  /** A moved text is cut into the lines of its entry. */
  lemma MovedTextLines(kind: Kind, content: string, policy: Policy)
    ensures var moved := Moved(kind, ParseDoc(SplitInclusive(content)).sections, policy);
      Map(SplitInclusive, Map(Flatten, moved)) == moved
  {
    var lines := SplitInclusive(content);
    var d := ParseDoc(lines);
    var moved := Moved(kind, d.sections, policy);
    forall i | 0 <= i < |moved|
      ensures SplitInclusive(Flatten(moved[i])) == moved[i]
    {
      MovedEntryInSections(kind, d.sections, policy, i);
      SubseqDropped(d.preface, moved[i], RenderSections(d.sections));
      RenderParsed(lines);
      SplitIsWellFormed(content);
      SubseqWellFormed(moved[i], lines);
      FlattenThenSplit(moved[i]);
    }
  }

  function PlanTexts(p: Plan): seq<string> {
    [p.newContent] + p.changeLog + p.instincts
  }

  /** The lines of the new text and of the moved texts are together the original lines. */
  lemma PlanConservesLines(content: string, policy: Policy)
    ensures multiset(AllLines(PlanTexts(PlanText(content, policy)))) == multiset(SplitInclusive(content))
  {
    var lines := SplitInclusive(content);
    var d, p := ParseDoc(lines), PlanText(content, policy);
    AllLinesAppend([p.newContent] + p.changeLog, p.instincts);
    AllLinesAppend([p.newContent], p.changeLog);
    AllLinesOne(p.newContent);
    MovedTextLines(ChangeLog, content, policy);
    MovedTextLines(Instincts, content, policy);
    PlannedLinesKeepOrder(content, policy);
    SectionsConserve(d.sections, policy);
    RenderParsed(lines);
  }

  lemma {:induction false} BytesOfLines(ls: seq<string>)
    ensures ByteLen(Flatten(ls)) == Sum(ByteLen, ls)
  {
    if ls != [] {
      ByteLenAppend(ls[0], Flatten(ls[1..]));
      BytesOfLines(ls[1..]);
    }
  }

  lemma {:induction false} BytesOfTexts(texts: seq<string>)
    ensures Sum(ByteLen, AllLines(texts)) == Sum(ByteLen, texts)
  {
    if texts != [] {
      assert texts == [texts[0]] + texts[1..];
      AllLinesAppend([texts[0]], texts[1..]);
      AllLinesOne(texts[0]);
      SumAppend(ByteLen, SplitInclusive(texts[0]), AllLines(texts[1..]));
      BytesOfLines(SplitInclusive(texts[0]));
      SplitThenFlatten(texts[0]);
      BytesOfTexts(texts[1..]);
    }
  }

  /** Not one byte is lost or added. */
  lemma PlanConservesBytes(content: string, policy: Policy)
    ensures var p := PlanText(content, policy);
      ByteLen(p.newContent) + Sum(ByteLen, p.changeLog) + Sum(ByteLen, p.instincts) == ByteLen(content)
  {
    var p := PlanText(content, policy);
    PlanConservesLines(content, policy);
    SumOfPermutation(ByteLen, AllLines(PlanTexts(p)), SplitInclusive(content));
    BytesOfTexts(PlanTexts(p));
    BytesOfLines(SplitInclusive(content));
    SplitThenFlatten(content);
    SumAppend(ByteLen, [p.newContent] + p.changeLog, p.instincts);
    SumAppend(ByteLen, [p.newContent], p.changeLog);
  }

  predicate NotBlankLine(l: string) {
    !Blank(l)
  }

  /** How often each non-blank line occurs in the texts. */
  function Counts(texts: seq<string>): multiset<string> {
    multiset(Filter(NotBlankLine, Flatten(Map(Lines, texts))))
  }

  /** The safety net of `archive_memory_with`. */
  predicate NothingLost(original: string, newContent: string, moved: seq<string>) {
    Counts([original]) <= Counts([newContent] + moved)
  }

  lemma {:induction false} LinesOfTexts(texts: seq<string>)
    ensures Flatten(Map(Lines, texts)) == Map(StripEol, AllLines(texts))
  {
    if texts != [] {
      var rest := texts[1..];
      LinesOfTexts(rest);
      assert Map(Lines, texts)[1..] == Map(Lines, rest);
      assert Map(SplitInclusive, texts)[1..] == Map(SplitInclusive, rest);
      MapAppend(StripEol, SplitInclusive(texts[0]), AllLines(rest));
    }
  }

  lemma CountsOfSameLines(a: seq<string>, b: seq<string>)
    requires multiset(AllLines(a)) == multiset(AllLines(b))
    ensures Counts(a) == Counts(b)
  {
    LinesOfTexts(a);
    LinesOfTexts(b);
    MapOfPermutation(StripEol, AllLines(a), AllLines(b));
    FilterOfPermutation(NotBlankLine, Map(StripEol, AllLines(a)), Map(StripEol, AllLines(b)));
  }

  lemma PlanTextsOf(p: Plan)
    ensures PlanTexts(p) == [p.newContent] + (p.changeLog + p.instincts)
  {
  }

  lemma SameLinesLoseNothing(original: string, texts: seq<string>, newContent: string, moved: seq<string>)
    requires multiset(AllLines(texts)) == multiset(SplitInclusive(original))
    requires texts == [newContent] + moved
    ensures NothingLost(original, newContent, moved)
  {
    AllLinesOne(original);
    CountsOfSameLines([original], texts);
  }

  /** The refusal "the plan would drop lines" is never taken. */
  lemma PlanLosesNothing(content: string, policy: Policy)
    ensures var p := PlanText(content, policy);
      NothingLost(content, p.newContent, p.changeLog + p.instincts)
  {
    hide *;
    var p := PlanText(content, policy);
    PlanConservesLines(content, policy);
    assert PlanTexts(p) == [p.newContent] + (p.changeLog + p.instincts) by { PlanTextsOf(p); }
    SameLinesLoseNothing(content, PlanTexts(p), p.newContent, p.changeLog + p.instincts);
  }

  // ----- what a plan leaves in each section -----

  lemma {:induction false} PlanSectionsAt(ss: seq<Section>, policy: Policy, n: nat)
    requires n < |ss|
    ensures PlanSections(ss, policy)[n] == PlanSection(ss[n], policy)
  {
    if n > 0 {
      PlanSectionsAt(ss[1..], policy, n - 1);
    }
  }

  /** The new text has the same sections under the same headings; one that is not a log, or
      whose order is unknown, keeps its body. */
  lemma OtherSectionsUntouched(content: string, policy: Policy, n: nat)
    requires n < |ParseDoc(SplitInclusive(content)).sections|
    ensures var before := ParseDoc(SplitInclusive(content));
      var after := ParseDoc(SplitInclusive(PlanText(content, policy).newContent));
      var kind := SectionKind(before.sections[n].heading);
      && after.preface == before.preface && |after.sections| == |before.sections|
      && after.sections[n].heading == before.sections[n].heading
      && (kind.None? || OrderFor(kind.value, SplitBody(before.sections[n].body).entries).Unknown?
          ==> after.sections[n] == before.sections[n])
  {
    var before := ParseDoc(SplitInclusive(content));
    PlannedDoc(content, policy);
    PlanSectionsAt(before.sections, policy, n);
    var s := before.sections[n];
    var kind := SectionKind(s.heading);
    if kind.Some? && OrderFor(kind.value, SplitBody(s.body).entries).Unknown? {
      AllFit(kind.value, s.body, policy);
    }
  }

  lemma SplitOfKept(p: seq<string>, es: seq<seq<string>>, t: seq<string>)
    requires NoBullet(p) && AllEntries(es) && AllBlank(t)
    ensures |SplitBody(p + Flatten(es) + t).entries| == |es|
    ensures forall i :: 0 <= i < |es| ==>
              FirstLine(SplitBody(p + Flatten(es) + t).entries[i]) == FirstLine(es[i])
  {
    assert es == [] ==> p + Flatten(es) + t == p + t;
    hide *;
    if es == [] {
      SplitWithoutEntries(p, t);
    } else {
      SplitOfEntries(p, es, t);
      SolidifiedFirstLines(es);
    }
  }

  /** A log whose order is known keeps its newest entries: as many as fit, and no more. */
  lemma LogKeepsNewest(kind: Kind, body: seq<string>, policy: Policy)
    requires !OrderFor(kind, SplitBody(body).entries).Unknown?
    ensures var es := SplitBody(body).entries;
      var after := SplitBody(PlanBody(kind, body, policy).kept).entries;
      var order, k := OrderFor(kind, es), |after|;
      && k <= |es|
      && (forall i :: 0 <= i < k ==> FirstLine(after[i]) == FirstLine(Newest(es, order, k)[i]))
      && Fits(es, order, BudgetFor(kind, policy), policy.minEntries, k)
      && (forall j :: k < j <= |es| ==> !Fits(es, order, BudgetFor(kind, policy), policy.minEntries, j))
  {
    var b := SplitBody(body);
    var order, k := OrderFor(kind, b.entries), KeptCount(kind, b.entries, policy);
    SplitOfKept(b.preamble, Newest(b.entries, order, k), b.trailing);
  }

  // ----- the loop of `plan` -----

  function EnsureFinalNewline(out: string, somethingFollows: bool): string {
    if somethingFollows && out != "" && out[|out| - 1] != '\n' then out + "\n" else out
  }

  predicate Unterminated(l: string) {
    !Terminated(l)
  }

  lemma FlattenTerminated(ls: seq<string>)
    requires ls != [] && HasNone(Unterminated, ls)
    ensures Terminated(Flatten(ls))
  {
    hide Flatten;
    assert ls == ls[..|ls| - 1] + [ls[|ls| - 1]];
    FlattenAppend(ls[..|ls| - 1], [ls[|ls| - 1]]);
    FlattenOne(ls[|ls| - 1]);
  }

  /** When lines t follow, what is written before them ends a line, whatever is left out of
      the middle. */
  lemma KeptPartTerminated(heading: string, p: seq<string>, f: seq<string>, g: seq<string>, h: seq<string>, t: seq<string>)
    requires WellFormed([heading] + (p + (f + g + h) + t)) && t != []
    ensures Terminated(Flatten([heading] + p + g))
  {
    hide *;
    var all := [heading] + p + (f + g + h) + [];
    assert all + t == [heading] + (p + (f + g + h) + t);
    UnterminatedIsLast(all, t);
    var some := [heading] + p + g;
    assert some + [] == some;
    SubseqMiddle([heading] + p, f, g, h, []);
    SubseqHasNone(Unterminated, some, all);
    FlattenTerminated(some);
  }

  lemma UnterminatedIsLast(a: seq<string>, b: seq<string>)
    requires WellFormed(a + b) && b != []
    ensures HasNone(Unterminated, a)
  {
    forall i | 0 <= i < |a|
      ensures Terminated(a[i])
    {
      assert (a + b)[i] == a[i];
    }
  }

  lemma WrittenSoFarTerminated(prev: string, heading: string, kind: Kind, body: seq<string>, policy: Policy)
    requires WellFormed([heading] + body) && SplitBody(body).trailing != []
    ensures var es := SplitBody(body).entries;
      var keep := Newest(es, OrderFor(kind, es), KeptCount(kind, es, policy));
      Terminated(prev + heading + Flatten(SplitBody(body).preamble) + Flatten(Flatten(keep)))
  {
    hide *;
    var b, pre, keep, post := PlanBodySplit(kind, body, policy);
    KeptPartTerminated(heading, b.preamble, Flatten(pre), Flatten(keep), Flatten(post), b.trailing);
    FlattenThree([heading], b.preamble, Flatten(keep));
    FlattenOne(heading);
    var w := Flatten([heading] + b.preamble + Flatten(keep));
    assert prev + heading + Flatten(b.preamble) + Flatten(Flatten(keep)) == prev + w;
    TerminatedAppend(prev, w);
  }

  lemma TerminatedAppend(a: string, b: string)
    requires Terminated(b)
    ensures Terminated(a + b)
  {
  }

  /** The body of the loop of `plan` for a log section. */
  method PlanLogSection(prev: string, heading: string, kind: Kind, body: seq<string>, policy: Policy)
    returns (out: string, moved: seq<string>)
    requires WellFormed([heading] + body)
    ensures out == prev + heading + Flatten(PlanBody(kind, body, policy).kept)
    ensures moved == Map(Flatten, PlanBody(kind, body, policy).moved)
  {
    PlanBodyParts(kind, body, policy);
    hide *;
    var parts := SplitBodyLoop(body);
    var es := parts.entries;
    var order := OrderFor(kind, es);
    var budget := BudgetFor(kind, policy);
    var kept := |es|;
    if order != Unknown {
      kept := SplitPointLoop(es, order, budget, policy.minEntries);
    }
    KeptCountIs(kind, es, policy);
    var keep, move := es[..kept], es[kept..];
    if order == OldestFirst {
      keep, move := es[|es| - kept..], es[..|es| - kept];
    }
    KeptAndMoved(es, order, kept);
    out := prev + heading + Flatten(parts.preamble);
    moved := Map(Flatten, move);
    out := out + Flatten(Flatten(keep));
    if parts.trailing != [] {
      WrittenSoFarTerminated(prev, heading, kind, body, policy);
    }
    NewlineNotAdded(out, parts.trailing != []);
    out := EnsureFinalNewline(out, parts.trailing != []);
    out := out + Flatten(parts.trailing);
    FlattenThree(parts.preamble, Flatten(keep), parts.trailing);
  }

  lemma NewlineNotAdded(out: string, somethingFollows: bool)
    requires somethingFollows ==> Terminated(out)
    ensures EnsureFinalNewline(out, somethingFollows) == out
  {
  }

  lemma PlanBodyParts(kind: Kind, body: seq<string>, policy: Policy)
    ensures var b := SplitBody(body);
      var order, k := OrderFor(kind, b.entries), KeptCount(kind, b.entries, policy);
      PlanBody(kind, body, policy)
        == BodyPlan(b.preamble + Flatten(Newest(b.entries, order, k)) + b.trailing, Oldest(b.entries, order, k))
  {
    hide SplitBody, KeptCount, Newest, Oldest, OrderFor, Flatten;
  }

  lemma KeptCountIs(kind: Kind, es: seq<seq<string>>, policy: Policy)
    ensures KeptCount(kind, es, policy)
         == if OrderFor(kind, es) == Unknown then |es|
            else SplitPoint(es, OrderFor(kind, es), BudgetFor(kind, policy), policy.minEntries)
  {
    hide SplitPoint, OrderFor, BudgetFor;
  }

  /** The ranges `plan` keeps and moves are the newest and the oldest entries. */
  lemma KeptAndMoved(es: seq<seq<string>>, order: Order, kept: nat)
    requires kept <= |es| && (order.Unknown? ==> kept == |es|)
    ensures Newest(es, order, kept) == if order.OldestFirst? then es[|es| - kept..] else es[..kept]
    ensures Oldest(es, order, kept) == if order.OldestFirst? then es[..|es| - kept] else es[kept..]
  {
  }

  lemma {:induction false} PlanSnoc(ss: seq<Section>, s: Section, policy: Policy)
    ensures PlanSections(ss + [s], policy) == PlanSections(ss, policy) + [PlanSection(s, policy)]
    ensures forall kind :: Moved(kind, ss + [s], policy) == Moved(kind, ss, policy) + MovedOf(kind, s, policy)
    ensures Misfiled(ss + [s]) == Misfiled(ss) + Misfiled([s])
  {
    hide PlanSection, MovedOf;
    if ss == [] {
      assert [] + [s] == [s];
    } else {
      assert (ss + [s])[1..] == ss[1..] + [s];
      PlanSnoc(ss[1..], s, policy);
    }
  }

  lemma {:induction false} RenderSnoc(ss: seq<Section>, s: Section)
    ensures RenderSections(ss + [s]) == RenderSections(ss) + ([s.heading] + s.body)
  {
    if ss == [] {
      assert [] + [s] == [s];
    } else {
      assert (ss + [s])[1..] == ss[1..] + [s];
      RenderSnoc(ss[1..], s);
    }
  }

  /** What the loop of `plan` has built after some of the sections. */
  predicate PlannedSoFar(preface: seq<string>, ss: seq<Section>, policy: Policy, p: Plan) {
    && p.newContent == Flatten(preface + RenderSections(PlanSections(ss, policy)))
    && p.changeLog == Map(Flatten, Moved(ChangeLog, ss, policy))
    && p.instincts == Map(Flatten, Moved(Instincts, ss, policy))
    && p.misfiled == Misfiled(ss)
  }

  lemma FlattenTail(preface: seq<string>, rs: seq<string>, h: string, body: seq<string>)
    ensures Flatten(preface + (rs + ([h] + body))) == Flatten(preface + rs) + h + Flatten(body)
  {
    hide *;
    FlattenThree(preface + rs, [h], body);
    FlattenOne(h);
    assert preface + (rs + ([h] + body)) == preface + rs + [h] + body;
  }

  lemma ContentOneMore(preface: seq<string>, ss: seq<Section>, s: Section, policy: Policy)
    ensures Flatten(preface + RenderSections(PlanSections(ss + [s], policy)))
         == Flatten(preface + RenderSections(PlanSections(ss, policy))) + s.heading
            + Flatten(PlanSection(s, policy).body)
  {
    var planned := PlanSection(s, policy);
    assert planned.heading == s.heading;
    hide *;
    PlanSnoc(ss, s, policy);
    RenderSnoc(PlanSections(ss, policy), planned);
    FlattenTail(preface, RenderSections(PlanSections(ss, policy)), planned.heading, planned.body);
  }

  lemma PlannedOneMore(preface: seq<string>, ss: seq<Section>, s: Section, policy: Policy, p: Plan, q: Plan)
    requires PlannedSoFar(preface, ss, policy, p)
    requires q.newContent == p.newContent + s.heading + Flatten(PlanSection(s, policy).body)
    requires q.changeLog == p.changeLog + Map(Flatten, MovedOf(ChangeLog, s, policy))
    requires q.instincts == p.instincts + Map(Flatten, MovedOf(Instincts, s, policy))
    requires q.misfiled == p.misfiled + Misfiled([s])
    ensures PlannedSoFar(preface, ss + [s], policy, q)
  {
    hide Flatten, PlanSections, PlanSection, Moved, MovedOf, Misfiled, RenderSections, Map;
    ContentOneMore(preface, ss, s, policy);
    PlanSnoc(ss, s, policy);
    MapAppend(Flatten, Moved(ChangeLog, ss, policy), MovedOf(ChangeLog, s, policy));
    MapAppend(Flatten, Moved(Instincts, ss, policy), MovedOf(Instincts, s, policy));
  }

  lemma MisfiledOne(s: Section)
    ensures Misfiled([s]) == if SectionKind(s.heading) == Some(Instincts)
                             then |Filter(Dated, SplitBody(s.body).entries)| else 0
  {
    hide SplitBody, Filter;
    assert [s][1..] == [];
  }

  /** One turn of the loop of `plan`: the section is put behind what is planned so far. */
  method PlanTurn(p: Plan, s: Section, policy: Policy) returns (q: Plan)
    requires WellFormed([s.heading] + s.body)
    ensures q.newContent == p.newContent + s.heading + Flatten(PlanSection(s, policy).body)
    ensures q.changeLog == p.changeLog + Map(Flatten, MovedOf(ChangeLog, s, policy))
    ensures q.instincts == p.instincts + Map(Flatten, MovedOf(Instincts, s, policy))
    ensures q.misfiled == p.misfiled + Misfiled([s])
  {
    hide Flatten, SplitBody, PlanBody, WellFormed, Filter, SectionKind, Misfiled;
    MisfiledOne(s);
    q := p;
    var kind := SectionKind(s.heading);
    if kind.None? {
      q := q.(newContent := q.newContent + s.heading + Flatten(s.body));
    } else {
      var out, moved := PlanLogSection(q.newContent, s.heading, kind.value, s.body, policy);
      q := q.(newContent := out);
      match kind.value {
        case ChangeLog => q := q.(changeLog := q.changeLog + moved);
        case Instincts =>
          q := q.(instincts := q.instincts + moved);
          q := q.(misfiled := q.misfiled + |Filter(Dated, SplitBody(s.body).entries)|);
      }
    }
  }

  lemma PlanTextIs(content: string, policy: Policy, p: Plan)
    requires var d := ParseDoc(SplitInclusive(content)); PlannedSoFar(d.preface, d.sections, policy, p)
    ensures p == PlanText(content, policy)
  {
    hide Flatten, SplitInclusive, ParseDoc, PlanSections, RenderSections, Moved, Misfiled, Map;
  }

  lemma SectionIs(lines: seq<string>, n: nat)
    requires n < |Sections(lines)|
    ensures var d, r := ParseDoc(lines), Sections(lines)[n];
            |d.sections| == |Sections(lines)| && d.sections[n] == Section(lines[r.0], lines[r.0 + 1..r.1])
            && d.preface == lines[..FirstHeading(lines)]
  {
    hide Sections, FirstHeading;
  }

  lemma PartsOf(lines: seq<string>)
    ensures ParseDoc(lines).preface == lines[..FirstHeading(lines)]
    ensures |ParseDoc(lines).sections| == |Sections(lines)|
  {
    hide Sections, FirstHeading;
  }

  /** The loop of `plan` over the sections of a text. */
  method PlanLoop(content: string, policy: Policy) returns (p: Plan)
    ensures p == PlanText(content, policy)
  {
    hide *;
    var lines := SplitInclusive(content);
    SplitIsWellFormed(content);
    var secs := Sections(lines);
    ghost var d := ParseDoc(lines);
    PartsOf(lines);
    p := Plan(Flatten(lines[..FirstHeading(lines)]), [], [], 0);
    NothingPlanned(d.preface, [], policy, p);
    assert d.sections[..0] == [];
    for n := 0 to |secs|
      invariant PlannedSoFar(d.preface, d.sections[..n], policy, p)
    {
      var (start, end) := secs[n];
      SectionIs(lines, n);
      SliceWellFormed(lines, start, end);
      var s := Section(lines[start], lines[start + 1..end]);
      var q := PlanTurn(p, s, policy);
      PlannedOneMore(d.preface, d.sections[..n], s, policy, p, q);
      assert d.sections[..n + 1] == d.sections[..n] + [s];
      p := q;
    }
    assert d.sections[..|secs|] == d.sections;
    PlanTextIs(content, policy, p);
  }

  lemma NothingPlanned(preface: seq<string>, ss: seq<Section>, policy: Policy, p: Plan)
    requires ss == [] && p == Plan(Flatten(preface), [], [], 0)
    ensures PlannedSoFar(preface, ss, policy, p)
  {
    assert preface + RenderSections(PlanSections(ss, policy)) == preface;
  }

  lemma SliceWellFormed(lines: seq<string>, from: nat, to: nat)
    requires WellFormed(lines) && from < to <= |lines|
    ensures WellFormed([lines[from]] + lines[from + 1..to])
  {
    assert [lines[from]] + lines[from + 1..to] == lines[from..to];
  }
}
