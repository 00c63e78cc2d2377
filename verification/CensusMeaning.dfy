/** What the census counters and its decision mean, and how they behave when the
    roots are reordered or joined by another one. */
module CensusMeaning {
  import opened Sequences
  import opened Json
  import opened Counting
  import opened Ordering
  import opened Pigeonhole
  import opened CensusRoot
  import opened CensusLineage
  import opened Census
  import opened CensusReport

  // -------------------------------------------------------------------- decision

  /** All the rows of the boundary have one facet set. */
  ghost predicate OneFacetSet(rows: seq<Row>, b: Boundary) {
    forall r, s :: r in rows && s in rows && r.boundary == b && s.boundary == b ==> r.facets == s.facets
  }

  /** The two rows are evidence for the trigger. */
  ghost predicate Evidence(rows: seq<Row>, r: Row, s: Row) {
    && r in rows && s in rows && r.boundary == s.boundary
    && (|| SameFindingOtherAction(r, s)
        || SameProblemOtherAction(r, s)
        || (OtherOwner(r, s) && OneFacetSet(rows, r.boundary)))
  }

  lemma GroupCountPositive(groups: map<Boundary, Facts>, p: Facts -> bool)
    ensures GroupCount(groups, p) > 0 <==> exists b :: b in groups && p(groups[b])
  {
    if b :| b in groups && p(groups[b]) {
      assert b in GroupsWith(groups, p);
    }
    if GroupCount(groups, p) > 0 {
      var b :| b in GroupsWith(groups, p);
    }
  }

  ghost predicate Shown(f: Facts) {
    IsAmbiguous(f) || HasSameFinding(f) || HasSameProblem(f)
  }

  /** Only same-problem actions of safe candidates are counted separately, so the
      fourth counter never decides. */
  lemma FourthCounterImplied(rows: seq<Row>, r: Report)
    requires ReportOf(rows, r)
    ensures r.counters.sameProblemSafe <= r.counters.sameProblem
  {
    hide GroupAt, GroupCount, Boundaries, FindingsOf, Count;
    forall b | b in r.groups && HasSameProblemSafe(r.groups[b])
      ensures HasSameProblem(r.groups[b])
    {
      assert FactsOf(GroupAt(rows, b), r.groups[b]);
    }
    GroupCountMonotone(r.groups, HasSameProblemSafe, r.groups, HasSameProblem);
  }

  /** The decision asks for one group that shows something. */
  lemma DecisionIsOneGroup(rows: seq<Row>, r: Report)
    requires ReportOf(rows, r)
    ensures r.triggerShown <==> exists b :: b in r.groups && Shown(r.groups[b])
  {
    hide GroupAt, FactsOf, GroupCount, Boundaries, FindingsOf, Count;
    FourthCounterImplied(rows, r);
    GroupCountPositive(r.groups, IsAmbiguous);
    GroupCountPositive(r.groups, HasSameFinding);
    GroupCountPositive(r.groups, HasSameProblem);
  }

  lemma GroupCountMonotone(groups: map<Boundary, Facts>, p: Facts -> bool, more: map<Boundary, Facts>, q: Facts -> bool)
    requires forall b :: b in groups && p(groups[b]) ==> b in more && q(more[b])
    ensures GroupCount(groups, p) <= GroupCount(more, q)
  {
    SubsetSize(GroupsWith(groups, p), GroupsWith(more, q));
  }

  lemma GroupShows(rows: seq<Row>, b: Boundary, f: Facts)
    requires FactsOf(GroupAt(rows, b), f)
    ensures Shown(f) <==> exists r: Row, s: Row :: r.boundary == b && Evidence(rows, r, s)
  {
    hide GroupAt, OtherOwner, SameFindingOtherAction, SameProblemOtherAction;
    var group := GroupAt(rows, b);
    GroupMembers(rows, b);
    assert OneFacetSet(rows, b) <==> !Two(group, OtherFacets);
    if Shown(f) {
      var apart := if HasSameFinding(f) then SameFindingOtherAction
                   else if HasSameProblem(f) then SameProblemOtherAction else OtherOwner;
      assert Two(group, apart);
      var r, s :| r in group && s in group && apart(r, s);
      assert Evidence(rows, r, s);
    }
    if r: Row, s: Row :| r.boundary == b && Evidence(rows, r, s) {
      assert r in group && s in group;
    }
  }

  /** The decision is "trigger shown" exactly when two candidates of one boundary
      are evidence for it. */
  lemma DecisionIsPairwise(rows: seq<Row>, r: Report)
    requires ReportOf(rows, r)
    ensures r.triggerShown <==> exists x, y :: Evidence(rows, x, y)
  {
    hide GroupAt, FactsOf, GroupCount, FindingsOf, Count, Shown, Counters.Counted;
    DecisionIsOneGroup(rows, r);
    if r.triggerShown {
      var b :| b in r.groups && Shown(r.groups[b]);
      GroupShows(rows, b, r.groups[b]);
    }
    if x, y :| Evidence(rows, x, y) {
      assert x.boundary in r.groups;
      GroupShows(rows, x.boundary, r.groups[x.boundary]);
    }
  }

  // -------------------------------------------------------------------- counters

  /** Two rows of the boundary are apart. */
  ghost predicate PairAt(rows: seq<Row>, b: Boundary, apart: (Row, Row) -> bool) {
    exists r, s :: r in rows && s in rows && r.boundary == b && s.boundary == b && apart(r, s)
  }

  ghost function WithPair(rows: seq<Row>, apart: (Row, Row) -> bool): set<Boundary> {
    set b | b in Boundaries(rows) && PairAt(rows, b, apart)
  }

  lemma TwoAt(rows: seq<Row>, b: Boundary, two: (Row, Row) -> bool, apart: (Row, Row) -> bool)
    requires forall r, s :: two(r, s) <==> apart(r, s)
    ensures Two(GroupAt(rows, b), two) <==> PairAt(rows, b, apart)
  {
    hide GroupAt;
    GroupMembers(rows, b);
    if Two(GroupAt(rows, b), two) {
      var r, s :| r in GroupAt(rows, b) && s in GroupAt(rows, b) && two(r, s);
      assert apart(r, s);
    }
    if PairAt(rows, b, apart) {
      var r, s :| r in rows && s in rows && r.boundary == b && s.boundary == b && apart(r, s);
      assert two(r, s);
    }
  }

  /** A counter of groups that show two rows apart. */
  lemma CountIs(rows: seq<Row>, groups: map<Boundary, Facts>, p: Facts -> bool, two: (Row, Row) -> bool, apart: (Row, Row) -> bool)
    requires groups.Keys == Boundaries(rows)
    requires forall b :: b in groups ==> (p(groups[b]) <==> Two(GroupAt(rows, b), two))
    requires forall r, s :: two(r, s) <==> apart(r, s)
    ensures GroupCount(groups, p) == |WithPair(rows, apart)|
  {
    hide GroupAt, Boundaries, Two, PairAt;
    forall b | b in groups
      ensures p(groups[b]) <==> PairAt(rows, b, apart)
    {
      TwoAt(rows, b, two, apart);
    }
    assert GroupsWith(groups, p) == WithPair(rows, apart);
  }

  ghost predicate Means(group: seq<Row>, f: Facts) {
    && (HasVariants(f) <==> Two(group, OtherAction))
    && (HasSafeVariants(f) <==> Two(group, SafeOtherAction))
    && (HasOwnerVariance(f) <==> Two(group, OtherOwner))
    && (IsDiscriminated(f) <==> Two(group, OtherOwner) && Two(group, OtherFacets))
    && (HasSameFinding(f) <==> Two(group, SameFindingOtherAction))
    && (HasSameProblem(f) <==> Two(group, SameProblemOtherAction))
    && (HasSameProblemSafe(f) <==> Two(group, SameProblemSafeOtherAction))
  }

  lemma GroupFacts(rows: seq<Row>, r: Report)
    requires ReportOf(rows, r)
    ensures forall b :: b in r.groups ==> Means(GroupAt(rows, b), r.groups[b])
  {
    hide GroupAt, Boundaries, Two, Count, FindingsOf, Counters.Counted;
    forall b | b in r.groups
      ensures Means(GroupAt(rows, b), r.groups[b])
    {
      assert FactsOf(GroupAt(rows, b), r.groups[b]);
      ActionsApart(GroupAt(rows, b));
      SafeActionsApart(GroupAt(rows, b));
    }
  }

  /** Every counter is the number of boundaries with a certain pair of candidates. */
  lemma VariantCounters(rows: seq<Row>, r: Report)
    requires ReportOf(rows, r)
    ensures r.counters.semanticVariant == |WithPair(rows, (x: Row, y: Row) => x.action != y.action)|
    ensures r.counters.safeVariant == |WithPair(rows, (x: Row, y: Row) => x.safe && y.safe && x.action != y.action)|
    ensures r.counters.ownerVariance == |WithPair(rows, (x: Row, y: Row) => x.owner != y.owner)|
  {
    hide GroupAt, Boundaries, Two, Count, FindingsOf, FactsAt, GroupCount, WithPair, HasVariants, HasSafeVariants, HasOwnerVariance;
    GroupFacts(rows, r);
    CountIs(rows, r.groups, HasVariants, OtherAction, (x: Row, y: Row) => x.action != y.action);
    CountIs(rows, r.groups, HasSafeVariants, SafeOtherAction, (x: Row, y: Row) => x.safe && y.safe && x.action != y.action);
    CountIs(rows, r.groups, HasOwnerVariance, OtherOwner, (x: Row, y: Row) => x.owner != y.owner);
  }

  lemma SameCounters(rows: seq<Row>, r: Report)
    requires ReportOf(rows, r)
    ensures r.counters.sameFinding == |WithPair(rows, (x: Row, y: Row) => x.findingId == y.findingId && x.action != y.action)|
    ensures r.counters.sameProblem ==
      |WithPair(rows, (x: Row, y: Row) => x.problem.Some? && x.problem == y.problem && x.action != y.action)|
    ensures r.counters.sameProblemSafe == |WithPair(rows, (x: Row, y: Row) =>
      x.safe && y.safe && x.problem.Some? && x.problem == y.problem && x.action != y.action)|
  {
    hide GroupAt, Boundaries, Two, Count, FindingsOf, FactsAt, GroupCount, WithPair, HasSameFinding, HasSameProblem, HasSameProblemSafe;
    GroupFacts(rows, r);
    CountIs(rows, r.groups, HasSameFinding, SameFindingOtherAction,
            (x: Row, y: Row) => x.findingId == y.findingId && x.action != y.action);
    CountIs(rows, r.groups, HasSameProblem, SameProblemOtherAction,
            (x: Row, y: Row) => x.problem.Some? && x.problem == y.problem && x.action != y.action);
    CountIs(rows, r.groups, HasSameProblemSafe, SameProblemSafeOtherAction, (x: Row, y: Row) =>
      x.safe && y.safe && x.problem.Some? && x.problem == y.problem && x.action != y.action);
  }

  /** Facets discriminate where two rows differ in them; what they do not explain is
      the rest of the owner variance. */
  lemma FacetCounters(rows: seq<Row>, r: Report)
    requires ReportOf(rows, r)
    ensures r.counters.facetDiscriminated ==
      |WithPair(rows, (x: Row, y: Row) => x.owner != y.owner) * WithPair(rows, (x: Row, y: Row) => x.facets != y.facets)|
    ensures r.counters.ambiguous ==
      |WithPair(rows, (x: Row, y: Row) => x.owner != y.owner) - WithPair(rows, (x: Row, y: Row) => x.facets != y.facets)|
  {
    hide GroupAt, Boundaries, Two, PairAt, Count, FindingsOf, FactsAt, HasOwnerVariance, IsDiscriminated;
    GroupFacts(rows, r);
    var owner, facets := (x: Row, y: Row) => x.owner != y.owner, (x: Row, y: Row) => x.facets != y.facets;
    forall b | b in r.groups
      ensures Two(GroupAt(rows, b), OtherOwner) <==> PairAt(rows, b, owner)
      ensures Two(GroupAt(rows, b), OtherFacets) <==> PairAt(rows, b, facets)
    {
      TwoAt(rows, b, OtherOwner, owner);
      TwoAt(rows, b, OtherFacets, facets);
    }
    assert GroupsWith(r.groups, IsDiscriminated) == WithPair(rows, owner) * WithPair(rows, facets);
    assert GroupsWith(r.groups, IsAmbiguous) == WithPair(rows, owner) - WithPair(rows, facets) by {
      AmbiguousMeans(r.groups);
    }
  }

  lemma AmbiguousMeans(groups: map<Boundary, Facts>)
    ensures forall b :: b in groups ==>
      (IsAmbiguous(groups[b]) <==> HasOwnerVariance(groups[b]) && !IsDiscriminated(groups[b]))
  {
  }

  // ---------------------------------------------------------------- conservation

  ghost function Pick(bs: set<Boundary>): (b: Boundary)
    requires bs != {}
    ensures b in bs
  {
    var b :| b in bs;
    b
  }

  ghost function SizeSum(groups: map<Boundary, Facts>, bs: set<Boundary>): nat
    requires bs <= groups.Keys
  {
    if bs == {} then 0 else groups[Pick(bs)].size + SizeSum(groups, bs - {Pick(bs)})
  }

  ghost function Within(bs: set<Boundary>): Row -> bool {
    (r: Row) => r.boundary in bs
  }

  lemma {:induction false} SizesCount(rows: seq<Row>, groups: map<Boundary, Facts>, bs: set<Boundary>)
    requires bs <= groups.Keys
    requires FactsAt(rows, groups)
    ensures SizeSum(groups, bs) == Count(rows, Within(bs))
  {
    hide GroupAt, FactsOf, FactsAt;
    if bs == {} {
      NoneWithin(rows);
    } else {
      var b := Pick(bs);
      SizesCount(rows, groups, bs - {b});
      assert groups[b].size == |GroupAt(rows, b)| by { SizeAt(rows, groups, b); }
      WithinSplits(rows, bs, b);
    }
  }

  lemma SizeAt(rows: seq<Row>, groups: map<Boundary, Facts>, b: Boundary)
    requires b in groups && FactsAt(rows, groups)
    ensures groups[b].size == |GroupAt(rows, b)|
  {
    assert FactsOf(GroupAt(rows, b), groups[b]);
  }

  lemma {:induction false} NoneWithin(rows: seq<Row>)
    ensures Count(rows, Within({})) == 0
  {
    if rows != [] {
      NoneWithin(rows[..|rows| - 1]);
    }
  }

  lemma {:induction false} WithinSplits(rows: seq<Row>, bs: set<Boundary>, b: Boundary)
    requires b in bs
    ensures Count(rows, Within(bs)) == |GroupAt(rows, b)| + Count(rows, Within(bs - {b}))
  {
    if rows != [] {
      WithinSplits(rows[..|rows| - 1], bs, b);
    }
  }

  lemma {:induction false} CountEvery<T>(s: seq<T>, p: T -> bool)
    requires forall x :: x in s ==> p(x)
    ensures Count(s, p) == |s|
  {
    if s != [] {
      CountEvery(s[..|s| - 1], p);
    }
  }

  /** Every row is counted once, as accepted or as safe, and is in exactly one
      group. Owner variance is either explained by facets or it is not. */
  lemma RowsConserved(rows: seq<Row>, r: Report)
    requires ReportOf(rows, r) && forall x :: x in rows ==> x.validated
    ensures r.accepted + r.safe == |rows|
    ensures r.validated == |rows|
    ensures r.safeValidated == r.safe
    ensures SizeSum(r.groups, r.groups.Keys) == |rows|
    ensures r.counters.ownerVariance == r.counters.facetDiscriminated + r.counters.ambiguous
  {
    hide GroupAt, FactsOf, FactsAt, Boundaries, FindingsOf;
    CountSplit(rows, IsCanonical, IsSafe);
    CountEvery(rows, IsValidated);
    CountAll(rows, IsSafeValidated, IsSafe);
    SizesCount(rows, r.groups, r.groups.Keys);
    AllBounded(rows);
    CountEvery(rows, Within(r.groups.Keys));
    OwnerVarianceSplits(r.groups);
  }

  ghost function CandidatesIn(roots: seq<Root>): nat {
    if roots == [] then 0 else CandidatesIn(roots[..|roots| - 1]) + |Selected(roots[|roots| - 1].artifacts)|
  }

  lemma {:induction false} RowsPerCandidate(text: Json -> string, roots: seq<Root>, rows: seq<Row>)
    requires RowsOver(text, roots, rows)
    ensures |rows| == CandidatesIn(roots)
    decreases |roots|
  {
    hide RowOf, Selected, SortedIds;
    if roots != [] {
      var front, last :| RowsSplit(text, roots, rows, front, last) && RowsOver(text, roots[..|roots| - 1], front);
      RowsPerCandidate(text, roots[..|roots| - 1], front);
      SortedIdsSize(Selected(roots[|roots| - 1].artifacts));
    }
  }

  lemma SortedIdsSize(keys: set<string>)
    ensures |SortedIds(keys)| == |keys|
  {
    StringLessStrictTotal();
    var ids := SortedIds(keys);
    assert SortedListing(StringLess, keys, ids);
    assert Distinct(ids);
    ElementsSize(ids);
    assert Elements(ids) == keys;
  }

  /** Each candidate that a root selects is counted exactly once. */
  lemma Conservation(text: Json -> string, roots: seq<Root>, rows: seq<Row>, r: Report)
    requires Reports(text, roots, rows, r)
    ensures r.accepted + r.safe == CandidatesIn(roots)
    ensures r.validated == CandidatesIn(roots)
    ensures r.safeValidated == r.safe
    ensures SizeSum(r.groups, r.groups.Keys) == CandidatesIn(roots)
  {
    hide RowsOver, ReportOf;
    RowsOverValidated(text, roots, rows);
    RowsConserved(rows, r);
    RowsPerCandidate(text, roots, rows);
  }

  lemma AllBounded(rows: seq<Row>)
    ensures forall x :: x in rows ==> x.boundary in Boundaries(rows)
  {
  }

  lemma OwnerVarianceSplits(groups: map<Boundary, Facts>)
    ensures GroupCount(groups, HasOwnerVariance) == GroupCount(groups, IsDiscriminated) + GroupCount(groups, IsAmbiguous)
  {
    var some, others := GroupsWith(groups, IsDiscriminated), GroupsWith(groups, IsAmbiguous);
    assert GroupsWith(groups, HasOwnerVariance) == some + others;
    assert some !! others;
  }
}
