/** The census under a reordering of its roots, and under one more root. */
module CensusStability {
  import opened Json
  import opened Counting
  import opened CensusRoot
  import opened CensusLineage
  import opened Census
  import opened CensusReport
  import opened CensusMeaning

  // ---------------------------------------------------------------- permutations

  lemma {:induction false} GroupMultiplicity(rows: seq<Row>, b: Boundary, r: Row)
    ensures multiset(GroupAt(rows, b))[r] == if r.boundary == b then multiset(rows)[r] else 0
  {
    if rows != [] {
      var front := rows[..|rows| - 1];
      GroupMultiplicity(front, b, r);
      assert rows == front + [rows[|rows| - 1]];
    }
  }

  lemma GroupPermuted(rows: seq<Row>, other: seq<Row>, b: Boundary)
    requires multiset(rows) == multiset(other)
    ensures multiset(GroupAt(rows, b)) == multiset(GroupAt(other, b))
  {
    forall r
      ensures multiset(GroupAt(rows, b))[r] == multiset(GroupAt(other, b))[r]
    {
      GroupMultiplicity(rows, b, r);
      GroupMultiplicity(other, b, r);
    }
  }

  lemma SameMembers<T>(s: seq<T>, t: seq<T>)
    requires multiset(s) == multiset(t)
    ensures |s| == |t|
    ensures forall x :: x in s <==> x in t
  {
    assert |multiset(s)| == |s| && |multiset(t)| == |t|;
    forall x
      ensures x in s <==> x in t
    {
      assert x in s <==> x in multiset(s);
      assert x in t <==> x in multiset(t);
    }
  }

  lemma SetsDetermined(group: seq<Row>, other: seq<Row>)
    requires forall x :: x in group <==> x in other
    ensures Owners(group) == Owners(other)
    ensures Findings(group) == Findings(other)
    ensures FacetSets(group) == FacetSets(other)
    ensures Actions(group) == Actions(other)
    ensures SafeActions(group) == SafeActions(other)
    ensures Problems(group) == Problems(other)
  {
  }

  lemma FactsDetermined(group: seq<Row>, other: seq<Row>, f: Facts, g: Facts)
    requires multiset(group) == multiset(other)
    requires FactsOf(group, f) && FactsOf(other, g)
    ensures f == g
  {
    hide Owners, Findings, FacetSets, Actions, SafeActions, Problems, OtherOwner, OtherFacets,
      SameFindingOtherAction, SameProblemOtherAction, SameProblemSafeOtherAction;
    SameMembers(group, other);
    SetsDetermined(group, other);
    assert forall apart :: Two(group, apart) <==> Two(other, apart);
  }

  lemma GroupsDetermined(rows: seq<Row>, other: seq<Row>, groups: map<Boundary, Facts>, others: map<Boundary, Facts>)
    requires multiset(rows) == multiset(other)
    requires groups.Keys == Boundaries(rows) && others.Keys == Boundaries(other)
    requires FactsAt(rows, groups) && FactsAt(other, others)
    ensures groups == others
  {
    hide GroupAt, FactsOf;
    SameMembers(rows, other);
    assert groups.Keys == others.Keys;
    forall b | b in groups
      ensures groups[b] == others[b]
    {
      GroupPermuted(rows, other, b);
      assert FactsOf(GroupAt(rows, b), groups[b]) && FactsOf(GroupAt(other, b), others[b]);
      FactsDetermined(GroupAt(rows, b), GroupAt(other, b), groups[b], others[b]);
    }
  }

  /** The report depends on the rows only as a multiset. */
  lemma ReportDetermined(rows: seq<Row>, other: seq<Row>, r: Report, s: Report)
    requires multiset(rows) == multiset(other)
    requires ReportOf(rows, r) && ReportOf(other, s) && r.roots == s.roots
    ensures r == s
  {
    hide GroupAt, FactsAt, Boundaries, Count, GroupCount;
    SameMembers(rows, other);
    CountPermuted(rows, other, IsCanonical);
    CountPermuted(rows, other, IsSafe);
    CountPermuted(rows, other, IsValidated);
    CountPermuted(rows, other, IsSafeValidated);
    assert FindingsOf(rows) == FindingsOf(other);
    GroupsDetermined(rows, other, r.groups, s.groups);
  }

  /** The rows of one root can be taken out of those of all. */
  lemma {:induction false} TakeRootOut(text: Json -> string, before: seq<Root>, root: Root, after: seq<Root>, rows: seq<Row>)
    returns (front: seq<Row>, own: seq<Row>, back: seq<Row>)
    requires RowsOver(text, before + [root] + after, rows)
    ensures rows == front + own + back
    ensures RowsOf(text, root, own)
    ensures RowsOver(text, before + after, front + back)
    decreases |after|
  {
    hide RowsOf;
    var roots := before + [root] + after;
    var n := |roots| - 1;
    var start, last :| RowsSplit(text, roots, rows, start, last) && RowsOver(text, roots[..n], start);
    if after == [] {
      assert roots[..n] == before == before + after;
      front, own, back := start, last, [];
      assert front + back == start;
    } else {
      var rest := after[..|after| - 1];
      var x := after[|after| - 1];
      assert roots[..n] == before + [root] + rest;
      var tail;
      front, own, tail := TakeRootOut(text, before, root, rest, start);
      back := tail + last;
      RowsOverStep(text, before + rest, front + tail, x, last);
      assert before + rest + [x] == before + after;
      assert front + tail + last == front + back;
    }
  }

  lemma {:induction false} RowsPermuted(text: Json -> string, roots: seq<Root>, other: seq<Root>, rows: seq<Row>, rows': seq<Row>)
    requires multiset(roots) == multiset(other)
    requires RowsOver(text, roots, rows) && RowsOver(text, other, rows')
    ensures multiset(rows) == multiset(rows')
    decreases |roots|
  {
    hide RowsOf;
    SameMembers(roots, other);
    if roots != [] {
      var n := |roots| - 1;
      var root := roots[n];
      assert root in other;
      var before, after := TakeOut(other, root);
      var start, last :| RowsSplit(text, roots, rows, start, last) && RowsOver(text, roots[..n], start);
      var front, own, back := TakeRootOut(text, before, root, after, rows');
      assert roots == roots[..n] + [root];
      assert multiset(before + after) == multiset(other) - multiset{root};
      RowsPermuted(text, roots[..n], before + after, start, front + back);
      RowsUnique(text, root, last, own);
    }
  }

  /** The report does not depend on the order in which the roots are given. */
  lemma RootOrderIrrelevant(text: Json -> string, roots: seq<Root>, other: seq<Root>, rows: seq<Row>, rows': seq<Row>,
                            r: Report, s: Report)
    requires multiset(roots) == multiset(other)
    requires Reports(text, roots, rows, r) && Reports(text, other, rows', s)
    ensures r == s
  {
    hide RowsOver, ReportOf;
    SameMembers(roots, other);
    RowsPermuted(text, roots, other, rows, rows');
    ReportDetermined(rows, rows', r, s);
  }

  lemma RefusalOrderIrrelevant(roots: seq<Root>, other: seq<Root>)
    requires multiset(roots) == multiset(other)
    ensures AllAuditable(roots) <==> AllAuditable(other)
  {
    hide Auditable;
    SameMembers(roots, other);
  }

  // -------------------------------------------------------------------- one more root

  lemma RowsAdded(text: Json -> string, roots: seq<Root>, root: Root, rows: seq<Row>, rows': seq<Row>) returns (own: seq<Row>)
    requires RowsOver(text, roots, rows) && RowsOver(text, roots + [root], rows')
    ensures RowsOf(text, root, own)
    ensures rows' == rows + own
  {
    hide RowsOf;
    var longer := roots + [root];
    var start, last :| RowsSplit(text, longer, rows', start, last) && RowsOver(text, longer[..|longer| - 1], start);
    assert longer[..|longer| - 1] == roots;
    RowsOverUnique(text, roots, rows, start);
    own := last;
  }

  lemma {:induction false} RowsOverUnique(text: Json -> string, roots: seq<Root>, rows: seq<Row>, rows': seq<Row>)
    requires RowsOver(text, roots, rows) && RowsOver(text, roots, rows')
    ensures rows == rows'
    decreases |roots|
  {
    hide RowsOf;
    if roots != [] {
      var n := |roots| - 1;
      var start, last :| RowsSplit(text, roots, rows, start, last) && RowsOver(text, roots[..n], start);
      var start', last' :| RowsSplit(text, roots, rows', start', last') && RowsOver(text, roots[..n], start');
      RowsOverUnique(text, roots[..n], start, start');
      RowsUnique(text, roots[n], last, last');
    }
  }

  /** Everything a group showed, other than the absence of something, it still
      shows when rows join it. */
  lemma GroupGrows(rows: seq<Row>, own: seq<Row>, b: Boundary, f: Facts, g: Facts)
    requires FactsOf(GroupAt(rows, b), f) && FactsOf(GroupAt(rows + own, b), g)
    ensures f.sameFinding ==> g.sameFinding
    ensures f.sameProblem ==> g.sameProblem
    ensures f.sameProblemSafe ==> g.sameProblemSafe
    ensures f.safeVariants > 1 ==> g.safeVariants > 1
    ensures f.ownerVariance ==> g.ownerVariance
  {
    hide GroupAt, SafeActions, OtherOwner, SameFindingOtherAction, SameProblemOtherAction, SameProblemSafeOtherAction, SafeOtherAction;
    GroupMembers(rows, b);
    GroupMembers(rows + own, b);
    SafeActionsApart(GroupAt(rows, b));
    SafeActionsApart(GroupAt(rows + own, b));
  }

  /** More rows never lower these counters. */
  lemma RowsOnlyAdd(rows: seq<Row>, own: seq<Row>, r: Report, s: Report)
    requires ReportOf(rows, r) && ReportOf(rows + own, s)
    ensures r.counters.sameFinding <= s.counters.sameFinding
    ensures r.counters.sameProblem <= s.counters.sameProblem
    ensures r.counters.safeVariant <= s.counters.safeVariant
    ensures r.counters.sameProblemSafe <= s.counters.sameProblemSafe
    ensures r.counters.ownerVariance <= s.counters.ownerVariance
  {
    hide GroupAt, FactsOf, Count, FindingsOf, GroupCount;
    forall b | b in r.groups
      ensures b in s.groups
      ensures r.groups[b].sameFinding ==> s.groups[b].sameFinding
      ensures r.groups[b].sameProblem ==> s.groups[b].sameProblem
      ensures r.groups[b].sameProblemSafe ==> s.groups[b].sameProblemSafe
      ensures r.groups[b].safeVariants > 1 ==> s.groups[b].safeVariants > 1
      ensures r.groups[b].ownerVariance ==> s.groups[b].ownerVariance
    {
      BoundaryStays(rows, own, b);
      GroupGrows(rows, own, b, r.groups[b], s.groups[b]);
    }
    GroupCountMonotone(r.groups, HasSameFinding, s.groups, HasSameFinding);
    GroupCountMonotone(r.groups, HasSameProblem, s.groups, HasSameProblem);
    GroupCountMonotone(r.groups, HasSafeVariants, s.groups, HasSafeVariants);
    GroupCountMonotone(r.groups, HasSameProblemSafe, s.groups, HasSameProblemSafe);
    GroupCountMonotone(r.groups, HasOwnerVariance, s.groups, HasOwnerVariance);
  }

  /** Another root never lowers these counters. */
  lemma RootOnlyAdds(text: Json -> string, roots: seq<Root>, root: Root, rows: seq<Row>, rows': seq<Row>, r: Report, s: Report)
    requires Reports(text, roots, rows, r) && Reports(text, roots + [root], rows', s)
    ensures r.counters.sameFinding <= s.counters.sameFinding
    ensures r.counters.sameProblem <= s.counters.sameProblem
    ensures r.counters.safeVariant <= s.counters.safeVariant
    ensures r.counters.sameProblemSafe <= s.counters.sameProblemSafe
    ensures r.counters.ownerVariance <= s.counters.ownerVariance
  {
    hide RowsOver, ReportOf, RowsOf;
    var own := RowsAdded(text, roots, root, rows, rows');
    RowsOnlyAdd(rows, own, r, s);
  }

  lemma BoundaryStays(rows: seq<Row>, own: seq<Row>, b: Boundary)
    requires b in Boundaries(rows)
    ensures b in Boundaries(rows + own)
  {
    var row :| row in rows && row.boundary == b;
    assert row in rows + own;
  }

  /** An ambiguity of owners that facets do not explain goes away exactly when the
      new root brings to that boundary a facet set that was not there. */
  lemma AmbiguityClearedExactly(text: Json -> string, roots: seq<Root>, root: Root, rows: seq<Row>, rows': seq<Row>,
                                r: Report, s: Report, b: Boundary) returns (own: seq<Row>)
    requires Reports(text, roots, rows, r) && Reports(text, roots + [root], rows', s)
    requires b in r.groups && IsAmbiguous(r.groups[b])
    ensures RowsOf(text, root, own) && b in s.groups
    ensures !IsAmbiguous(s.groups[b]) <==>
      exists x :: x in own && x.boundary == b && x.facets !in r.groups[b].facetSets
  {
    hide RowsOver, GroupAt, Count, FindingsOf, Counters.Counted, OtherOwner, RowsOf;
    own := RowsAdded(text, roots, root, rows, rows');
    BoundaryStays(rows, own, b);
    assert FactsOf(GroupAt(rows, b), r.groups[b]);
    assert FactsOf(GroupAt(rows + own, b), s.groups[b]);
    NewFacets(rows, own, b, r.groups[b], s.groups[b]);
  }

  lemma NewFacets(rows: seq<Row>, own: seq<Row>, b: Boundary, f: Facts, g: Facts)
    requires FactsOf(GroupAt(rows, b), f) && FactsOf(GroupAt(rows + own, b), g)
    requires IsAmbiguous(f)
    ensures !IsAmbiguous(g) <==> exists x :: x in own && x.boundary == b && x.facets !in f.facetSets
  {
    hide GroupAt, Owners, Findings, Actions, SafeActions, Problems, OtherOwner, SameFindingOtherAction,
      SameProblemOtherAction, SameProblemSafeOtherAction;
    var group, wider := GroupAt(rows, b), GroupAt(rows + own, b);
    GroupMembers(rows, b);
    GroupMembers(rows + own, b);
    GroupGrows(rows, own, b, f, g);
    assert Two(group, OtherOwner);
    var r0, s0 :| r0 in group && s0 in group && OtherOwner(r0, s0);
    assert forall r :: r in group ==> !OtherFacets(r, r0);
    if Two(wider, OtherFacets) {
      var r, s :| r in wider && s in wider && OtherFacets(r, s);
      var x := if r.facets == r0.facets then s else r;
      assert x.facets != r0.facets && x in own;
    }
    if x :| x in own && x.boundary == b && x.facets !in f.facetSets {
      assert r0.facets in f.facetSets;
      assert x in rows + own && x in wider && OtherFacets(x, r0);
    }
  }
}
