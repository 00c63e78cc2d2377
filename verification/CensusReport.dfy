/** The counters and the decision of the census, over whole collections of
    object roots (`build_corpus_report`). */
module CensusReport {
  import opened Wrappers
  import opened Json
  import opened Counting
  import opened CensusRoot
  import opened CensusLineage
  import opened Census

  // -------------------------------------------------------------- groups of rows

  /** `group_rows[boundary]`: the rows of one boundary in their order. */
  function GroupAt(rows: seq<Row>, b: Boundary): (group: seq<Row>)
  {
    if rows == [] then []
    else GroupAt(rows[..|rows| - 1], b) + if rows[|rows| - 1].boundary == b then [rows[|rows| - 1]] else []
  }

  lemma {:induction false} GroupMembers(rows: seq<Row>, b: Boundary)
    ensures forall r :: r in GroupAt(rows, b) <==> r in rows && r.boundary == b
  {
    if rows != [] {
      GroupMembers(rows[..|rows| - 1], b);
      assert rows == rows[..|rows| - 1] + [rows[|rows| - 1]];
    }
  }

  lemma GroupSnoc(rows: seq<Row>, row: Row, b: Boundary)
    ensures GroupAt(rows + [row], b) == GroupAt(rows, b) + if row.boundary == b then [row] else []
  {
    assert (rows + [row])[..|rows|] == rows;
  }

  ghost function Boundaries(rows: seq<Row>): set<Boundary> {
    set r | r in rows :: r.boundary
  }

  ghost predicate Grouped(rows: seq<Row>, groups: map<Boundary, seq<Row>>) {
    groups.Keys == Boundaries(rows) && forall b :: b in groups ==> groups[b] == GroupAt(rows, b)
  }

  lemma GroupedStep(rows: seq<Row>, row: Row, groups: map<Boundary, seq<Row>>)
    requires Grouped(rows, groups)
    ensures Grouped(rows + [row],
                    groups[row.boundary := (if row.boundary in groups then groups[row.boundary] else []) + [row]])
  {
    assert Boundaries(rows + [row]) == Boundaries(rows) + {row.boundary} by {
      assert forall r :: r in rows + [row] <==> r in rows || r == row;
    }
    forall b
      ensures GroupAt(rows + [row], b) == GroupAt(rows, b) + if row.boundary == b then [row] else []
    {
      GroupSnoc(rows, row, b);
    }
    if row.boundary !in groups {
      EmptyGroup(rows, row.boundary);
    }
  }

  lemma EmptyGroup(rows: seq<Row>, b: Boundary)
    requires b !in Boundaries(rows)
    ensures GroupAt(rows, b) == []
  {
    GroupMembers(rows, b);
    var group := GroupAt(rows, b);
    assert forall i :: 0 <= i < |group| ==> group[i] in group;
  }

  // ------------------------------------------------------------------- counters

  ghost function GroupCount(groups: map<Boundary, Facts>, p: Facts -> bool): nat {
    |GroupsWith(groups, p)|
  }

  ghost function GroupsWith(groups: map<Boundary, Facts>, p: Facts -> bool): set<Boundary> {
    set b | b in groups && p(groups[b])
  }

  lemma GroupCountStep(groups: map<Boundary, Facts>, b: Boundary, f: Facts, p: Facts -> bool)
    requires b !in groups
    ensures GroupCount(groups[b := f], p) == GroupCount(groups, p) + if p(f) then 1 else 0
  {
    assert GroupsWith(groups[b := f], p) == GroupsWith(groups, p) + (if p(f) then {b} else {});
  }

  lemma NoGroups(p: Facts -> bool)
    ensures GroupCount(map[], p) == 0
  {
    assert GroupsWith(map[], p) == {};
  }

  predicate HasVariants(f: Facts) { f.variants > 1 }
  predicate HasOwnerVariance(f: Facts) { f.ownerVariance }
  predicate IsDiscriminated(f: Facts) { f.ownerVariance && f.facetDiscriminated }
  predicate IsAmbiguous(f: Facts) { f.ownerVariance && !f.facetDiscriminated }
  predicate HasSameFinding(f: Facts) { f.sameFinding }
  predicate HasSameProblem(f: Facts) { f.sameProblem }
  predicate HasSafeVariants(f: Facts) { f.safeVariants > 1 }
  predicate HasSameProblemSafe(f: Facts) { f.sameProblemSafe }

  /** The counters over groups, named as in the report. */
  datatype Counters = Counters(
    semanticVariant: nat, ownerVariance: nat, facetDiscriminated: nat, ambiguous: nat,
    sameFinding: nat, sameProblem: nat, safeVariant: nat, sameProblemSafe: nat)
  {
    ghost predicate Counted(groups: map<Boundary, Facts>) {
      && semanticVariant == GroupCount(groups, HasVariants)
      && ownerVariance == GroupCount(groups, HasOwnerVariance)
      && facetDiscriminated == GroupCount(groups, IsDiscriminated)
      && ambiguous == GroupCount(groups, IsAmbiguous)
      && sameFinding == GroupCount(groups, HasSameFinding)
      && sameProblem == GroupCount(groups, HasSameProblem)
      && safeVariant == GroupCount(groups, HasSafeVariants)
      && sameProblemSafe == GroupCount(groups, HasSameProblemSafe)
    }

    function Add(f: Facts): Counters {
      Counters(
        semanticVariant + (if HasVariants(f) then 1 else 0),
        ownerVariance + (if HasOwnerVariance(f) then 1 else 0),
        facetDiscriminated + (if IsDiscriminated(f) then 1 else 0),
        ambiguous + (if IsAmbiguous(f) then 1 else 0),
        sameFinding + (if HasSameFinding(f) then 1 else 0),
        sameProblem + (if HasSameProblem(f) then 1 else 0),
        safeVariant + (if HasSafeVariants(f) then 1 else 0),
        sameProblemSafe + (if HasSameProblemSafe(f) then 1 else 0))
    }

    lemma AddCounts(groups: map<Boundary, Facts>, b: Boundary, f: Facts)
      requires Counted(groups) && b !in groups
      ensures Add(f).Counted(groups[b := f])
    {
      hide GroupCount, HasVariants, HasOwnerVariance, IsDiscriminated, IsAmbiguous, HasSameFinding, HasSameProblem,
        HasSafeVariants, HasSameProblemSafe;
      GroupCountStep(groups, b, f, HasVariants);
      GroupCountStep(groups, b, f, HasOwnerVariance);
      GroupCountStep(groups, b, f, IsDiscriminated);
      GroupCountStep(groups, b, f, IsAmbiguous);
      GroupCountStep(groups, b, f, HasSameFinding);
      GroupCountStep(groups, b, f, HasSameProblem);
      GroupCountStep(groups, b, f, HasSafeVariants);
      GroupCountStep(groups, b, f, HasSameProblemSafe);
    }
  }

  lemma NothingCounted()
    ensures Counters(0, 0, 0, 0, 0, 0, 0, 0).Counted(map[])
  {
    hide GroupCount;
    NoGroups(HasVariants);
    NoGroups(HasOwnerVariance);
    NoGroups(IsDiscriminated);
    NoGroups(IsAmbiguous);
    NoGroups(HasSameFinding);
    NoGroups(HasSameProblem);
    NoGroups(HasSafeVariants);
    NoGroups(HasSameProblemSafe);
  }

  // --------------------------------------------------------------------- report

  datatype Report = Report(
    roots: nat, uniqueFindings: nat, accepted: nat, validated: nat, safe: nat, safeValidated: nat,
    groups: map<Boundary, Facts>, counters: Counters, triggerShown: bool)

  ghost function FindingsOf(rows: seq<Row>): set<(string, string)> {
    set r | r in rows :: (r.root, r.findingId)
  }

  ghost predicate FactsAt(rows: seq<Row>, groups: map<Boundary, Facts>) {
    forall b :: b in groups ==> FactsOf(GroupAt(rows, b), groups[b])
  }

  /** What the report says of the rows. */
  ghost predicate ReportOf(rows: seq<Row>, r: Report) {
    && r.uniqueFindings == |FindingsOf(rows)|
    && r.accepted == Count(rows, IsCanonical)
    && r.safe == Count(rows, IsSafe)
    && r.validated == Count(rows, IsValidated)
    && r.safeValidated == Count(rows, IsSafeValidated)
    && r.groups.Keys == Boundaries(rows)
    && FactsAt(rows, r.groups)
    && r.counters.Counted(r.groups)
    && (r.triggerShown <==>
          || r.counters.ambiguous > 0
          || r.counters.sameFinding > 0
          || r.counters.sameProblem > 0
          || r.counters.sameProblemSafe > 0)
  }

  /** The rows of a root, unique by RowsUnique. */
  ghost predicate RowsOver(text: Json -> string, roots: seq<Root>, rows: seq<Row>)
    decreases |roots|
  {
    if roots == [] then rows == []
    else exists front, last :: RowsSplit(text, roots, rows, front, last) && RowsOver(text, roots[..|roots| - 1], front)
  }

  ghost predicate RowsSplit(text: Json -> string, roots: seq<Root>, rows: seq<Row>, front: seq<Row>, last: seq<Row>)
    requires roots != []
  {
    rows == front + last && RowsOf(text, roots[|roots| - 1], last)
  }

  lemma RowsOverStep(text: Json -> string, roots: seq<Root>, rows: seq<Row>, root: Root, more: seq<Row>)
    requires RowsOver(text, roots, rows) && RowsOf(text, root, more)
    ensures RowsOver(text, roots + [root], rows + more)
  {
    hide RowsOf;
    var longer := roots + [root];
    assert longer[..|longer| - 1] == roots && longer[|longer| - 1] == root;
    assert RowsSplit(text, longer, rows + more, rows, more);
  }

  lemma {:induction false} RowsOverValidated(text: Json -> string, roots: seq<Root>, rows: seq<Row>)
    requires RowsOver(text, roots, rows)
    ensures forall r :: r in rows ==> r.validated
    decreases |roots|
  {
    hide RowsOf;
    if roots != [] {
      var front, last :| RowsSplit(text, roots, rows, front, last) && RowsOver(text, roots[..|roots| - 1], front);
      RowsOverValidated(text, roots[..|roots| - 1], front);
      RowsValidated(text, roots[|roots| - 1], last);
    }
  }

  /** What the first loop has gathered from the roots read so far. */
  datatype Gathered = Gathered(
    rows: seq<Row>, groups: map<Boundary, seq<Row>>, findings: set<(string, string)>,
    accepted: nat, safe: nat, validated: nat, safeValidated: nat)
  {
    ghost predicate Valid() {
      && Grouped(rows, groups)
      && findings == FindingsOf(rows)
      && accepted == Count(rows, IsCanonical)
      && safe == Count(rows, IsSafe)
      && validated == Count(rows, IsValidated)
      && safeValidated == Count(rows, IsSafeValidated)
    }

    /** The rows of one more root join their groups, and its counters the totals. */
    method Join(s: Summary) returns (g: Gathered)
      requires Valid() && s.Tallied()
      ensures g.Valid() && g.rows == rows + s.rows
    {
      hide Grouped, FindingsOf, Count;
      var joined := groups;
      var found := findings;
      var n := 0;
      assert rows + s.rows[..0] == rows;
      while n < |s.rows|
        invariant 0 <= n <= |s.rows|
        invariant Grouped(rows + s.rows[..n], joined)
        invariant found == FindingsOf(rows + s.rows[..n])
      {
        var row := s.rows[n];
        assert rows + s.rows[..n + 1] == rows + s.rows[..n] + [row];
        GroupedStep(rows + s.rows[..n], row, joined);
        FindingsStep(rows + s.rows[..n], row);
        joined := joined[row.boundary := (if row.boundary in joined then joined[row.boundary] else []) + [row]];
        found := found + {(row.root, row.findingId)};
        n := n + 1;
      }
      assert s.rows[..n] == s.rows;
      CountConcat(rows, s.rows, IsCanonical);
      CountConcat(rows, s.rows, IsSafe);
      CountConcat(rows, s.rows, IsValidated);
      CountConcat(rows, s.rows, IsSafeValidated);
      return Gathered(rows + s.rows, joined, found, accepted + s.accepted, safe + s.safe,
                      validated + s.validated, safeValidated + s.safeValidated);
    }
  }

  lemma FindingsStep(rows: seq<Row>, row: Row)
    ensures FindingsOf(rows + [row]) == FindingsOf(rows) + {(row.root, row.findingId)}
  {
    assert forall r :: r in rows + [row] <==> r in rows || r == row;
  }

  /** The loop over the groups, in an arbitrary order. */
  method ExamineGroups(rows: seq<Row>, groups: map<Boundary, seq<Row>>) returns (facts: map<Boundary, Facts>, counters: Counters)
    requires Grouped(rows, groups)
    requires forall r :: r in rows ==> r.validated
    ensures facts.Keys == Boundaries(rows) && FactsAt(rows, facts)
    ensures counters.Counted(facts)
  {
    hide FactsOf, GroupAt, Boundaries, Counters.Counted, Counters.Add;
    facts, counters := map[], Counters(0, 0, 0, 0, 0, 0, 0, 0);
    NothingCounted();
    var todo := groups.Keys;
    while todo != {}
      invariant todo <= groups.Keys && facts.Keys == groups.Keys - todo
      invariant FactsAt(rows, facts)
      invariant counters.Counted(facts)
      decreases todo
    {
      var b :| b in todo;
      GroupMembers(rows, b);
      var f := Examine(groups[b]);
      counters.AddCounts(facts, b, f);
      counters := counters.Add(f);
      facts := facts[b := f];
      todo := todo - {b};
    }
  }

  /** The census fails exactly when there is no root or some root is not auditable. */
  ghost predicate AllAuditable(roots: seq<Root>) {
    roots != [] && forall root :: root in roots ==> Auditable(root)
  }

  /** The report and the rows behind it. */
  ghost predicate Reports(text: Json -> string, roots: seq<Root>, rows: seq<Row>, r: Report) {
    RowsOver(text, roots, rows) && ReportOf(rows, r) && r.roots == |roots|
  }

  method BuildCorpusReport(text: Json -> string, roots: seq<Root>) returns (result: Option<Report>, ghost rows: seq<Row>)
    ensures result.Some? <==> AllAuditable(roots)
    ensures result.Some? ==> Reports(text, roots, rows, result.value)
  {
    hide Auditable, Grouped, FindingsOf, Count, Boundaries, FactsAt, RowsOf, RowsOver, Counters.Counted, Summary.Tallied,
      Gathered.Valid;
    rows := [];
    if roots == [] { return None, rows; }
    var g := Gathered([], map[], {}, 0, 0, 0, 0);
    assert g.Valid() by { NothingGathered(); }
    assert RowsOver(text, roots[..0], g.rows) by { NoRows(text, roots[..0]); }
    var n := 0;
    while n < |roots|
      invariant 0 <= n <= |roots|
      invariant g.Valid() && RowsOver(text, roots[..n], g.rows)
      invariant forall i :: 0 <= i < n ==> Auditable(roots[i])
    {
      var summary := AuditRoot(text, roots[n]);
      if summary.None? {
        assert roots[n] in roots;
        return None, rows;
      }
      assert roots[..n + 1] == roots[..n] + [roots[n]];
      RowsOverStep(text, roots[..n], g.rows, roots[n], summary.value.rows);
      g := g.Join(summary.value);
      n := n + 1;
    }
    assert roots[..n] == roots;
    rows := g.rows;
    result := Finish(|roots|, g, text, roots);
  }

  method Finish(n: nat, g: Gathered, ghost text: Json -> string, ghost roots: seq<Root>) returns (result: Option<Report>)
    requires g.Valid() && RowsOver(text, roots, g.rows)
    ensures result.Some? && ReportOf(g.rows, result.value) && result.value.roots == n
  {
    hide Grouped, FindingsOf, Count, Boundaries, FactsAt, RowsOf, RowsOver, Counters.Counted;
    RowsOverValidated(text, roots, g.rows);
    var facts, counters := ExamineGroups(g.rows, g.groups);
    return Some(Report(
      n, |g.findings|, g.accepted, g.validated, g.safe, g.safeValidated, facts, counters,
      counters.ambiguous > 0 || counters.sameFinding > 0 || counters.sameProblem > 0 || counters.sameProblemSafe > 0));
  }

  lemma NothingGathered()
    ensures Gathered([], map[], {}, 0, 0, 0, 0).Valid()
  {
  }

  lemma NoRows(text: Json -> string, none: seq<Root>)
    requires none == []
    ensures RowsOver(text, none, [])
  {
  }
}
