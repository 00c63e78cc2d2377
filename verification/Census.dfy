/** The census report over many object roots (`build_corpus_report`): candidates
    are grouped by safety boundary, and the counters of the report are stated as
    what pairs of candidates exist. */
module Census {
  import opened Sequences
  import opened Wrappers
  import opened CensusRoot

  // ------------------------------------------------------------ what a group shows

  ghost predicate Two(group: seq<Row>, apart: (Row, Row) -> bool) {
    exists r, s :: r in group && s in group && apart(r, s)
  }

  predicate OtherOwner(r: Row, s: Row) {
    r.owner != s.owner
  }

  predicate OtherFacets(r: Row, s: Row) {
    r.facets != s.facets
  }

  predicate OtherAction(r: Row, s: Row) {
    r.action != s.action
  }

  predicate SameFindingOtherAction(r: Row, s: Row) {
    r.findingId == s.findingId && r.action != s.action
  }

  predicate SameProblemOtherAction(r: Row, s: Row) {
    r.problem.Some? && r.problem == s.problem && r.action != s.action
  }

  predicate SafeOtherAction(r: Row, s: Row) {
    r.safe && s.safe && r.action != s.action
  }

  predicate SameProblemSafeOtherAction(r: Row, s: Row) {
    r.safe && s.safe && SameProblemOtherAction(r, s)
  }

  /** One entry of the report's groups. */
  datatype Facts = Facts(
    size: nat, findings: set<string>, owners: set<string>, facetSets: set<set<string>>, variants: nat,
    ownerVariance: bool, facetDiscriminated: bool, sameFinding: bool, problems: nat, sameProblem: bool,
    safeVariants: nat, sameProblemSafe: bool)

  function Owners(group: seq<Row>): set<string> { set r | r in group :: r.owner }
  function Findings(group: seq<Row>): set<string> { set r | r in group :: r.findingId }
  function FacetSets(group: seq<Row>): set<set<string>> { set r | r in group :: r.facets }
  function Actions(group: seq<Row>): set<Action> { set r | r in group :: r.action }
  function SafeActions(group: seq<Row>): set<Action> { set r | r in group && r.safe :: r.action }
  function ActionsOfFinding(group: seq<Row>, id: string): set<Action> {
    set r | r in group && r.findingId == id :: r.action
  }
  ghost function Problems(group: seq<Row>): set<Problem> { set r | r in group && r.problem.Some? :: r.problem.value }

  ghost predicate FactsOf(group: seq<Row>, f: Facts) {
    && f.size == |group|
    && f.findings == Findings(group)
    && f.owners == Owners(group)
    && f.facetSets == FacetSets(group)
    && f.variants == |Actions(group)|
    && (f.ownerVariance <==> Two(group, OtherOwner))
    && (f.facetDiscriminated <==> Two(group, OtherOwner) && Two(group, OtherFacets))
    && (f.sameFinding <==> Two(group, SameFindingOtherAction))
    && f.problems == |Problems(group)|
    && (f.sameProblem <==> Two(group, SameProblemOtherAction))
    && f.safeVariants == |SafeActions(group)|
    && (f.sameProblemSafe <==> Two(group, SameProblemSafeOtherAction))
  }

  lemma MoreThanOne<T>(s: set<T>)
    ensures |s| > 1 <==> exists x, y :: x in s && y in s && x != y
  {
    if s != {} {
      var x :| x in s;
      if |s| > 1 {
        assert |s - {x}| > 0;
        var y :| y in s - {x};
      } else {
        assert |s - {x}| == 0;
      }
    }
  }

  /** The keys of the rows that count. */
  ghost function Keys<K>(group: seq<Row>, counts: Row -> bool, key: Row -> K): set<K> {
    set r | r in group && counts(r) :: key(r)
  }

  /** There are several keys exactly when two rows that count differ in it. */
  lemma KeysApart<K>(group: seq<Row>, counts: Row -> bool, key: Row -> K)
    ensures |Keys(group, counts, key)| > 1 <==>
      exists r, s :: r in group && s in group && counts(r) && counts(s) && key(r) != key(s)
  {
    MoreThanOne(Keys(group, counts, key));
    if r, s :| r in group && s in group && counts(r) && counts(s) && key(r) != key(s) {
      assert key(r) in Keys(group, counts, key) && key(s) in Keys(group, counts, key);
    }
    if x, y :| x in Keys(group, counts, key) && y in Keys(group, counts, key) && x != y {
      var r :| r in group && counts(r) && key(r) == x;
      var s :| s in group && counts(s) && key(s) == y;
    }
  }

  predicate Any(r: Row) {
    true
  }

  lemma OwnersApart(group: seq<Row>)
    ensures |Owners(group)| > 1 <==> Two(group, OtherOwner)
  {
    var owner := (r: Row) => r.owner;
    KeysApart(group, Any, owner);
    assert Keys(group, Any, owner) == Owners(group);
  }

  lemma FacetsApart(group: seq<Row>)
    ensures |FacetSets(group)| > 1 <==> Two(group, OtherFacets)
  {
    var facets := (r: Row) => r.facets;
    KeysApart(group, Any, facets);
    assert Keys(group, Any, facets) == FacetSets(group);
  }

  lemma ActionsApart(group: seq<Row>)
    ensures |Actions(group)| > 1 <==> Two(group, OtherAction)
  {
    var action := (r: Row) => r.action;
    KeysApart(group, Any, action);
    assert Keys(group, Any, action) == Actions(group);
  }

  lemma SafeActionsApart(group: seq<Row>)
    ensures |SafeActions(group)| > 1 <==> Two(group, SafeOtherAction)
  {
    var action := (r: Row) => r.action;
    KeysApart(group, IsSafe, action);
    assert Keys(group, IsSafe, action) == SafeActions(group);
  }

  ghost predicate ActionsDiffer(group: seq<Row>, id: string) {
    |ActionsOfFinding(group, id)| > 1
  }

  lemma FindingsApart(group: seq<Row>)
    ensures (exists id :: id in Findings(group) && ActionsDiffer(group, id)) <==> Two(group, SameFindingOtherAction)
  {
    if Two(group, SameFindingOtherAction) {
      var r, s :| r in group && s in group && SameFindingOtherAction(r, s);
      var found := ActionsOfFinding(group, r.findingId);
      assert r.action in found && s.action in found;
      MoreThanOne(found);
      assert r.findingId in Findings(group) && ActionsDiffer(group, r.findingId);
    }
    if id :| id in Findings(group) && ActionsDiffer(group, id) {
      var found := ActionsOfFinding(group, id);
      MoreThanOne(found);
      var x, y :| x in found && y in found && x != y;
      var r :| r in group && r.findingId == id && r.action == x;
      var s :| s in group && s.findingId == id && s.action == y;
      assert SameFindingOtherAction(r, s);
    }
  }

  // --------------------------------------------------- actions by problem identity

  predicate Counts(r: Row, safeOnly: bool) {
    r.problem.Some? && (safeOnly ==> r.safe)
  }

  ghost function ActionsOfProblem(group: seq<Row>, p: Problem, safeOnly: bool): set<Action> {
    set r | r in group && Counts(r, safeOnly) && r.problem == Some(p) :: r.action
  }

  ghost function ProblemsCounted(group: seq<Row>, safeOnly: bool): set<Problem> {
    set r | r in group && Counts(r, safeOnly) :: r.problem.value
  }

  ghost predicate ByProblem(group: seq<Row>, safeOnly: bool, found: map<Problem, set<Action>>) {
    && found.Keys == ProblemsCounted(group, safeOnly)
    && forall p :: p in found ==> found[p] == ActionsOfProblem(group, p, safeOnly)
  }

  lemma ActionsOfProblemStep(group: seq<Row>, r: Row, p: Problem, safeOnly: bool)
    ensures ActionsOfProblem(group + [r], p, safeOnly) ==
            ActionsOfProblem(group, p, safeOnly) + (if Counts(r, safeOnly) && r.problem == Some(p) then {r.action} else {})
  {
    assert forall x :: x in group + [r] <==> x in group || x == r;
  }

  lemma ProblemsCountedStep(group: seq<Row>, r: Row, safeOnly: bool)
    ensures ProblemsCounted(group + [r], safeOnly) ==
            ProblemsCounted(group, safeOnly) + (if Counts(r, safeOnly) then {r.problem.value} else {})
  {
    assert forall x :: x in group + [r] <==> x in group || x == r;
  }

  lemma NoActions(group: seq<Row>, p: Problem, safeOnly: bool)
    requires p !in ProblemsCounted(group, safeOnly)
    ensures ActionsOfProblem(group, p, safeOnly) == {}
  {
  }

  lemma ByProblemStep(group: seq<Row>, r: Row, safeOnly: bool, found: map<Problem, set<Action>>)
    requires ByProblem(group, safeOnly, found)
    ensures !Counts(r, safeOnly) ==> ByProblem(group + [r], safeOnly, found)
    ensures Counts(r, safeOnly) ==>
      ByProblem(group + [r], safeOnly,
                found[r.problem.value := (if r.problem.value in found then found[r.problem.value] else {}) + {r.action}])
  {
    hide ActionsOfProblem, ProblemsCounted;
    ProblemsCountedStep(group, r, safeOnly);
    forall p | p in ProblemsCounted(group + [r], safeOnly)
      ensures ActionsOfProblem(group + [r], p, safeOnly) ==
              (if p in found then found[p] else {}) + (if Counts(r, safeOnly) && r.problem == Some(p) then {r.action} else {})
    {
      ActionsOfProblemStep(group, r, p, safeOnly);
      if p !in ProblemsCounted(group, safeOnly) {
        NoActions(group, p, safeOnly);
      }
    }
  }

  /** `problem_actions`, and `safe_problem_actions` when only safe rows count. */
  method ActionsByProblem(group: seq<Row>, safeOnly: bool) returns (found: map<Problem, set<Action>>)
    ensures ByProblem(group, safeOnly, found)
  {
    hide ByProblem;
    found := map[];
    assert ByProblem(group[..0], safeOnly, found) by { NoProblems(group[..0], safeOnly); }
    var n := 0;
    while n < |group|
      invariant 0 <= n <= |group|
      invariant ByProblem(group[..n], safeOnly, found)
    {
      var r := group[n];
      PrefixStep(group, n);
      ByProblemStep(group[..n], r, safeOnly, found);
      if Counts(r, safeOnly) {
        var p := r.problem.value;
        found := found[p := (if p in found then found[p] else {}) + {r.action}];
      }
      n := n + 1;
    }
    assert group[..n] == group;
  }

  lemma NoProblems(none: seq<Row>, safeOnly: bool)
    requires none == []
    ensures ByProblem(none, safeOnly, map[])
  {
  }

  lemma ProblemsApart(group: seq<Row>, safeOnly: bool, found: map<Problem, set<Action>>)
    requires ByProblem(group, safeOnly, found)
    ensures (exists p :: p in found && |found[p]| > 1) <==>
            Two(group, if safeOnly then SameProblemSafeOtherAction else SameProblemOtherAction)
  {
    var apart := if safeOnly then SameProblemSafeOtherAction else SameProblemOtherAction;
    if Two(group, apart) {
      var r, s :| r in group && s in group && apart(r, s);
      var p := r.problem.value;
      assert Counts(r, safeOnly) && Counts(s, safeOnly);
      assert p in ProblemsCounted(group, safeOnly);
      assert r.action in found[p] && s.action in found[p];
      MoreThanOne(found[p]);
    }
    if p :| p in found && |found[p]| > 1 {
      MoreThanOne(found[p]);
      var x, y :| x in found[p] && y in found[p] && x != y;
      var r :| r in group && Counts(r, safeOnly) && r.problem == Some(p) && r.action == x;
      var s :| s in group && Counts(s, safeOnly) && s.problem == Some(p) && s.action == y;
      assert apart(r, s);
    }
  }

  function ValidatedRows(rows: seq<Row>): seq<Row> {
    if rows == [] then []
    else (if rows[0].validated then [rows[0]] else []) + ValidatedRows(rows[1..])
  }

  lemma {:induction false} AllValidated(rows: seq<Row>)
    requires forall r :: r in rows ==> r.validated
    ensures ValidatedRows(rows) == rows
  {
    if rows != [] {
      AllValidated(rows[1..]);
      assert rows == [rows[0]] + rows[1..];
    }
  }

  /** The body of the loop over the groups. */
  method Examine(rows: seq<Row>) returns (f: Facts)
    requires forall r :: r in rows ==> r.validated
    ensures FactsOf(rows, f)
  {
    hide Two, ByProblem, ValidatedRows, OtherOwner, OtherFacets, SameFindingOtherAction,
      SameProblemOtherAction, SameProblemSafeOtherAction;
    AllValidated(rows);
    var group := ValidatedRows(rows);
    var owners := Owners(group);
    var actions := Actions(group);
    var findings := Findings(group);
    var facetSets := FacetSets(group);
    var ownerVariance := |owners| > 1;
    var facetDiscriminated := ownerVariance && |facetSets| > 1;
    var sameFinding := exists id | id in findings :: |ActionsOfFinding(group, id)| > 1;
    var byProblem := ActionsByProblem(group, false);
    var sameProblem := exists p | p in byProblem :: |byProblem[p]| > 1;
    var safeActions := SafeActions(group);
    var safeByProblem := ActionsByProblem(group, true);
    var sameProblemSafe := exists p | p in safeByProblem :: |safeByProblem[p]| > 1;
    f := Facts(|group|, findings, owners, facetSets, |actions|, ownerVariance, facetDiscriminated, sameFinding,
               |byProblem|, sameProblem, |safeActions|, sameProblemSafe);
    OwnersApart(group);
    FacetsApart(group);
    FindingsApart(group);
    assert sameFinding <==> exists id :: id in Findings(group) && ActionsDiffer(group, id);
    ProblemsApart(group, false, byProblem);
    ProblemsApart(group, true, safeByProblem);
    ProblemCount(group, byProblem);
  }

  lemma ProblemCount(group: seq<Row>, found: map<Problem, set<Action>>)
    requires ByProblem(group, false, found)
    ensures |found| == |Problems(group)|
  {
    assert ProblemsCounted(group, false) == Problems(group);
    assert |found| == |found.Keys|;
  }
}
