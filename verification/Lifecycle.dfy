/** The formal-run validator of `scripts/aggregate_stage2_checkpoint_reports.py`
    (`_validate_formal_run_lifecycle`). The code makes one-sided checks; what it
    accepts is described here by two-sided correspondences. */
module Lifecycle {
  import opened Sequences
  import opened Pigeonhole

  /** A JSON value of a manifest or a case; Null also stands for a missing
      field, a number may have been written either way, Compound is a list or an
      object. */
  datatype Value = Null | Text(s: string) | Number(x: real) | Flag(b: bool) | Compound

  type Payload = map<string, Value>

  datatype ReadManifest = Unreadable | NotAnObject | Manifest(payload: Payload)

  datatype Case = Case(caseId: string, fields: Payload)

  const CASE_FIELDS: seq<string> := [
    "code_version", "run_config_hash", "benchmark_contract_hash",
    "matcher_version", "writer_token_budget", "evidence_ledger_token_budget"]

  const IDENTITY_FIELDS: seq<string> := ["code_commit", "code_source_fingerprint", "experiment_id"] + CASE_FIELDS

  const FORMAL: map<nat, string> := map[
    20 := "ZTJ-P001", 40 := "ZTJ-P002", 60 := "ZTJ-P003", 80 := "ZTJ-P004", 95 := "ZTJ-P005"]

  function Get(payload: Payload, field: string): Value {
    if field in payload then payload[field] else Null
  }

  // ------------------------------------------------------------------ manifests

  /** Neither missing nor empty, and hashable: the identities are put in a set. */
  predicate Present(v: Value) {
    v != Null && v != Text("") && v != Compound
  }

  /** Python's `==`, which takes a truth value for a number. */
  predicate Same(a: Value, b: Value) {
    Plain(a) == Plain(b)
  }

  function Plain(v: Value): Value {
    if v.Flag? then Number(if v.b then 1.0 else 0.0) else v
  }

  /** A manifest of a clean run of this profile with a complete identity. */
  predicate Complete(m: ReadManifest, profile: string) {
    && m.Manifest?
    && Get(m.payload, "code_source_dirty") == Flag(false)
    && Get(m.payload, "information_profile") == Text(profile)
    && (forall k :: 0 <= k < |IDENTITY_FIELDS| ==> Present(Get(m.payload, IDENTITY_FIELDS[k])))
  }

  predicate SameIdentity(a: Payload, b: Payload) {
    forall k :: 0 <= k < |IDENTITY_FIELDS| ==> Same(Get(a, IDENTITY_FIELDS[k]), Get(b, IDENTITY_FIELDS[k]))
  }

  predicate CaseAgrees(c: Case, m: Payload) {
    forall k :: 0 <= k < |CASE_FIELDS| ==> Same(Get(c.fields, CASE_FIELDS[k]), Get(m, CASE_FIELDS[k]))
  }

  /** All manifests are complete and pairwise of one identity, and every case
      agrees with every manifest. */
  ghost predicate FrozenIdentity(manifests: seq<ReadManifest>, profile: string, cases: seq<Case>) {
    && manifests != []
    && (forall i :: 0 <= i < |manifests| ==> Complete(manifests[i], profile))
    && (forall i, j :: 0 <= i < |manifests| && 0 <= j < |manifests| ==>
          SameIdentity(manifests[i].payload, manifests[j].payload))
    && (forall c, i :: 0 <= c < |cases| && 0 <= i < |manifests| ==> CaseAgrees(cases[c], manifests[i].payload))
  }

  lemma AgreesThroughIdentity(c: Case, a: Payload, b: Payload)
    requires SameIdentity(a, b) && CaseAgrees(c, a)
    ensures CaseAgrees(c, b)
  {
    forall k | 0 <= k < |CASE_FIELDS|
      ensures Same(Get(c.fields, CASE_FIELDS[k]), Get(b, CASE_FIELDS[k]))
    {
      assert IDENTITY_FIELDS[k + 3] == CASE_FIELDS[k];
    }
  }

  /** The checks on one manifest, in their order. */
  method CheckManifest(m: ReadManifest, profile: string) returns (ok: bool)
    ensures ok <==> Complete(m, profile)
  {
    hide Get;
    if !m.Manifest? { return false; }
    if Get(m.payload, "code_source_dirty") != Flag(false) { return false; }
    if Get(m.payload, "information_profile") != Text(profile) { return false; }
    for k := 0 to |IDENTITY_FIELDS|
      invariant forall n :: 0 <= n < k ==> Present(Get(m.payload, IDENTITY_FIELDS[n]))
    {
      var value := Get(m.payload, IDENTITY_FIELDS[k]);
      if value == Null || value == Text("") || value == Compound { return false; }
    }
    return true;
  }

  /** The fields of one case against those of a manifest. */
  method CheckCase(c: Case, m: Payload) returns (ok: bool)
    ensures ok <==> CaseAgrees(c, m)
  {
    hide Get;
    for k := 0 to |CASE_FIELDS|
      invariant forall n :: 0 <= n < k ==> Same(Get(c.fields, CASE_FIELDS[n]), Get(m, CASE_FIELDS[n]))
    {
      if !Same(Get(c.fields, CASE_FIELDS[k]), Get(m, CASE_FIELDS[k])) { return false; }
    }
    return true;
  }

  /** The manifest part of the validator. Only the first manifest is compared
      with the cases, and the identities are compared with the first one; that
      is enough for all of them. */
  method ValidateManifests(manifests: seq<ReadManifest>, profile: string, cases: seq<Case>) returns (ok: bool)
    ensures ok <==> FrozenIdentity(manifests, profile, cases)
  {
    if manifests == [] {
      return false;
    }
    var n := 0;
    while n < |manifests|
      invariant 0 <= n <= |manifests|
      invariant forall i :: 0 <= i < n ==> Complete(manifests[i], profile)
    {
      var complete := CheckManifest(manifests[n], profile);
      if !complete {
        return false;
      }
      n := n + 1;
    }
    n := 0;
    while n < |manifests|
      invariant 0 <= n <= |manifests|
      invariant forall i :: 0 <= i < n ==> SameIdentity(manifests[0].payload, manifests[i].payload)
    {
      if !SameIdentity(manifests[0].payload, manifests[n].payload) {
        return false;
      }
      n := n + 1;
    }
    forall i, j | 0 <= i < |manifests| && 0 <= j < |manifests|
      ensures SameIdentity(manifests[i].payload, manifests[j].payload)
    {
      assert SameIdentity(manifests[0].payload, manifests[i].payload);
      assert SameIdentity(manifests[0].payload, manifests[j].payload);
    }
    n := 0;
    while n < |cases|
      invariant 0 <= n <= |cases|
      invariant forall c :: 0 <= c < n ==> CaseAgrees(cases[c], manifests[0].payload)
    {
      var agrees := CheckCase(cases[n], manifests[0].payload);
      if !agrees {
        return false;
      }
      n := n + 1;
    }
    forall c, i | 0 <= c < |cases| && 0 <= i < |manifests|
      ensures CaseAgrees(cases[c], manifests[i].payload)
    {
      AgreesThroughIdentity(cases[c], manifests[0].payload, manifests[i].payload);
    }
    return true;
  }

  // ------------------------------------------------------------------ scenarios

  datatype Basis = Basis(caseId: string, chapter: nat, isolated: bool, commit: string, snapshot: string)

  datatype Freeze = Freeze(freezeId: string, caseId: string, chapter: nat, commit: string, snapshot: string, frozenAt: int)

  datatype Reveal = Reveal(freezeId: string, destroyed: bool, completedAt: int)

  datatype ScenarioData = ScenarioData(
    completed: bool, blockers: seq<string>, checkpoints: seq<Basis>, freezes: seq<Freeze>, evaluatorReveals: seq<Reveal>)

  /** What the domain model enforces when a scenario file is parsed. */
  predicate Parses(s: ScenarioData) {
    && (s.completed ==> s.blockers == [])
    && (forall i, j :: 0 <= i < j < |s.freezes| ==> s.freezes[i].freezeId != s.freezes[j].freezeId)
    && (forall k :: 0 <= k < |s.evaluatorReveals| ==>
          exists j :: 0 <= j < |s.freezes| && s.freezes[j].freezeId == s.evaluatorReveals[k].freezeId)
  }

  type Scenario = s: ScenarioData | Parses(s) witness ScenarioData(false, [], [], [], [])

  datatype ReadScenario = BadScenario | Read(scenario: Scenario)

  predicate FormalBasis(b: Basis) {
    b.chapter in FORMAL && b.caseId == FORMAL[b.chapter] && b.isolated
  }

  /** The freeze belongs to the checkpoint. */
  predicate Fits(s: ScenarioData, i: nat, j: nat) {
    && i < |s.checkpoints| && j < |s.freezes|
    && s.freezes[j].caseId == s.checkpoints[i].caseId
    && s.freezes[j].chapter == s.checkpoints[i].chapter
    && s.freezes[j].commit == s.checkpoints[i].commit
    && s.freezes[j].snapshot == s.checkpoints[i].snapshot
  }

  predicate Reveals(s: ScenarioData, j: nat, k: nat) {
    j < |s.freezes| && k < |s.evaluatorReveals| && s.evaluatorReveals[k].freezeId == s.freezes[j].freezeId
  }

  predicate InOrder(s: ScenarioData, j: nat, k: nat)
    requires j < |s.freezes| && k < |s.evaluatorReveals|
  {
    s.evaluatorReveals[k].destroyed && s.evaluatorReveals[k].completedAt >= s.freezes[j].frozenAt
  }

  function FitRel(s: ScenarioData): (nat, nat) -> bool {
    (i: nat, j: nat) => Fits(s, i, j)
  }

  function RevealRel(s: ScenarioData): (nat, nat) -> bool {
    (j: nat, k: nat) => Reveals(s, j, k)
  }

  /** The closed life of one scenario: checkpoints, freezes and reveals are in
      one-to-one correspondence, and each reveal follows its freeze. */
  ghost predicate Closed(s: ScenarioData) {
    && s.completed && s.blockers == [] && s.checkpoints != []
    && (forall i :: 0 <= i < |s.checkpoints| ==> FormalBasis(s.checkpoints[i]))
    && Bijection(|s.checkpoints|, |s.freezes|, FitRel(s))
    && Bijection(|s.freezes|, |s.evaluatorReveals|, RevealRel(s))
    && (forall j: nat, k: nat :: Reveals(s, j, k) ==> InOrder(s, j, k))
  }

  ghost predicate DistinctChapters(s: ScenarioData) {
    forall i, j :: 0 <= i < j < |s.checkpoints| ==> s.checkpoints[i].chapter != s.checkpoints[j].chapter
  }

  /** What the loop body has established about one checkpoint. */
  ghost predicate Settled(s: ScenarioData, i: nat) {
    && i < |s.checkpoints| && FormalBasis(s.checkpoints[i])
    && exists j: nat :: Fits(s, i, j) && Disclosed(s, j)
  }

  /** The freeze has exactly one reveal, and that one follows it. */
  ghost predicate Disclosed(s: ScenarioData, j: nat) {
    exists k: nat :: OnlyReveal(s, j, k) && InOrder(s, j, k)
  }

  ghost predicate OnlyReveal(s: ScenarioData, j: nat, k: nat) {
    Reveals(s, j, k) && forall k': nat :: Reveals(s, j, k') ==> k' == k
  }

  /** The counts and per-checkpoint checks that the code makes. */
  ghost predicate Checked(s: ScenarioData) {
    && s.completed && s.blockers == [] && s.checkpoints != []
    && |s.freezes| == |s.checkpoints| == |s.evaluatorReveals|
    && DistinctCases(s)
    && (forall i :: 0 <= i < |s.checkpoints| ==> Settled(s, i))
  }

  ghost predicate DistinctCases(s: ScenarioData) {
    forall i, j :: 0 <= i < j < |s.freezes| ==> s.freezes[i].caseId != s.freezes[j].caseId
  }

  lemma FormalInjective(a: Basis, b: Basis)
    requires FormalBasis(a) && FormalBasis(b) && a.caseId == b.caseId
    ensures a.chapter == b.chapter
  {
  }

  /** The one-sided checks amount to the two-sided description. */
  lemma CheckedMeansClosed(s: Scenario)
    requires DistinctChapters(s)
    ensures Checked(s) <==> Closed(s)
  {
    if Checked(s) {
      CheckedFreezes(s);
      CheckedReveals(s);
      forall i | 0 <= i < |s.checkpoints|
        ensures FormalBasis(s.checkpoints[i])
      {
        assert Settled(s, i);
      }
    }
    if Closed(s) {
      ClosedCounts(s);
      ClosedSettled(s);
    }
  }

  lemma FitsAtMostOne(s: Scenario)
    requires DistinctChapters(s) && DistinctCases(s)
    ensures AtMostOne(|s.checkpoints|, |s.freezes|, FitRel(s))
  {
  }

  lemma CheckedFreezes(s: Scenario)
    requires DistinctChapters(s) && Checked(s)
    ensures Bijection(|s.checkpoints|, |s.freezes|, FitRel(s))
  {
    var rel := FitRel(s);
    FitsAtMostOne(s);
    forall i: nat | i < |s.checkpoints|
      ensures HasRight(i, |s.freezes|, rel)
    {
      assert Settled(s, i);
      var j: nat :| Fits(s, i, j) && Disclosed(s, j);
      assert rel(i, j);
    }
    OneSidedIsBijection(|s.checkpoints|, rel);
  }

  lemma CheckedReveals(s: Scenario)
    requires DistinctChapters(s) && Checked(s)
    ensures Bijection(|s.freezes|, |s.evaluatorReveals|, RevealRel(s))
    ensures forall j: nat, k: nat :: Reveals(s, j, k) ==> InOrder(s, j, k)
  {
    var fits := FitRel(s);
    var rel := RevealRel(s);
    CheckedFreezes(s);
    forall j: nat | j < |s.freezes|
      ensures Disclosed(s, j)
    {
      assert HasLeft(|s.checkpoints|, j, fits);
      var i: nat :| i < |s.checkpoints| && fits(i, j);
      assert Settled(s, i);
      var j': nat :| Fits(s, i, j') && Disclosed(s, j');
      assert fits(i, j) && fits(i, j');
      assert j' == j;
    }
    forall j: nat | j < |s.freezes|
      ensures HasRight(j, |s.evaluatorReveals|, rel)
    {
      assert Disclosed(s, j);
      var k: nat :| OnlyReveal(s, j, k) && InOrder(s, j, k);
      assert rel(j, k);
    }
    forall j: nat, k: nat, k': nat | j < |s.freezes| && k < |s.evaluatorReveals| && k' < |s.evaluatorReveals| && rel(j, k) && rel(j, k')
      ensures k == k'
    {
      assert Disclosed(s, j);
      var only: nat :| OnlyReveal(s, j, only) && InOrder(s, j, only);
    }
    assert AtMostOne(|s.freezes|, |s.evaluatorReveals|, rel);
    OneSidedIsBijection(|s.freezes|, rel);
    forall j: nat, k: nat | Reveals(s, j, k)
      ensures InOrder(s, j, k)
    {
      assert Disclosed(s, j);
      var only: nat :| OnlyReveal(s, j, only) && InOrder(s, j, only);
    }
  }

  lemma ClosedCounts(s: Scenario)
    requires DistinctChapters(s) && Closed(s)
    ensures |s.freezes| == |s.checkpoints| == |s.evaluatorReveals| && DistinctCases(s)
  {
    var fits := FitRel(s);
    BijectionSizes(|s.checkpoints|, |s.freezes|, fits);
    BijectionSizes(|s.freezes|, |s.evaluatorReveals|, RevealRel(s));
    forall a, b | 0 <= a < b < |s.freezes|
      ensures s.freezes[a].caseId != s.freezes[b].caseId
    {
      assert HasLeft(|s.checkpoints|, a, fits) && HasLeft(|s.checkpoints|, b, fits);
      var i: nat :| i < |s.checkpoints| && fits(i, a);
      var j: nat :| j < |s.checkpoints| && fits(j, b);
      if s.freezes[a].caseId == s.freezes[b].caseId {
        FormalInjective(s.checkpoints[i], s.checkpoints[j]);
      }
    }
  }

  lemma ClosedSettled(s: Scenario)
    requires Closed(s)
    ensures forall i :: 0 <= i < |s.checkpoints| ==> Settled(s, i)
  {
    var fits := FitRel(s);
    var rel := RevealRel(s);
    forall i: nat | i < |s.checkpoints|
      ensures Settled(s, i)
    {
      assert HasRight(i, |s.freezes|, fits);
      var j: nat :| j < |s.freezes| && fits(i, j);
      assert HasRight(j, |s.evaluatorReveals|, rel);
      var k: nat :| k < |s.evaluatorReveals| && rel(j, k);
      forall k': nat | Reveals(s, j, k')
        ensures k' == k
      {
        assert rel(j, k) && rel(j, k');
      }
      assert OnlyReveal(s, j, k) && InOrder(s, j, k);
      assert Fits(s, i, j) && Disclosed(s, j);
    }
  }

  // ------------------------------------------------------------- the validator

  function ChaptersOf(s: ScenarioData): set<nat> {
    set i | 0 <= i < |s.checkpoints| :: s.checkpoints[i].chapter
  }

  function Cases(s: ScenarioData): seq<string> {
    seq(|s.freezes|, j requires 0 <= j < |s.freezes| => s.freezes[j].caseId)
  }

  /** The dictionary of freezes by case, or failure when two share a case. */
  method FreezeByCase(s: Scenario) returns (ok: bool, byCase: map<string, nat>)
    ensures ok <==> DistinctCases(s)
    ensures forall c :: c in byCase ==> byCase[c] < |s.freezes| && s.freezes[byCase[c]].caseId == c
    ensures forall j :: 0 <= j < |s.freezes| ==> s.freezes[j].caseId in byCase
  {
    hide Parses;
    byCase := map[];
    ghost var cases := Cases(s);
    var n := 0;
    while n < |s.freezes|
      invariant 0 <= n <= |s.freezes|
      invariant byCase.Keys == Elements(cases[..n])
      invariant forall c :: c in byCase ==> byCase[c] < n && s.freezes[byCase[c]].caseId == c
    {
      ElementsStep(cases, n);
      byCase := byCase[s.freezes[n].caseId := n];
      n := n + 1;
    }
    assert cases[..n] == cases;
    ElementsCount(cases);
    CasesRepeat(s);
    forall j | 0 <= j < |s.freezes|
      ensures s.freezes[j].caseId in byCase
    {
      assert cases[j] in Elements(cases);
    }
    assert |byCase| == |byCase.Keys|;
    ok := |byCase| == |s.freezes|;
  }

  lemma CasesRepeat(s: Scenario)
    ensures Distinct(Cases(s)) <==> DistinctCases(s)
  {
    if Distinct(Cases(s)) {
      forall i, j | 0 <= i < j < |s.freezes|
        ensures s.freezes[i].caseId != s.freezes[j].caseId
      {
        assert Cases(s)[i] != Cases(s)[j];
      }
    }
  }

  /** The positions of the reveals of a freeze. */
  method RevealsFor(s: Scenario, j: nat) returns (found: seq<nat>)
    requires j < |s.freezes|
    ensures forall k: nat :: k in found <==> Reveals(s, j, k)
    ensures forall a, b :: 0 <= a < b < |found| ==> found[a] < found[b]
  {
    found := [];
    var n := 0;
    while n < |s.evaluatorReveals|
      invariant 0 <= n <= |s.evaluatorReveals|
      invariant forall k: nat :: k in found <==> k < n && Reveals(s, j, k)
      invariant forall a, b :: 0 <= a < b < |found| ==> found[a] < found[b]
    {
      if s.evaluatorReveals[n].freezeId == s.freezes[j].freezeId {
        assert forall a :: 0 <= a < |found| ==> found[a] in found;
        found := found + [n];
      }
      n := n + 1;
    }
  }

  lemma OneFound(s: Scenario, j: nat, found: seq<nat>)
    requires forall k: nat :: k in found <==> Reveals(s, j, k)
    requires forall a, b :: 0 <= a < b < |found| ==> found[a] < found[b]
    ensures |found| == 1 ==> OnlyReveal(s, j, found[0])
    ensures |found| != 1 ==> forall k: nat :: !OnlyReveal(s, j, k)
  {
    if |found| == 0 {
      assert forall k: nat :: k !in found;
    } else {
      assert found[0] in found;
      if |found| > 1 {
        assert found[1] in found;
        assert Reveals(s, j, found[0]) && Reveals(s, j, found[1]);
      }
    }
  }

  /** The checks of the loop body for one checkpoint. */
  method CheckBasis(s: Scenario, i: nat, byCase: map<string, nat>) returns (ok: bool)
    requires i < |s.checkpoints| && DistinctCases(s)
    requires forall c :: c in byCase ==> byCase[c] < |s.freezes| && s.freezes[byCase[c]].caseId == c
    requires forall j :: 0 <= j < |s.freezes| ==> s.freezes[j].caseId in byCase
    ensures ok <==> Settled(s, i)
  {
    var b := s.checkpoints[i];
    if b.chapter !in FORMAL || FORMAL[b.chapter] != b.caseId {
      return false;
    }
    if !b.isolated {
      return false;
    }
    if b.caseId !in byCase {
      return false;
    }
    var j := byCase[b.caseId];
    assert forall j': nat :: Fits(s, i, j') ==> j' == j;
    if s.freezes[j].chapter != b.chapter {
      return false;
    }
    if s.freezes[j].commit != b.commit || s.freezes[j].snapshot != b.snapshot {
      return false;
    }
    var found := RevealsFor(s, j);
    OneFound(s, j, found);
    if |found| != 1 {
      return false;
    }
    var k := found[0];
    assert k in found;
    if !s.evaluatorReveals[k].destroyed || s.evaluatorReveals[k].completedAt < s.freezes[j].frozenAt {
      return false;
    }
    assert Fits(s, i, j) && Disclosed(s, j);
    return true;
  }

  /** One scenario, given the chapters met in earlier ones. */
  method ValidateScenario(s: Scenario, observed: set<nat>) returns (ok: bool, chapters: set<nat>)
    ensures ok <==> Checked(s) && DistinctChapters(s) && ChaptersOf(s) !! observed
    ensures ok ==> chapters == observed + ChaptersOf(s)
  {
    chapters := observed;
    if !s.completed || s.blockers != [] || s.checkpoints == [] {
      return false, chapters;
    }
    if |s.freezes| != |s.checkpoints| || |s.evaluatorReveals| != |s.checkpoints| {
      return false, chapters;
    }
    var byCase;
    ok, byCase := FreezeByCase(s);
    if !ok {
      return;
    }
    var i := 0;
    while i < |s.checkpoints|
      invariant 0 <= i <= |s.checkpoints|
      invariant forall n :: 0 <= n < i ==> Settled(s, n)
      invariant forall m, n :: 0 <= m < n < i ==> s.checkpoints[m].chapter != s.checkpoints[n].chapter
      invariant forall n :: 0 <= n < i ==> s.checkpoints[n].chapter !in observed
      invariant forall ch :: ch in chapters <==> ch in observed || exists n :: 0 <= n < i && s.checkpoints[n].chapter == ch
    {
      ok := CheckBasis(s, i, byCase);
      if !ok {
        return;
      }
      var chapter := s.checkpoints[i].chapter;
      assert chapter in ChaptersOf(s);
      if chapter in chapters {
        return false, chapters;
      }
      chapters := chapters + {chapter};
      i := i + 1;
    }
    assert chapters == observed + ChaptersOf(s);
    return true, chapters;
  }

  const NO_SCENARIO: ScenarioData := ScenarioData(false, [], [], [], [])

  function DataOf(file: ReadScenario): ScenarioData {
    if file.Read? then file.scenario else NO_SCENARIO
  }

  /** The chapter of checkpoint i in file p. */
  predicate ChapterAt(files: seq<ReadScenario>, p: nat, i: nat, chapter: nat) {
    p < |files| && i < |DataOf(files[p]).checkpoints| && DataOf(files[p]).checkpoints[i].chapter == chapter
  }

  /** No chapter has two checkpoints, in one scenario or in two. */
  ghost predicate ChaptersOnce(files: seq<ReadScenario>) {
    forall p: nat, i: nat, q: nat, j: nat, ch: nat ::
      ChapterAt(files, p, i, ch) && ChapterAt(files, q, j, ch) ==> p == q && i == j
  }

  /** The checkpoints of all scenarios are exactly the formal ones, once each. */
  ghost predicate CoversFormal(files: seq<ReadScenario>) {
    && ChaptersOnce(files)
    && (forall ch :: ch in FORMAL <==> exists p: nat, i: nat :: ChapterAt(files, p, i, ch))
  }

  /** The chapters of the first n files. */
  ghost predicate ObservedIs(files: seq<ReadScenario>, observed: set<nat>) {
    forall ch: nat :: ch in observed <==> exists p: nat, i: nat :: ChapterAt(files, p, i, ch)
  }

  ghost predicate AllClosed(files: seq<ReadScenario>) {
    forall n :: 0 <= n < |files| ==> files[n].Read? && Closed(files[n].scenario)
  }

  /** One more scenario. */
  lemma NextFile(files: seq<ReadScenario>, file: ReadScenario, observed: set<nat>)
    requires file.Read? && ObservedIs(files, observed) && ChaptersOnce(files)
    ensures ChaptersOnce(files + [file]) <==> DistinctChapters(file.scenario) && ChaptersOf(file.scenario) !! observed
    ensures ObservedIs(files + [file], observed + ChaptersOf(file.scenario))
  {
    var all, s, n := files + [file], file.scenario, |files|;
    forall p: nat, i: nat, ch: nat
      ensures ChapterAt(all, p, i, ch) <==> ChapterAt(files, p, i, ch) || (p == n && ChapterAt([file], 0, i, ch))
    {
    }
    if ChaptersOnce(all) {
      forall i, j | 0 <= i < j < |s.checkpoints|
        ensures s.checkpoints[i].chapter != s.checkpoints[j].chapter
      {
        assert ChapterAt(all, n, i, s.checkpoints[i].chapter);
        assert ChapterAt(all, n, j, s.checkpoints[j].chapter);
      }
      forall ch | ch in ChaptersOf(s)
        ensures ch !in observed
      {
        var i :| 0 <= i < |s.checkpoints| && s.checkpoints[i].chapter == ch;
        assert ChapterAt(all, n, i, ch);
      }
    }
    if DistinctChapters(s) && ChaptersOf(s) !! observed {
      forall p: nat, i: nat, q: nat, j: nat, ch: nat | ChapterAt(all, p, i, ch) && ChapterAt(all, q, j, ch)
        ensures p == q && i == j
      {
        assert p == n ==> ch in ChaptersOf(s);
        assert q == n ==> ch in ChaptersOf(s);
      }
    }
    forall ch: nat
      ensures ch in observed + ChaptersOf(s) <==> exists p: nat, i: nat :: ChapterAt(all, p, i, ch)
    {
      if ch in observed {
        var p: nat, i: nat :| ChapterAt(files, p, i, ch);
        assert ChapterAt(all, p, i, ch);
      }
      if ch in ChaptersOf(s) {
        var i :| 0 <= i < |s.checkpoints| && s.checkpoints[i].chapter == ch;
        assert ChapterAt(all, n, i, ch);
      }
    }
  }

  lemma OncePrefix(files: seq<ReadScenario>, n: nat)
    requires n <= |files| && ChaptersOnce(files)
    ensures ChaptersOnce(files[..n])
  {
    forall p: nat, i: nat, ch: nat | ChapterAt(files[..n], p, i, ch)
      ensures ChapterAt(files, p, i, ch)
    {
    }
  }

  /** `_validate_formal_run_lifecycle`. It accepts exactly the runs in which the
      manifests share one identity that every case agrees with, and in which
      checkpoints, freezes and reveals correspond one to one and cover the
      formal checkpoints. */
  method Validate(manifests: seq<ReadManifest>, profile: string, cases: seq<Case>, files: seq<ReadScenario>)
    returns (ok: bool)
    ensures ok <==> FrozenIdentity(manifests, profile, cases) && files != [] && AllClosed(files) && CoversFormal(files)
  {
    hide FrozenIdentity, Closed, Checked, ChaptersOnce, ObservedIs, DistinctChapters;
    ok := ValidateManifests(manifests, profile, cases);
    if !ok {
      return;
    }
    if files == [] {
      return false;
    }
    var observed: set<nat> := {};
    NoFiles();
    var n := 0;
    while n < |files|
      invariant 0 <= n <= |files|
      invariant AllClosed(files[..n]) && ChaptersOnce(files[..n]) && ObservedIs(files[..n], observed)
    {
      assert files[..n + 1] == files[..n] + [files[n]];
      if files[n].BadScenario? {
        assert !AllClosed(files);
        return false;
      }
      var s := files[n].scenario;
      NextFile(files[..n], files[n], observed);
      ok, observed := ValidateScenario(s, observed);
      if DistinctChapters(s) {
        CheckedMeansClosed(s);
      }
      if !ok {
        if ChaptersOnce(files) {
          OncePrefix(files, n + 1);
        }
        return;
      }
      n := n + 1;
    }
    assert files[..n] == files;
    AllObserved(files, observed);
    ok := observed == FORMAL.Keys;
  }

  lemma NoFiles()
    ensures AllClosed([]) && ChaptersOnce([]) && ObservedIs([], {})
  {
  }

  lemma AllObserved(files: seq<ReadScenario>, observed: set<nat>)
    requires ObservedIs(files, observed) && ChaptersOnce(files)
    ensures CoversFormal(files) <==> observed == FORMAL.Keys
  {
    if CoversFormal(files) {
      forall ch: nat
        ensures ch in observed <==> ch in FORMAL.Keys
      {
      }
    }
  }

  // ------------------------------------------------------- in the recorded fields

  /** Values are the same when they are equal, or a truth value and the number that
      stands for it. */
  lemma SameMeans(a: Value, b: Value)
    ensures Same(a, b) <==> a == b || StandsFor(a, b) || StandsFor(b, a)
  {
  }

  predicate StandsFor(a: Value, b: Value) {
    a.Flag? && b.Number? && (a.b ==> b.x == 1.0) && (!a.b ==> b.x == 0.0)
  }

  /** The formal checkpoints, one by one. */
  lemma FormalMeans(b: Basis)
    ensures FormalBasis(b) ==> b.isolated && b.chapter in {20, 40, 60, 80, 95}
    ensures b.isolated && b.chapter == 20 ==> (FormalBasis(b) <==> b.caseId == "ZTJ-P001")
    ensures b.isolated && b.chapter == 40 ==> (FormalBasis(b) <==> b.caseId == "ZTJ-P002")
    ensures b.isolated && b.chapter == 60 ==> (FormalBasis(b) <==> b.caseId == "ZTJ-P003")
    ensures b.isolated && b.chapter == 80 ==> (FormalBasis(b) <==> b.caseId == "ZTJ-P004")
    ensures b.isolated && b.chapter == 95 ==> (FormalBasis(b) <==> b.caseId == "ZTJ-P005")
  {
  }

  /** The fields that all manifests share, and those that the cases share with them. */
  lemma IdentityFieldsMean(name: string)
    ensures name in CASE_FIELDS <==>
      || name == "code_version" || name == "run_config_hash" || name == "benchmark_contract_hash"
      || name == "matcher_version" || name == "writer_token_budget" || name == "evidence_ledger_token_budget"
    ensures name in IDENTITY_FIELDS <==>
      name in CASE_FIELDS || name == "code_commit" || name == "code_source_fingerprint" || name == "experiment_id"
  {
  }

  /** In an accepted manifest part, any two manifests have the same value in every
      identity field, none of them missing or empty, from clean source and of the
      profile; and every case has the manifests' values in the case fields. */
  lemma FrozenMeans(manifests: seq<ReadManifest>, profile: string, cases: seq<Case>, name: string)
    requires FrozenIdentity(manifests, profile, cases)
    ensures forall i :: 0 <= i < |manifests| ==>
      && manifests[i].Manifest?
      && Get(manifests[i].payload, "code_source_dirty") == Flag(false)
      && Get(manifests[i].payload, "information_profile") == Text(profile)
    ensures name in IDENTITY_FIELDS ==> forall i, j :: 0 <= i < |manifests| && 0 <= j < |manifests| ==>
      && Get(manifests[i].payload, name) != Null && Get(manifests[i].payload, name) != Text("")
      && Same(Get(manifests[i].payload, name), Get(manifests[j].payload, name))
    ensures name in CASE_FIELDS ==> forall c, i :: 0 <= c < |cases| && 0 <= i < |manifests| ==>
      Same(Get(cases[c].fields, name), Get(manifests[i].payload, name))
  {
    hide Get, Same;
    if name in IDENTITY_FIELDS {
      var k :| 0 <= k < |IDENTITY_FIELDS| && IDENTITY_FIELDS[k] == name;
      forall i, j | 0 <= i < |manifests| && 0 <= j < |manifests|
        ensures Get(manifests[i].payload, name) != Null && Get(manifests[i].payload, name) != Text("")
        ensures Same(Get(manifests[i].payload, name), Get(manifests[j].payload, name))
      {
        assert Complete(manifests[i], profile) && SameIdentity(manifests[i].payload, manifests[j].payload);
      }
    }
    if name in CASE_FIELDS {
      var k :| 0 <= k < |CASE_FIELDS| && CASE_FIELDS[k] == name;
      forall c, i | 0 <= c < |cases| && 0 <= i < |manifests|
        ensures Same(Get(cases[c].fields, name), Get(manifests[i].payload, name))
      {
        assert CaseAgrees(cases[c], manifests[i].payload);
      }
    }
  }

  /** In an accepted run a reveal of a freeze is complete no earlier than the freeze,
      its evaluator context is destroyed, and it is the only one. */
  lemma RevealsMean(files: seq<ReadScenario>, p: nat, j: nat, k: nat)
    requires AllClosed(files) && p < |files|
    requires var s := files[p].scenario;
      j < |s.freezes| && k < |s.evaluatorReveals| && s.evaluatorReveals[k].freezeId == s.freezes[j].freezeId
    ensures var s := files[p].scenario;
      && s.freezes[j].frozenAt <= s.evaluatorReveals[k].completedAt && s.evaluatorReveals[k].destroyed
      && forall k': nat :: k' < |s.evaluatorReveals| && s.evaluatorReveals[k'].freezeId == s.freezes[j].freezeId ==> k' == k
  {
    hide Parses;
    var s := files[p].scenario;
    var rel := RevealRel(s);
    assert Reveals(s, j, k) && rel(j, k);
    forall k': nat | k' < |s.evaluatorReveals| && s.evaluatorReveals[k'].freezeId == s.freezes[j].freezeId
      ensures k' == k
    {
      assert rel(j, k');
    }
  }

  /** In an accepted run every checkpoint has a freeze of its case, chapter, commit
      and snapshot, and that freeze a reveal; and every freeze and every reveal
      belongs to a checkpoint. */
  lemma FreezesMean(files: seq<ReadScenario>, p: nat)
    requires AllClosed(files) && p < |files|
    ensures var s := files[p].scenario;
      && |s.checkpoints| == |s.freezes| == |s.evaluatorReveals|
      && (forall i: nat :: i < |s.checkpoints| ==> Frozen(s, i))
      && (forall j: nat :: j < |s.freezes| ==> Freezes(s, j))
      && (forall k: nat :: k < |s.evaluatorReveals| ==> Discloses(s, k))
      && (forall j: nat :: j < |s.freezes| ==> Revealed(s, j))
  {
    hide Parses;
    var s := files[p].scenario;
    var fits, shows := FitRel(s), RevealRel(s);
    BijectionSizes(|s.checkpoints|, |s.freezes|, fits);
    BijectionSizes(|s.freezes|, |s.evaluatorReveals|, shows);
    forall i: nat | i < |s.checkpoints|
      ensures Frozen(s, i)
    {
      assert HasRight(i, |s.freezes|, fits);
      var j: nat :| j < |s.freezes| && fits(i, j);
      assert FrozenAs(s, i, j);
    }
    forall j: nat | j < |s.freezes|
      ensures Freezes(s, j)
      ensures Revealed(s, j)
    {
      assert HasLeft(|s.checkpoints|, j, fits) && HasRight(j, |s.evaluatorReveals|, shows);
      var i: nat :| i < |s.checkpoints| && fits(i, j);
      assert FrozenAs(s, i, j);
      var k: nat :| k < |s.evaluatorReveals| && shows(j, k);
      assert RevealedBy(s, j, k);
    }
    forall k: nat | k < |s.evaluatorReveals|
      ensures Discloses(s, k)
    {
      assert HasLeft(|s.freezes|, k, shows);
      var j: nat :| j < |s.freezes| && shows(j, k);
      assert RevealedBy(s, j, k);
    }
  }

  /** The freeze records the checkpoint's case, chapter, commit and snapshot. */
  ghost predicate FrozenAs(s: ScenarioData, i: nat, j: nat) {
    && i < |s.checkpoints| && j < |s.freezes|
    && s.checkpoints[i].caseId == s.freezes[j].caseId && s.checkpoints[i].chapter == s.freezes[j].chapter
    && s.checkpoints[i].commit == s.freezes[j].commit && s.checkpoints[i].snapshot == s.freezes[j].snapshot
  }

  ghost predicate Frozen(s: ScenarioData, i: nat) {
    exists j: nat :: FrozenAs(s, i, j)
  }

  ghost predicate Freezes(s: ScenarioData, j: nat) {
    exists i: nat :: FrozenAs(s, i, j)
  }

  ghost predicate Revealed(s: ScenarioData, j: nat) {
    exists k: nat :: RevealedBy(s, j, k)
  }

  ghost predicate Discloses(s: ScenarioData, k: nat) {
    exists j: nat :: RevealedBy(s, j, k)
  }

  ghost predicate RevealedBy(s: ScenarioData, j: nat, k: nat) {
    j < |s.freezes| && k < |s.evaluatorReveals| && s.freezes[j].freezeId == s.evaluatorReveals[k].freezeId
  }
}
