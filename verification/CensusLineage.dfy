/** The candidates that one object root selects and the lineage each of them
    must have (`build_corpus_report`, the part of its loop that reads a root). */
module CensusLineage {
  import opened Sequences
  import opened Wrappers
  import opened Json
  import opened Ordering
  import opened Counting
  import opened CensusRoot

  // ----------------------------------------------------------------- workflows

  /** The candidate that the workflow says was committed to Canon. */
  function AcceptedBy(w: Payload): Option<string> {
    match At(w, "accepted_candidate_id")
    case Str(id) => Some(id)
    case _ => None
  }

  /** The candidate that the workflow says passed validation only. */
  function SafeBy(w: Payload): Option<string> {
    if At(w, "safe_action_accepted") != Bool(true) then None
    else match At(w, "terminal_candidate_id")
      case Str(id) => Some(id)
      case _ => None
  }

  predicate AcceptedContract(w: Payload) {
    At(w, "accepted_candidate_id").Str? ==>
      && At(w, "status") == Str("committed")
      && At(w, "workflow_phase") == Str("complete")
      && At(w, "canonical_commit_accepted") == Bool(true)
      && At(w, "committed_operation_ids").Arr?
      && At(w, "committed_operation_ids").items != []
      && (forall item :: item in At(w, "committed_operation_ids").items ==> item.Str? && item.s != "")
      && At(w, "base_commit").Str?
      && At(w, "resulting_commit").Str?
  }

  predicate SafeContract(w: Payload) {
    At(w, "safe_action_accepted") == Bool(true) ==>
      && At(w, "terminal_candidate_id").Str?
      && At(w, "terminal_candidate_id").s != ""
      && At(w, "status") == Str("noop")
      && At(w, "workflow_phase") == Str("complete")
      && At(w, "canonical_commit_accepted") == Bool(false)
      && At(w, "resulting_commit") == Null
      && At(w, "commit_receipt") == Null
      && At(w, "world_mutation_noop") == Bool(false)
      && At(w, "terminal_codes").Arr?
      && Str("VALIDATION_ONLY_SAFE_ACTION") in At(w, "terminal_codes").items
  }

  /** The checks of `_accepted_workflows` on one workflow, in their order. */
  method CheckAccepted(w: Payload) returns (ok: bool)
    ensures ok <==> AcceptedContract(w)
  {
    hide At;
    if !At(w, "accepted_candidate_id").Str? { return true; }
    if At(w, "status") != Str("committed") { return false; }
    if At(w, "workflow_phase") != Str("complete") { return false; }
    if At(w, "canonical_commit_accepted") != Bool(true) { return false; }
    var operations := At(w, "committed_operation_ids");
    if !operations.Arr? || operations.items == [] { return false; }
    for i := 0 to |operations.items|
      invariant forall j :: 0 <= j < i ==> operations.items[j].Str? && operations.items[j].s != ""
    {
      if !operations.items[i].Str? || operations.items[i].s == "" {
        assert operations.items[i] in operations.items;
        return false;
      }
    }
    return At(w, "base_commit").Str? && At(w, "resulting_commit").Str?;
  }

  /** The checks of `_safe_action_workflows` on one workflow, in their order. */
  method CheckSafe(w: Payload) returns (ok: bool)
    ensures ok <==> SafeContract(w)
  {
    hide At;
    if At(w, "safe_action_accepted") != Bool(true) { return true; }
    var candidate := At(w, "terminal_candidate_id");
    if !candidate.Str? || candidate.s == "" { return false; }
    if At(w, "status") != Str("noop") || At(w, "workflow_phase") != Str("complete") { return false; }
    if At(w, "canonical_commit_accepted") != Bool(false) { return false; }
    if At(w, "resulting_commit") != Null || At(w, "commit_receipt") != Null { return false; }
    if At(w, "world_mutation_noop") != Bool(false) { return false; }
    var codes := At(w, "terminal_codes");
    return codes.Arr? && Str(SAFE_ACTION_CODE) in codes.items;
  }

  function WorkflowsOf(artifacts: seq<Artifact>): seq<Payload> {
    if artifacts == [] then []
    else (if artifacts[0].media == WorkflowMedia then [artifacts[0].payload] else []) + WorkflowsOf(artifacts[1..])
  }

  /** The workflows that speak of one candidate, in order. */
  function Speaking(workflows: seq<Payload>, names: Payload -> Option<string>, id: string): seq<Payload> {
    if workflows == [] then []
    else
      var front, last := workflows[..|workflows| - 1], workflows[|workflows| - 1];
      Speaking(front, names, id) + if names(last) == Some(id) then [last] else []
  }

  lemma {:induction false} SpeakingExactly(workflows: seq<Payload>, names: Payload -> Option<string>, id: string, w: Payload)
    ensures w in Speaking(workflows, names, id) <==> w in workflows && names(w) == Some(id)
  {
    if workflows != [] {
      var n := |workflows| - 1;
      SpeakingExactly(workflows[..n], names, id, w);
      assert workflows == workflows[..n] + [workflows[n]];
    }
  }

  /** `by_candidate`: its keys are the candidates spoken of. */
  ghost predicate ByCandidate(workflows: seq<Payload>, names: Payload -> Option<string>, found: map<string, seq<Payload>>) {
    forall id ::
      && (id in found <==> Speaking(workflows, names, id) != [])
      && (id in found ==> found[id] == Speaking(workflows, names, id))
  }

  function Extended(found: map<string, seq<Payload>>, said: Option<string>, w: Payload): map<string, seq<Payload>> {
    match said
    case Some(id) => found[id := (if id in found then found[id] else []) + [w]]
    case None => found
  }

  lemma ByCandidateStep(workflows: seq<Payload>, w: Payload, names: Payload -> Option<string>,
                        found: map<string, seq<Payload>>)
    requires ByCandidate(workflows, names, found)
    ensures ByCandidate(workflows + [w], names, Extended(found, names(w), w))
  {
    var longer := workflows + [w];
    assert longer[..|longer| - 1] == workflows;
    forall id
      ensures Speaking(longer, names, id) == Speaking(workflows, names, id) + if names(w) == Some(id) then [w] else []
    {
    }
  }

  /** `_accepted_workflows` */
  method AcceptedWorkflows(workflows: seq<Payload>) returns (result: Option<map<string, seq<Payload>>>)
    ensures result.Some? <==> forall w :: w in workflows ==> AcceptedContract(w)
    ensures result.Some? ==> ByCandidate(workflows, AcceptedBy, result.value)
  {
    hide ByCandidate, At, AcceptedContract, Speaking;
    var found: map<string, seq<Payload>> := map[];
    assert ByCandidate(workflows[..0], AcceptedBy, found) by { ByCandidateEmpty(workflows[..0], AcceptedBy); }
    var n := 0;
    while n < |workflows|
      invariant 0 <= n <= |workflows|
      invariant ByCandidate(workflows[..n], AcceptedBy, found)
      invariant forall w :: w in workflows[..n] ==> AcceptedContract(w)
    {
      var w := workflows[n];
      PrefixStep(workflows, n);
      var ok := CheckAccepted(w);
      if !ok {
        return None;
      }
      ByCandidateStep(workflows[..n], w, AcceptedBy, found);
      found := Extended(found, AcceptedBy(w), w);
      n := n + 1;
    }
    assert workflows[..n] == workflows;
    return Some(found);
  }

  lemma ByCandidateEmpty(none: seq<Payload>, names: Payload -> Option<string>)
    requires none == []
    ensures ByCandidate(none, names, map[])
  {
  }

  /** `_safe_action_workflows` */
  method SafeActionWorkflows(workflows: seq<Payload>) returns (result: Option<map<string, seq<Payload>>>)
    ensures result.Some? <==> forall w :: w in workflows ==> SafeContract(w)
    ensures result.Some? ==> ByCandidate(workflows, SafeBy, result.value)
  {
    hide ByCandidate, At, SafeContract, Speaking;
    var found: map<string, seq<Payload>> := map[];
    assert ByCandidate(workflows[..0], SafeBy, found) by { ByCandidateEmpty(workflows[..0], SafeBy); }
    var n := 0;
    while n < |workflows|
      invariant 0 <= n <= |workflows|
      invariant ByCandidate(workflows[..n], SafeBy, found)
      invariant forall w :: w in workflows[..n] ==> SafeContract(w)
    {
      var w := workflows[n];
      PrefixStep(workflows, n);
      var ok := CheckSafe(w);
      if !ok {
        return None;
      }
      ByCandidateStep(workflows[..n], w, SafeBy, found);
      found := Extended(found, SafeBy(w), w);
      n := n + 1;
    }
    assert workflows[..n] == workflows;
    return Some(found);
  }

  // ------------------------------------------------------------ finding of a candidate

  predicate Inside(part: string, whole: string) {
    exists k: nat | k <= |whole| :: part <= whole[k..]
  }

  /** `_finding_id_from_candidate`: `max` keeps the first of equally long ids. */
  function FindingIdFromCandidate(candidate: string, ids: seq<string>): Option<string> {
    if ids == [] then None
    else
      var front, last := ids[..|ids| - 1], ids[|ids| - 1];
      match FindingIdFromCandidate(candidate, front)
      case Some(best) => if Inside(last, candidate) && |last| > |best| then Some(last) else Some(best)
      case None => if Inside(last, candidate) then Some(last) else None
  }

  ghost predicate FirstLongest(candidate: string, ids: seq<string>, i: nat) {
    && i < |ids| && Inside(ids[i], candidate)
    && (forall j: nat :: j < |ids| && Inside(ids[j], candidate) ==> |ids[j]| <= |ids[i]|)
    && (forall j: nat :: j < i && Inside(ids[j], candidate) ==> |ids[j]| < |ids[i]|)
  }

  /** The first of the longest ids that occur in the candidate's id, if any does. */
  lemma {:induction false} FindingIdExactly(candidate: string, ids: seq<string>)
    ensures FindingIdFromCandidate(candidate, ids).None? <==> forall i: nat :: i < |ids| ==> !Inside(ids[i], candidate)
    ensures FindingIdFromCandidate(candidate, ids).Some? ==>
      exists i: nat :: FirstLongest(candidate, ids, i) && FindingIdFromCandidate(candidate, ids) == Some(ids[i])
  {
    hide Inside;
    if ids != [] {
      var n := |ids| - 1;
      var front := ids[..n];
      FindingIdExactly(candidate, front);
      if FindingIdFromCandidate(candidate, front).Some? {
        var i: nat :| FirstLongest(candidate, front, i) && FindingIdFromCandidate(candidate, front) == Some(front[i]);
        assert forall j: nat :: j < n ==> front[j] == ids[j];
        if Inside(ids[n], candidate) && |ids[n]| > |ids[i]| {
          assert FirstLongest(candidate, ids, n);
        } else {
          assert FirstLongest(candidate, ids, i);
        }
      } else {
        assert forall j: nat :: j < n ==> front[j] == ids[j];
        if Inside(ids[n], candidate) {
          assert FirstLongest(candidate, ids, n);
        }
      }
    }
  }

  // ------------------------------------------------------------------- lineage

  /** `candidates[artifact_id]` */
  function Stored(artifacts: seq<Artifact>, id: string): Option<Payload> {
    if artifacts == [] then None
    else
      var front, last := artifacts[..|artifacts| - 1], artifacts[|artifacts| - 1];
      if last.media == CandidateMedia && last.id == id then Some(last.payload) else Stored(front, id)
  }

  /** What stands behind one selected candidate. */
  datatype Lineage = Lineage(
    findingId: string, finding: Payload, revision: Payload, artifactId: string, candidate: Payload, validation: Payload)

  /** The parts of the lineage are the ones the root holds for this candidate. */
  ghost predicate Bound(artifacts: seq<Artifact>, id: string, l: Lineage) {
    && Declared(artifacts, RevisionMedia, "candidate_id", id) == Some(l.revision)
    && At(Under(l.revision, "candidate_artifact"), "artifact_id") == Str(l.artifactId)
    && At(Under(l.revision, "candidate_artifact"), "media_type") ==
         Str("application/vnd.novel-agent.memory-write-candidate+json")
    && Stored(artifacts, l.artifactId) == Some(l.candidate)
    && FindingIdFromCandidate(id, Identities(artifacts, FindingMedia, "finding_id")) == Some(l.findingId)
    && Declared(artifacts, FindingMedia, "finding_id", l.findingId) == Some(l.finding)
    && Declared(artifacts, ValidationMedia, "candidate_id", id) == Some(l.validation)
  }

  predicate SameBase(w: Payload, finding: Payload) {
    Same(At(w, "base_commit"), At(finding, "base_commit"))
  }

  /** The parts agree: one base commit, one candidate hash, a passed validation,
      and a boundary that can serve as a key. */
  predicate PartsAgree(l: Lineage) {
    && SameBase(l.revision, l.finding)
    && SameBase(l.validation, l.finding)
    && At(l.revision, "content_hash") == Str(l.artifactId)
    && At(l.validation, "candidate_content_hash") == Str(l.artifactId)
    && At(l.validation, "disposition") == Str("pass")
    && IsKey(BoundaryOf(l.finding))
  }

  /** The checks of the loop body on the parts, in their order. */
  method CheckParts(l: Lineage) returns (ok: bool)
    ensures ok <==> PartsAgree(l)
  {
    hide At, Key, BoundaryOf;
    var base := At(l.finding, "base_commit");
    if !Same(At(l.revision, "base_commit"), base) { return false; }
    if At(l.revision, "content_hash") != Str(l.artifactId) { return false; }
    if !Same(At(l.validation, "base_commit"), base) { return false; }
    if At(l.validation, "candidate_content_hash") != Str(l.artifactId) { return false; }
    if At(l.validation, "disposition") != Str("pass") { return false; }
    return IsKey(BoundaryOf(l.finding));
  }

  predicate Speaks(w: Payload, id: string) {
    AcceptedBy(w) == Some(id) || SafeBy(w) == Some(id)
  }

  ghost predicate WorkflowsAgree(workflows: seq<Payload>, id: string, finding: Payload) {
    forall w :: w in workflows && Speaks(w, id) ==> SameBase(w, finding)
  }

  ghost predicate Sound(artifacts: seq<Artifact>, id: string, l: Lineage) {
    Bound(artifacts, id, l) && PartsAgree(l) && WorkflowsAgree(WorkflowsOf(artifacts), id, l.finding)
  }

  ghost predicate HasLineage(artifacts: seq<Artifact>, id: string) {
    exists l :: Sound(artifacts, id, l)
  }

  lemma BoundUnique(artifacts: seq<Artifact>, id: string, l: Lineage, m: Lineage)
    requires Bound(artifacts, id, l) && Bound(artifacts, id, m)
    ensures l == m
  {
  }

  /** The candidates that the root's workflows name. */
  ghost function Named(artifacts: seq<Artifact>, names: Payload -> Option<string>): set<string> {
    set w | w in WorkflowsOf(artifacts) && names(w).Some? :: names(w).value
  }

  ghost function Selected(artifacts: seq<Artifact>): set<string> {
    Named(artifacts, AcceptedBy) + Named(artifacts, SafeBy)
  }

  /** No logical id is declared twice, and every workflow keeps its contract. */
  ghost predicate Readable(artifacts: seq<Artifact>) {
    && Unambiguous(artifacts, FindingMedia, "finding_id")
    && Unambiguous(artifacts, RevisionMedia, "candidate_id")
    && Unambiguous(artifacts, ValidationMedia, "candidate_id")
    && (forall w :: w in WorkflowsOf(artifacts) ==> AcceptedContract(w))
    && (forall w :: w in WorkflowsOf(artifacts) ==> SafeContract(w))
  }

  /** Everything the census demands of one root. */
  ghost predicate Auditable(root: Root) {
    && root.isDirectory
    && Readable(root.artifacts)
    && Named(root.artifacts, AcceptedBy) !! Named(root.artifacts, SafeBy)
    && (forall id :: id in Selected(root.artifacts) ==> HasLineage(root.artifacts, id))
  }

  /** The row of a candidate; `text` is Python's `str`. */
  function RowFrom(text: Json -> string, name: string, id: string, l: Lineage, safe: bool): Row {
    Row(name, BoundaryOf(l.finding), l.findingId, id, text(At(l.finding, "repair_owner")),
        FacetSuffixes(l.finding), ProblemIdentity(l.finding), SemanticAction(l.candidate),
        At(l.validation, "disposition") == Str("pass"), safe)
  }

  /** The row speaks for candidate `id` of the root. */
  ghost predicate RowOf(text: Json -> string, root: Root, id: string, row: Row) {
    exists l :: Sound(root.artifacts, id, l) && row == RowFrom(text, root.name, id, l, id in Named(root.artifacts, SafeBy))
  }

  lemma RowUnique(text: Json -> string, root: Root, id: string, row: Row, other: Row)
    requires RowOf(text, root, id, row) && RowOf(text, root, id, other)
    ensures row == other
  {
    hide Bound, RowFrom;
    var l :| Sound(root.artifacts, id, l) && row == RowFrom(text, root.name, id, l, id in Named(root.artifacts, SafeBy));
    var m :| Sound(root.artifacts, id, m) && other == RowFrom(text, root.name, id, m, id in Named(root.artifacts, SafeBy));
    BoundUnique(root.artifacts, id, l, m);
  }

  ghost function SortedIds(keys: set<string>): (ids: seq<string>)
    ensures forall id :: id in ids <==> id in keys
  {
    StringLessStrictTotal();
    var ids := Sorted(StringLess, keys);
    assert forall id :: id in Elements(ids) <==> id in keys;
    ids
  }

  ghost predicate RowsFor(text: Json -> string, root: Root, ids: seq<string>, rows: seq<Row>) {
    |rows| == |ids| && forall i :: 0 <= i < |ids| ==> RowOf(text, root, ids[i], rows[i])
  }

  /** One row for each selected candidate, in the order of their ids. */
  ghost predicate RowsOf(text: Json -> string, root: Root, rows: seq<Row>) {
    RowsFor(text, root, SortedIds(Selected(root.artifacts)), rows)
  }

  lemma RowsUnique(text: Json -> string, root: Root, rows: seq<Row>, other: seq<Row>)
    requires RowsOf(text, root, rows) && RowsOf(text, root, other)
    ensures rows == other
  {
    hide RowOf;
    var ids := SortedIds(Selected(root.artifacts));
    forall i | 0 <= i < |ids|
      ensures rows[i] == other[i]
    {
      RowUnique(text, root, ids[i], rows[i], other[i]);
    }
  }

  // --------------------------------------------------------------- reading a root

  /** The dictionaries built from one root before its candidates are checked. */
  datatype Tables = Tables(
    findings: map<string, Payload>, findingIds: seq<string>, revisions: map<string, Payload>,
    candidates: map<string, Payload>, validations: map<string, Payload>,
    accepted: map<string, seq<Payload>>, safe: map<string, seq<Payload>>)

  ghost predicate StoredIn(artifacts: seq<Artifact>, candidates: map<string, Payload>) {
    forall id ::
      && (id in candidates <==> Stored(artifacts, id).Some?)
      && (id in candidates ==> Stored(artifacts, id) == Some(candidates[id]))
  }

  ghost predicate Loaded(artifacts: seq<Artifact>, t: Tables) {
    && Indexed(artifacts, FindingMedia, "finding_id", t.findings)
    && t.findingIds == Identities(artifacts, FindingMedia, "finding_id")
    && Indexed(artifacts, RevisionMedia, "candidate_id", t.revisions)
    && StoredIn(artifacts, t.candidates)
    && Indexed(artifacts, ValidationMedia, "candidate_id", t.validations)
    && ByCandidate(WorkflowsOf(artifacts), AcceptedBy, t.accepted)
    && ByCandidate(WorkflowsOf(artifacts), SafeBy, t.safe)
  }

  method CandidateArtifacts(artifacts: seq<Artifact>) returns (candidates: map<string, Payload>)
    ensures StoredIn(artifacts, candidates)
  {
    candidates := map[];
    var n := 0;
    while n < |artifacts|
      invariant 0 <= n <= |artifacts|
      invariant StoredIn(artifacts[..n], candidates)
    {
      PrefixStep(artifacts, n);
      if artifacts[n].media == CandidateMedia {
        candidates := candidates[artifacts[n].id := artifacts[n].payload];
      }
      n := n + 1;
    }
    assert artifacts[..n] == artifacts;
  }

  lemma {:induction false} IdentityDeclared(artifacts: seq<Artifact>, media: Media, field: string, id: string)
    ensures id in Identities(artifacts, media, field) <==> Declared(artifacts, media, field, id).Some?
  {
    hide At;
    if artifacts != [] {
      IdentityDeclared(artifacts[..|artifacts| - 1], media, field, id);
    }
  }

  lemma FindingAmong(candidate: string, ids: seq<string>)
    ensures FindingIdFromCandidate(candidate, ids).Some? ==> FindingIdFromCandidate(candidate, ids).value in ids
  {
    hide Inside;
    FindingIdExactly(candidate, ids);
  }

  /** The part of the loop body that looks the pieces up. */
  method FindParts(ghost artifacts: seq<Artifact>, t: Tables, id: string) returns (parts: Option<Lineage>)
    requires Loaded(artifacts, t)
    ensures parts.Some? ==> Bound(artifacts, id, parts.value)
    ensures parts.None? ==> forall l :: !Bound(artifacts, id, l)
  {
    hide At, Under, FindingIdFromCandidate, Declared, Identities, Stored, ByCandidate;
    if id !in t.revisions { return None; }
    var revision := t.revisions[id];
    var reference := Under(revision, "candidate_artifact");
    var artifactId := At(reference, "artifact_id");
    if !artifactId.Str? { return None; }
    if At(reference, "media_type") != Str(CANDIDATE_TYPE) { return None; }
    if artifactId.s !in t.candidates { return None; }
    var found := FindingIdFromCandidate(id, t.findingIds);
    if found.None? { return None; }
    FindingAmong(id, t.findingIds);
    IdentityDeclared(artifacts, FindingMedia, "finding_id", found.value);
    if id !in t.validations { return None; }
    return Some(Lineage(found.value, t.findings[found.value], revision, artifactId.s,
                        t.candidates[artifactId.s], t.validations[id]));
  }

  method AllOnBase(workflows: seq<Payload>, finding: Payload) returns (ok: bool)
    ensures ok <==> forall w :: w in workflows ==> SameBase(w, finding)
  {
    for n := 0 to |workflows|
      invariant forall w :: w in workflows[..n] ==> SameBase(w, finding)
    {
      if !SameBase(workflows[n], finding) { return false; }
    }
    return true;
  }

  lemma NamedKeys(artifacts: seq<Artifact>, names: Payload -> Option<string>, found: map<string, seq<Payload>>)
    requires ByCandidate(WorkflowsOf(artifacts), names, found)
    ensures found.Keys == Named(artifacts, names)
  {
    forall id
      ensures id in found <==> id in Named(artifacts, names)
    {
      var said := Speaking(WorkflowsOf(artifacts), names, id);
      if id in found {
        SpeakingExactly(WorkflowsOf(artifacts), names, id, said[0]);
      }
      if id in Named(artifacts, names) {
        var w :| w in WorkflowsOf(artifacts) && names(w) == Some(id);
        SpeakingExactly(WorkflowsOf(artifacts), names, id, w);
      }
    }
  }

  /** Only the workflows of the candidate's own kind need be checked: it has no
      others. */
  lemma OneKind(artifacts: seq<Artifact>, id: string, finding: Payload, names: Payload -> Option<string>,
                others: Payload -> Option<string>, found: map<string, seq<Payload>>)
    requires ByCandidate(WorkflowsOf(artifacts), names, found) && id in found
    requires id !in Named(artifacts, others)
    requires forall w :: Speaks(w, id) <==> names(w) == Some(id) || others(w) == Some(id)
    ensures WorkflowsAgree(WorkflowsOf(artifacts), id, finding) <==> forall w :: w in found[id] ==> SameBase(w, finding)
  {
    hide Speaks, SameBase;
    var workflows := WorkflowsOf(artifacts);
    forall w
      ensures w in found[id] <==> w in workflows && Speaks(w, id)
    {
      SpeakingExactly(workflows, names, id, w);
    }
  }

  /** The body of the candidate loop up to the point where its row is added. */
  method CheckCandidate(ghost artifacts: seq<Artifact>, t: Tables, id: string) returns (lineage: Option<Lineage>)
    requires Loaded(artifacts, t)
    requires id in t.accepted || id in t.safe
    requires Named(artifacts, AcceptedBy) !! Named(artifacts, SafeBy)
    ensures lineage.Some? ==> Sound(artifacts, id, lineage.value)
    ensures lineage.None? ==> !HasLineage(artifacts, id)
  {
    hide Bound, PartsAgree, WorkflowsAgree, ByCandidate, Indexed, Identities, StoredIn, SameBase, Named;
    var parts := FindParts(artifacts, t, id);
    if parts.None? { return None; }
    var l := parts.value;
    if exists m :: Sound(artifacts, id, m) {
      var m :| Sound(artifacts, id, m);
      BoundUnique(artifacts, id, l, m);
    }
    var together := CheckParts(l);
    if !together { return None; }
    NamedKeys(artifacts, AcceptedBy, t.accepted);
    NamedKeys(artifacts, SafeBy, t.safe);
    var agree: bool;
    if id in t.accepted {
      agree := AllOnBase(t.accepted[id], l.finding);
      OneKind(artifacts, id, l.finding, AcceptedBy, SafeBy, t.accepted);
    } else {
      agree := AllOnBase(t.safe[id], l.finding);
      OneKind(artifacts, id, l.finding, SafeBy, AcceptedBy, t.safe);
    }
    return if agree then Some(l) else None;
  }

  method Load(artifacts: seq<Artifact>) returns (tables: Option<Tables>)
    ensures tables.Some? <==> Readable(artifacts)
    ensures tables.Some? ==> Loaded(artifacts, tables.value)
  {
    hide Unambiguous, Indexed, Identities, StoredIn, ByCandidate, AcceptedContract, SafeContract, WorkflowsOf;
    var findings, findingIds := IndexUnique(artifacts, FindingMedia, "finding_id");
    if findings.None? { return None; }
    var revisions, _ := IndexUnique(artifacts, RevisionMedia, "candidate_id");
    if revisions.None? { return None; }
    var candidates := CandidateArtifacts(artifacts);
    var validations, _ := IndexUnique(artifacts, ValidationMedia, "candidate_id");
    if validations.None? { return None; }
    var workflows := WorkflowsOf(artifacts);
    var accepted := AcceptedWorkflows(workflows);
    if accepted.None? { return None; }
    var safe := SafeActionWorkflows(workflows);
    if safe.None? { return None; }
    return Some(Tables(findings.value, findingIds, revisions.value, candidates, validations.value,
                       accepted.value, safe.value));
  }

  predicate IsCanonical(row: Row) {
    !row.safe
  }

  predicate IsValidated(row: Row) {
    row.validated
  }

  predicate IsSafeValidated(row: Row) {
    row.validated && row.safe
  }

  /** The rows of one root and its four counters. */
  datatype Summary = Summary(rows: seq<Row>, accepted: nat, safe: nat, validated: nat, safeValidated: nat)
  {
    ghost predicate Tallied() {
      && accepted == Count(rows, IsCanonical)
      && safe == Count(rows, IsSafe)
      && validated == Count(rows, IsValidated)
      && safeValidated == Count(rows, IsSafeValidated)
    }

    function Add(row: Row): (s: Summary)
      ensures Tallied() ==> s.Tallied()
    {
      CountStep(rows, row, IsCanonical);
      CountStep(rows, row, IsSafe);
      CountStep(rows, row, IsValidated);
      CountStep(rows, row, IsSafeValidated);
      Summary(
        rows + [row], accepted + (if row.safe then 0 else 1), safe + (if row.safe then 1 else 0),
        validated + (if row.validated then 1 else 0), safeValidated + (if row.validated && row.safe then 1 else 0))
    }
  }

  method SortIds(keys: set<string>) returns (ids: seq<string>)
    ensures ids == SortedIds(keys)
  {
    StringLessStrictTotal();
    ids := SortSet(StringLess, keys);
  }

  /** The loop over the selected candidates. */
  method CollectRows(text: Json -> string, root: Root, t: Tables, ids: seq<string>) returns (result: Option<Summary>)
    requires Loaded(root.artifacts, t)
    requires forall id :: id in ids ==> id in t.accepted || id in t.safe
    requires Named(root.artifacts, AcceptedBy) !! Named(root.artifacts, SafeBy)
    ensures result.Some? <==> forall id :: id in ids ==> HasLineage(root.artifacts, id)
    ensures result.Some? ==> result.value.Tallied() && RowsFor(text, root, ids, result.value.rows)
  {
    hide Loaded, HasLineage, RowOf, RowFrom, RowsFor, Sound, Named, Summary.Tallied;
    var summary := Summary([], 0, 0, 0, 0);
    NothingCollected(text, root, ids[..0]);
    var k := 0;
    while k < |ids|
      invariant 0 <= k <= |ids|
      invariant summary.Tallied() && RowsFor(text, root, ids[..k], summary.rows)
      invariant forall id :: id in ids[..k] ==> HasLineage(root.artifacts, id)
    {
      var id := ids[k];
      PrefixStep(ids, k);
      var lineage := CheckCandidate(root.artifacts, t, id);
      if lineage.None? { return None; }
      var row := RowFrom(text, root.name, id, lineage.value, id in t.safe);
      RowCollected(text, root, t, id, lineage.value);
      RowsForStep(text, root, ids[..k], summary.rows, id, row);
      summary := summary.Add(row);
      k := k + 1;
    }
    assert ids[..k] == ids;
    return Some(summary);
  }

  /** One object root: it fails exactly when the root is not auditable. */
  method AuditRoot(text: Json -> string, root: Root) returns (result: Option<Summary>)
    ensures result.Some? <==> Auditable(root)
    ensures result.Some? ==> result.value.Tallied()
    ensures result.Some? ==> RowsOf(text, root, result.value.rows)
  {
    hide Loaded, Readable, Named, HasLineage, RowsFor, SortedIds, Summary.Tallied;
    if !root.isDirectory { return None; }
    var loaded := Load(root.artifacts);
    if loaded.None? { return None; }
    var t := loaded.value;
    LoadedKeys(root.artifacts, t);
    if !(t.accepted.Keys !! t.safe.Keys) { return None; }
    var ids := SortIds(t.accepted.Keys + t.safe.Keys);
    assert Named(root.artifacts, AcceptedBy) !! Named(root.artifacts, SafeBy);
    assert t.accepted.Keys + t.safe.Keys == Selected(root.artifacts);
    result := CollectRows(text, root, t, ids);
  }

  lemma NothingCollected(text: Json -> string, root: Root, none: seq<string>)
    requires none == []
    ensures Summary([], 0, 0, 0, 0).Tallied() && RowsFor(text, root, none, [])
  {
  }

  lemma RowCollected(text: Json -> string, root: Root, t: Tables, id: string, l: Lineage)
    requires Loaded(root.artifacts, t) && Sound(root.artifacts, id, l)
    ensures HasLineage(root.artifacts, id) && RowOf(text, root, id, RowFrom(text, root.name, id, l, id in t.safe))
  {
    hide Loaded, Sound, RowFrom, Named;
    LoadedKeys(root.artifacts, t);
  }

  lemma RowsForStep(text: Json -> string, root: Root, ids: seq<string>, rows: seq<Row>, id: string, row: Row)
    requires RowsFor(text, root, ids, rows) && RowOf(text, root, id, row)
    ensures RowsFor(text, root, ids + [id], rows + [row])
  {
    hide RowOf;
  }

  lemma LoadedKeys(artifacts: seq<Artifact>, t: Tables)
    requires Loaded(artifacts, t)
    ensures t.accepted.Keys == Named(artifacts, AcceptedBy) && t.safe.Keys == Named(artifacts, SafeBy)
  {
    hide ByCandidate, Indexed, Identities, StoredIn, Named;
    NamedKeys(artifacts, AcceptedBy, t.accepted);
    NamedKeys(artifacts, SafeBy, t.safe);
  }

  /** Every row that reaches the report has passed validation. */
  lemma RowsValidated(text: Json -> string, root: Root, rows: seq<Row>)
    requires RowsOf(text, root, rows)
    ensures forall row :: row in rows ==> row.validated
  {
  }
}
