/** One object root of the U8-C census (`scripts/audit_u8c_action_corpus.py`):
    which candidates it selects, what lineage they must have, and the row each
    one contributes. */
module CensusRoot {
  import opened Sequences
  import opened Wrappers
  import opened Json

  datatype Media = FindingMedia | RevisionMedia | CandidateMedia | ValidationMedia | WorkflowMedia

  type Payload = seq<Field>

  /** A verified artifact; artifacts of other media types are never loaded. */
  datatype Artifact = Artifact(id: string, media: Media, payload: Payload)

  /** Distinct ids: an id is the content hash. */
  datatype Root = Root(name: string, isDirectory: bool, artifacts: seq<Artifact>)

  const CANDIDATE_TYPE := "application/vnd.novel-agent.memory-write-candidate+json"
  const SAFE_ACTION_CODE := "VALIDATION_ONLY_SAFE_ACTION"

  /** `payload.get(name)`: a missing field reads as null. */
  function At(payload: Payload, name: string): Json {
    match Get(payload, name)
    case Some(v) => v
    case None => Null
  }

  /** The fields of a nested object, none when it is not an object. */
  function Under(payload: Payload, name: string): Payload {
    match At(payload, name)
    case Obj(fields) => fields
    case _ => []
  }

  /** Python's `==` and hashing do not tell a boolean, an integer and a float of
      the same value apart. */
  function Key(value: Json): Json {
    match value
    case Bool(b) => Int(if b then 1 else 0)
    case Float(x) => if x.Floor as real == x then Int(x.Floor) else value
    case _ => value
  }

  predicate Same(a: Json, b: Json) {
    Key(a) == Key(b)
  }

  /** A list or an object cannot be part of a dictionary key. */
  predicate Hashable(value: Json) {
    !value.Arr? && !value.Obj?
  }

  // ---------------------------------------------------------------- what rows say

  /** `_artifact_ref_ids` */
  function RefIds(value: Json): seq<string> {
    match value
    case Obj(fields) => (match At(fields, "artifact_id") case Str(s) => [s] case _ => [])
    case Arr(items) => RefIdsOf(items)
    case _ => []
  }

  function RefIdsOf(items: seq<Json>): seq<string> {
    if items == [] then [] else RefIds(items[0]) + RefIdsOf(items[1..])
  }

  ghost predicate HasId(node: Json, id: string) {
    node.Obj? && At(node.fields, "artifact_id") == Str(id)
  }

  /** The node is reached through lists only. */
  ghost predicate Listed(node: Json, value: Json) {
    || node == value
    || (value.Arr? && exists i :: 0 <= i < |value.items| && Listed(node, value.items[i]))
  }

  /** Exactly the ids of the objects reached through lists; what such an object
      contains is not looked at. */
  lemma {:induction false} RefIdsExactly(value: Json, id: string)
    ensures id in RefIds(value) <==> exists node :: Listed(node, value) && HasId(node, id)
    decreases value
  {
    hide At;
    match value {
      case Obj(fields) =>
        assert Listed(value, value);
      case Arr(items) =>
        RefIdsOfExactly(items, id);
        if i :| 0 <= i < |items| && id in RefIds(items[i]) {
          RefIdsExactly(items[i], id);
          var node :| Listed(node, items[i]) && HasId(node, id);
          assert Listed(node, value);
        }
        if node :| Listed(node, value) && HasId(node, id) {
          var i :| 0 <= i < |items| && Listed(node, items[i]);
          RefIdsExactly(items[i], id);
        }
      case _ =>
    }
  }

  lemma {:induction false} RefIdsOfExactly(items: seq<Json>, id: string)
    ensures id in RefIdsOf(items) <==> exists i :: 0 <= i < |items| && id in RefIds(items[i])
  {
    if items != [] {
      RefIdsOfExactly(items[1..], id);
      if i :| 0 <= i < |items[1..]| && id in RefIds(items[1..][i]) {
        assert id in RefIds(items[i + 1]);
      }
      forall i | 0 < i < |items| && id in RefIds(items[i])
        ensures id in RefIdsOf(items[1..])
      {
        assert items[1..][i - 1] == items[i];
      }
    }
  }

  /** `_boundary`; the sorted tuple of source ids is kept as a multiset. */
  datatype Boundary = Boundary(
    classification: Json, accessScope: Json, chapter: Json, contract: Json, version: Json, contentHash: Json,
    sources: multiset<string>, rootKind: Json)

  function BoundaryOf(finding: Payload): Boundary {
    var visible := Under(finding, "information_boundary");
    var maximum := Under(visible, "maximum_visible_position");
    var policy := Under(visible, "policy_ref");
    Boundary(
      Key(At(finding, "classification")), Key(At(finding, "access_scope")), Key(At(maximum, "chapter_index")),
      Key(At(policy, "contract_id")), Key(At(policy, "version")), Key(At(policy, "content_hash")),
      multiset(RefIds(At(finding, "source_artifact_refs"))), Key(At(finding, "target_root_kind")))
  }

  predicate IsKey(b: Boundary) {
    && Hashable(b.classification) && Hashable(b.accessScope) && Hashable(b.chapter)
    && Hashable(b.contract) && Hashable(b.version) && Hashable(b.contentHash) && Hashable(b.rootKind)
  }

  /** What follows the last dot. */
  function Suffix(s: string): (r: string)
    ensures '.' !in r
    ensures r == s || exists k: nat :: k < |s| && s[k] == '.' && r == s[k + 1..]
  {
    if '.' !in s then s
    else if s[0] == '.' && '.' !in s[1..] then s[1..]
    else
      var r := Suffix(s[1..]);
      assert r == s[1..] || exists k: nat :: k < |s[1..]| && s[1..][k] == '.' && r == s[1..][k + 1..];
      assert forall k: nat :: k < |s[1..]| ==> s[1..][k] == s[k + 1] && s[1..][k + 1..] == s[k + 2..];
      r
  }

  /** `_facet_suffixes`; the sorted tuple of a set is kept as the set. */
  function FacetSuffixes(finding: Payload): set<string> {
    match At(finding, "mandatory_facet_ids")
    case Arr(items) => set i | 0 <= i < |items| && items[i].Str? :: Suffix(items[i].s)
    case _ => {}
  }

  datatype Problem = Problem(need: string, query: string, question: string, facets: set<string>)

  /** `_problem_identity` */
  function ProblemIdentity(finding: Payload): Option<Problem> {
    match (At(finding, "need_id"), At(finding, "need_query"), At(finding, "semantic_question"))
    case (Str(need), Str(query), Str(question)) =>
      if need != "" && query != "" && question != "" && FacetSuffixes(finding) != {}
      then Some(Problem(need, query, question, FacetSuffixes(finding)))
      else None
    case _ => None
  }

  datatype Operation = Operation(operation: Json, recordType: Json, predicateName: Json, subject: Json, relation: Json)

  /** `_semantic_action`; the sorted root kinds are kept as a multiset. */
  datatype Action = Action(operations: seq<Operation>, rootKinds: multiset<string>)

  function OperationsOf(items: seq<Json>): seq<Operation> {
    if items == [] then []
    else (match items[0]
          case Obj(fields) =>
            var record := Under(Under(fields, "payload"), "record");
            [Operation(At(fields, "operation"), At(record, "record_type"), At(record, "predicate"),
                       At(record, "subject_id"), At(record, "relation_type"))]
          case _ => []) + OperationsOf(items[1..])
  }

  function RootKindsOf(items: seq<Json>): multiset<string> {
    if items == [] then multiset{}
    else (match items[0]
          case Obj(fields) => (match At(fields, "root_kind") case Str(s) => multiset{s} case _ => multiset{})
          case _ => multiset{}) + RootKindsOf(items[1..])
  }

  function SemanticAction(candidate: Payload): Action {
    Action(
      match At(Under(candidate, "observed_changes"), "operations") { case Arr(items) => OperationsOf(items) case _ => [] },
      match At(candidate, "root_update_intents") { case Arr(items) => RootKindsOf(items) case _ => multiset{} })
  }

  datatype Row = Row(
    root: string, boundary: Boundary, findingId: string, candidateId: string, owner: string,
    facets: set<string>, problem: Option<Problem>, action: Action, validated: bool, safe: bool)

  predicate IsSafe(row: Row) {
    row.safe
  }

  // --------------------------------------------------------- unique logical ids

  /** The artifact declares this logical identity. */
  predicate Declares(a: Artifact, media: Media, field: string, identity: string) {
    a.media == media && At(a.payload, field) == Str(identity)
  }

  /** The payload that declares an identity, the last one if several do. */
  function Declared(artifacts: seq<Artifact>, media: Media, field: string, identity: string): Option<Payload> {
    if artifacts == [] then None
    else
      var front, last := artifacts[..|artifacts| - 1], artifacts[|artifacts| - 1];
      if Declares(last, media, field, identity) then Some(last.payload) else Declared(front, media, field, identity)
  }

  /** The declared identities in the order of the artifacts. */
  function Identities(artifacts: seq<Artifact>, media: Media, field: string): seq<string> {
    if artifacts == [] then []
    else
      var front, last := artifacts[..|artifacts| - 1], artifacts[|artifacts| - 1];
      var declared := At(last.payload, field);
      Identities(front, media, field) + if last.media == media && declared.Str? then [declared.s] else []
  }

  ghost predicate Unambiguous(artifacts: seq<Artifact>, media: Media, field: string) {
    forall i: nat, j: nat, identity :: i < j < |artifacts| ==>
      !(Declares(artifacts[i], media, field, identity) && Declares(artifacts[j], media, field, identity))
  }

  lemma {:induction false} DeclaredSome(artifacts: seq<Artifact>, media: Media, field: string, identity: string)
    ensures Declared(artifacts, media, field, identity).Some? <==>
      exists i: nat :: i < |artifacts| && Declares(artifacts[i], media, field, identity)
  {
    if artifacts != [] {
      var n := |artifacts| - 1;
      DeclaredSome(artifacts[..n], media, field, identity);
      if Declared(artifacts[..n], media, field, identity).Some? {
        var i: nat :| i < n && Declares(artifacts[..n][i], media, field, identity);
        assert Declares(artifacts[i], media, field, identity);
      }
      forall i: nat | i < n && Declares(artifacts[i], media, field, identity)
        ensures Declared(artifacts[..n], media, field, identity).Some?
      {
        assert artifacts[..n][i] == artifacts[i];
      }
    }
  }

  /** Without a collision the declared payload does not depend on the order. */
  lemma {:induction false} DeclaredExactly(artifacts: seq<Artifact>, media: Media, field: string, a: Artifact, identity: string)
    requires Unambiguous(artifacts, media, field)
    requires a in artifacts && Declares(a, media, field, identity)
    ensures Declared(artifacts, media, field, identity) == Some(a.payload)
  {
    var i: nat :| i < |artifacts| && artifacts[i] == a;
    var n := |artifacts| - 1;
    if i < n {
      assert !Declares(artifacts[n], media, field, identity);
      assert artifacts[..n][i] == a;
      DeclaredExactly(artifacts[..n], media, field, a, identity);
    }
  }

  ghost predicate Indexed(artifacts: seq<Artifact>, media: Media, field: string, indexed: map<string, Payload>) {
    forall id ::
      && (id in indexed <==> Declared(artifacts, media, field, id).Some?)
      && (id in indexed ==> Declared(artifacts, media, field, id) == Some(indexed[id]))
  }

  lemma IndexStep(artifacts: seq<Artifact>, a: Artifact, media: Media, field: string, indexed: map<string, Payload>)
    requires Indexed(artifacts, media, field, indexed) && Unambiguous(artifacts, media, field)
    ensures !(a.media == media && At(a.payload, field).Str?) ==>
      Indexed(artifacts + [a], media, field, indexed) && Unambiguous(artifacts + [a], media, field)
    ensures a.media == media && At(a.payload, field).Str? && At(a.payload, field).s !in indexed ==>
      Indexed(artifacts + [a], media, field, indexed[At(a.payload, field).s := a.payload]) &&
      Unambiguous(artifacts + [a], media, field)
    ensures a.media == media && At(a.payload, field).Str? && At(a.payload, field).s in indexed ==>
      !Unambiguous(artifacts + [a], media, field)
  {
    hide At;
    var longer := artifacts + [a];
    assert longer[..|longer| - 1] == artifacts;
    if a.media == media && At(a.payload, field).Str? {
      DeclaredSome(artifacts, media, field, At(a.payload, field).s);
      if At(a.payload, field).s in indexed {
        var i: nat :| i < |artifacts| && Declares(artifacts[i], media, field, At(a.payload, field).s);
        assert Declares(longer[i], media, field, At(a.payload, field).s);
        assert Declares(longer[|artifacts|], media, field, At(a.payload, field).s);
      }
    }
  }

  lemma UnambiguousPrefix(artifacts: seq<Artifact>, n: nat, media: Media, field: string)
    requires n <= |artifacts| && Unambiguous(artifacts, media, field)
    ensures Unambiguous(artifacts[..n], media, field)
  {
  }

  /** `_index_unique_payloads`: it fails exactly when two artifacts declare the
      same identity, so the choice never depends on their order. `order` lists
      the keys as the dictionary does. */
  method IndexUnique(artifacts: seq<Artifact>, media: Media, field: string)
    returns (result: Option<map<string, Payload>>, order: seq<string>)
    ensures result.Some? <==> Unambiguous(artifacts, media, field)
    ensures result.Some? ==> Indexed(artifacts, media, field, result.value)
    ensures result.Some? ==> order == Identities(artifacts, media, field)
  {
    hide Indexed, Unambiguous, At;
    var indexed: map<string, Payload> := map[];
    order := [];
    assert Indexed(artifacts[..0], media, field, indexed) && Unambiguous(artifacts[..0], media, field) by {
      IndexEmpty(artifacts[..0], media, field);
    }
    var n := 0;
    while n < |artifacts|
      invariant 0 <= n <= |artifacts|
      invariant Indexed(artifacts[..n], media, field, indexed) && Unambiguous(artifacts[..n], media, field)
      invariant order == Identities(artifacts[..n], media, field)
    {
      var a := artifacts[n];
      PrefixStep(artifacts, n);
      IndexStep(artifacts[..n], a, media, field, indexed);
      var declared := At(a.payload, field);
      if a.media == media && declared.Str? {
        if declared.s in indexed {
          if Unambiguous(artifacts, media, field) {
            UnambiguousPrefix(artifacts, n + 1, media, field);
          }
          return None, [];
        }
        indexed := indexed[declared.s := a.payload];
        order := order + [declared.s];
      }
      n := n + 1;
    }
    assert artifacts[..n] == artifacts;
    return Some(indexed), order;
  }

  lemma IndexEmpty(none: seq<Artifact>, media: Media, field: string)
    requires none == []
    ensures Indexed(none, media, field, map[]) && Unambiguous(none, media, field)
  {
  }
}
