/** What the keys and columns of the census say in terms of the documents: when two
    findings share a boundary or a problem, when two candidates propose the same
    action, and what a row reads (`scripts/audit_u8c_action_corpus.py`). */
module CensusRows {
  import opened Wrappers
  import opened Json
  import opened Counting
  import opened CensusRoot
  import opened CensusLineage
  import opened CensusReport

  // --------------------------------------------------------------- single values

  predicate Numeric(value: Json) {
    value.Bool? || value.Int? || value.Float?
  }

  function NumberOf(value: Json): real
    requires Numeric(value)
  {
    match value
    case Bool(b) => if b then 1.0 else 0.0
    case Int(n) => n as real
    case Float(x) => x
  }

  /** Two values are the same key exactly when they are equal, or numbers or truth
      values of one magnitude. */
  lemma SameMeans(a: Json, b: Json)
    ensures Same(a, b) <==> a == b || (Numeric(a) && Numeric(b) && NumberOf(a) == NumberOf(b))
  {
    WholeKey(a);
    WholeKey(b);
  }

  /** A number's key is the integer that it equals, if it equals one. */
  lemma WholeKey(a: Json)
    ensures Numeric(a) ==> Numeric(Key(a)) && NumberOf(Key(a)) == NumberOf(a) && !Key(a).Bool?
    ensures Numeric(a) && Key(a).Float? ==> NumberOf(a).Floor as real != NumberOf(a)
    ensures !Numeric(a) ==> Key(a) == a
  {
  }

  // -------------------------------------------------------------------- boundary

  ghost predicate SameAt(f: Payload, g: Payload, name: string) {
    Same(At(f, name), At(g, name))
  }

  /** Every id occurs equally often. */
  ghost predicate EquallyOften(a: seq<string>, b: seq<string>) {
    forall id :: multiset(a)[id] == multiset(b)[id]
  }

  /** Two findings have one boundary exactly when they agree in classification,
      access scope, visible chapter, the three parts of the policy and the target,
      and list every source artifact equally often. */
  lemma BoundaryMeans(f: Payload, g: Payload)
    ensures BoundaryOf(f) == BoundaryOf(g) <==>
      && SameAt(f, g, "classification")
      && SameAt(f, g, "access_scope")
      && SameAt(Under(Under(f, "information_boundary"), "maximum_visible_position"),
                Under(Under(g, "information_boundary"), "maximum_visible_position"), "chapter_index")
      && SameAt(Under(Under(f, "information_boundary"), "policy_ref"),
                Under(Under(g, "information_boundary"), "policy_ref"), "contract_id")
      && SameAt(Under(Under(f, "information_boundary"), "policy_ref"),
                Under(Under(g, "information_boundary"), "policy_ref"), "version")
      && SameAt(Under(Under(f, "information_boundary"), "policy_ref"),
                Under(Under(g, "information_boundary"), "policy_ref"), "content_hash")
      && SameAt(f, g, "target_root_kind")
      && EquallyOften(RefIds(At(f, "source_artifact_refs")), RefIds(At(g, "source_artifact_refs")))
  {
    hide At, Under, Key, RefIds;
    assert EquallyOften(RefIds(At(f, "source_artifact_refs")), RefIds(At(g, "source_artifact_refs"))) <==>
      multiset(RefIds(At(f, "source_artifact_refs"))) == multiset(RefIds(At(g, "source_artifact_refs")));
  }

  /** The boundary can be a dictionary key exactly when none of those values is a
      list or an object. */
  lemma IsKeyMeans(f: Payload)
    ensures IsKey(BoundaryOf(f)) <==>
      && Hashable(At(f, "classification")) && Hashable(At(f, "access_scope")) && Hashable(At(f, "target_root_kind"))
      && Hashable(At(Under(Under(f, "information_boundary"), "maximum_visible_position"), "chapter_index"))
      && Hashable(At(Under(Under(f, "information_boundary"), "policy_ref"), "contract_id"))
      && Hashable(At(Under(Under(f, "information_boundary"), "policy_ref"), "version"))
      && Hashable(At(Under(Under(f, "information_boundary"), "policy_ref"), "content_hash"))
  {
    hide At, Under, RefIds;
  }

  // --------------------------------------------------------------------- problem

  /** A facet suffix comes from some facet id of the finding, and every id gives one. */
  lemma FacetsMean(f: Payload, suffix: string)
    ensures suffix in FacetSuffixes(f) <==>
      exists id :: Suffix(id) == suffix && At(f, "mandatory_facet_ids").Arr? && Str(id) in At(f, "mandatory_facet_ids").items
  {
    hide At, Suffix;
    if At(f, "mandatory_facet_ids").Arr? {
      var items := At(f, "mandatory_facet_ids").items;
      forall id | Str(id) in items
        ensures Suffix(id) in FacetSuffixes(f)
      {
        var i :| 0 <= i < |items| && items[i] == Str(id);
      }
      if suffix in FacetSuffixes(f) {
        var i :| 0 <= i < |items| && items[i].Str? && Suffix(items[i].s) == suffix;
        assert items[i] in items && items[i] == Str(items[i].s);
      }
    }
  }

  /** The finding names this text, and it is not empty. */
  ghost predicate Says(f: Payload, name: string, text: string) {
    At(f, name) == Str(text) && text != ""
  }

  /** A finding has a problem identity exactly when need, query and question are
      given and it has a facet; two identities are the same exactly when all agree. */
  lemma ProblemMeans(f: Payload, g: Payload)
    ensures ProblemIdentity(f).Some? <==>
      && (exists need :: Says(f, "need_id", need)) && (exists query :: Says(f, "need_query", query))
      && (exists question :: Says(f, "semantic_question", question)) && FacetSuffixes(f) != {}
    ensures ProblemIdentity(f).Some? && ProblemIdentity(g).Some? ==>
      (ProblemIdentity(f) == ProblemIdentity(g) <==>
        && At(f, "need_id") == At(g, "need_id") && At(f, "need_query") == At(g, "need_query")
        && At(f, "semantic_question") == At(g, "semantic_question") && FacetSuffixes(f) == FacetSuffixes(g))
  {
    hide At, FacetSuffixes;
    if At(f, "need_id").Str? && At(f, "need_query").Str? && At(f, "semantic_question").Str? {
      assert At(f, "need_id").s != "" ==> Says(f, "need_id", At(f, "need_id").s);
      assert At(f, "need_query").s != "" ==> Says(f, "need_query", At(f, "need_query").s);
      assert At(f, "semantic_question").s != "" ==> Says(f, "semantic_question", At(f, "semantic_question").s);
    }
  }

  // ---------------------------------------------------------------------- action

  /** The objects of a list, in order; anything that is not a list has none. */
  function Objects(value: Json): seq<Payload> {
    match value
    case Arr(items) => ObjectsOf(items)
    case _ => []
  }

  function ObjectsOf(items: seq<Json>): seq<Payload> {
    if items == [] then []
    else (if items[0].Obj? then [items[0].fields] else []) + ObjectsOf(items[1..])
  }

  /** The operation carries these five values. */
  ghost predicate Carries(o: Operation, operation: Payload) {
    var record := Under(Under(operation, "payload"), "record");
    && o.operation == At(operation, "operation")
    && o.recordType == At(record, "record_type")
    && o.predicateName == At(record, "predicate")
    && o.subject == At(record, "subject_id")
    && o.relation == At(record, "relation_type")
  }

  lemma {:induction false} OperationsMean(items: seq<Json>)
    ensures var objects := ObjectsOf(items);
      |OperationsOf(items)| == |objects| && forall i :: 0 <= i < |objects| ==> Carries(OperationsOf(items)[i], objects[i])
  {
    hide At, Under;
    if items != [] {
      OperationsMean(items[1..]);
    }
  }

  /** How often a root kind is intended. */
  function Intends(kind: string): Payload -> bool {
    (intent: Payload) => At(intent, "root_kind") == Str(kind)
  }

  lemma {:induction false} RootKindsMean(items: seq<Json>, kind: string)
    ensures RootKindsOf(items)[kind] == Count(ObjectsOf(items), Intends(kind))
  {
    hide At, Count;
    if items == [] {
      NothingCounts(Intends(kind));
    } else {
      RootKindsMean(items[1..], kind);
      if !items[0].Obj? {
        assert ObjectsOf(items) == ObjectsOf(items[1..]);
      } else {
        CountConcat([items[0].fields], ObjectsOf(items[1..]), Intends(kind));
        OneCounts(items[0].fields, Intends(kind));
      }
    }
  }

  lemma NothingCounts(p: Payload -> bool)
    ensures Count([], p) == 0
  {
  }

  lemma OneCounts(x: Payload, p: Payload -> bool)
    ensures Count([x], p) == if p(x) then 1 else 0
  {
    assert [x][..0] == [];
  }

  /** The operations a candidate was observed to make, and its intents. */
  function Operations(candidate: Payload): seq<Payload> {
    Objects(At(Under(candidate, "observed_changes"), "operations"))
  }

  function Intents(candidate: Payload): seq<Payload> {
    Objects(At(candidate, "root_update_intents"))
  }

  lemma ActionHolds(c: Payload)
    ensures |SemanticAction(c).operations| == |Operations(c)|
    ensures forall i :: 0 <= i < |Operations(c)| ==> Carries(SemanticAction(c).operations[i], Operations(c)[i])
    ensures forall kind :: SemanticAction(c).rootKinds[kind] == Count(Intents(c), Intends(kind))
  {
    hide At, Under, Count, Carries, OperationsOf, RootKindsOf, ObjectsOf;
    var observed, intents := At(Under(c, "observed_changes"), "operations"), At(c, "root_update_intents");
    if observed.Arr? {
      OperationsMean(observed.items);
    }
    forall kind
      ensures SemanticAction(c).rootKinds[kind] == Count(Intents(c), Intends(kind))
    {
      if intents.Arr? {
        RootKindsMean(intents.items, kind);
      } else {
        NothingCounts(Intends(kind));
      }
    }
  }

  /** The two operations agree in what is compared of them. */
  ghost predicate Alike(a: Payload, b: Payload) {
    var r, q := Under(Under(a, "payload"), "record"), Under(Under(b, "payload"), "record");
    && At(a, "operation") == At(b, "operation") && At(r, "record_type") == At(q, "record_type")
    && At(r, "predicate") == At(q, "predicate") && At(r, "subject_id") == At(q, "subject_id")
    && At(r, "relation_type") == At(q, "relation_type")
  }

  /** Two candidates propose the same action exactly when they make alike operations
      in the same order and intend every root kind equally often. */
  lemma ActionMeans(c: Payload, d: Payload)
    ensures SemanticAction(c) == SemanticAction(d) <==>
      && |Operations(c)| == |Operations(d)|
      && (forall i :: 0 <= i < |Operations(c)| ==> Alike(Operations(c)[i], Operations(d)[i]))
      && forall kind :: Count(Intents(c), Intends(kind)) == Count(Intents(d), Intends(kind))
  {
    hide At, Under, Count, SemanticAction, Operations, Intents;
    ActionHolds(c);
    ActionHolds(d);
    var a, b := SemanticAction(c), SemanticAction(d);
    if |Operations(c)| == |Operations(d)| {
      forall i | 0 <= i < |Operations(c)|
        ensures a.operations[i] == b.operations[i] <==> Alike(Operations(c)[i], Operations(d)[i])
      {
        assert Carries(a.operations[i], Operations(c)[i]) && Carries(b.operations[i], Operations(d)[i]);
      }
    }
    assert a.rootKinds == b.rootKinds <==> forall kind :: a.rootKinds[kind] == b.rootKinds[kind];
  }

  // ------------------------------------------------------------------------ rows

  /** What a row reads from the documents of its candidate. */
  ghost predicate Reads(text: Json -> string, root: Root, id: string, row: Row, l: Lineage) {
    && row.root == root.name && row.candidateId == id && row.findingId == l.findingId
    && row.owner == text(At(l.finding, "repair_owner"))
    && row.boundary == BoundaryOf(l.finding) && row.facets == FacetSuffixes(l.finding)
    && row.problem == ProblemIdentity(l.finding) && row.action == SemanticAction(l.candidate)
    && row.validated && (row.safe <==> exists w :: w in WorkflowsOf(root.artifacts) && SafeBy(w) == Some(id))
  }

  lemma RowReads(text: Json -> string, root: Root, id: string, row: Row)
    requires RowOf(text, root, id, row)
    ensures exists l :: Sound(root.artifacts, id, l) && Reads(text, root, id, row, l)
  {
    hide Bound, WorkflowsAgree, BoundaryOf, FacetSuffixes, ProblemIdentity, SemanticAction, At, SafeBy;
    var l :| Sound(root.artifacts, id, l) && row == RowFrom(text, root.name, id, l, id in Named(root.artifacts, SafeBy));
    assert id in Named(root.artifacts, SafeBy) <==> exists w :: w in WorkflowsOf(root.artifacts) && SafeBy(w) == Some(id);
    assert Reads(text, root, id, row, l);
  }

  /** Two rows are in one group exactly when their findings agree in classification,
      scope, visible chapter, policy and target, and list the same sources. */
  lemma OneGroupExactly(text: Json -> string, rows: seq<Row>, r: Row, s: Row, f: Payload, g: Payload)
    requires r in rows && s in rows && r.boundary == BoundaryOf(f) && s.boundary == BoundaryOf(g)
    ensures s in GroupAt(rows, r.boundary) <==>
      && SameAt(f, g, "classification")
      && SameAt(f, g, "access_scope")
      && SameAt(Under(Under(f, "information_boundary"), "maximum_visible_position"),
                Under(Under(g, "information_boundary"), "maximum_visible_position"), "chapter_index")
      && SameAt(Under(Under(f, "information_boundary"), "policy_ref"),
                Under(Under(g, "information_boundary"), "policy_ref"), "contract_id")
      && SameAt(Under(Under(f, "information_boundary"), "policy_ref"),
                Under(Under(g, "information_boundary"), "policy_ref"), "version")
      && SameAt(Under(Under(f, "information_boundary"), "policy_ref"),
                Under(Under(g, "information_boundary"), "policy_ref"), "content_hash")
      && SameAt(f, g, "target_root_kind")
      && EquallyOften(RefIds(At(f, "source_artifact_refs")), RefIds(At(g, "source_artifact_refs")))
  {
    hide SameAt, EquallyOften, BoundaryOf, At, Under, RefIds, GroupAt;
    GroupMembers(rows, r.boundary);
    BoundaryMeans(f, g);
  }

  /** Whom a workflow names: the accepted candidate, and for a safe action the
      terminal one. */
  lemma NamesMean(w: Payload, id: string)
    ensures AcceptedBy(w) == Some(id) <==> At(w, "accepted_candidate_id") == Str(id)
    ensures SafeBy(w) == Some(id) <==> At(w, "safe_action_accepted") == Bool(true) && At(w, "terminal_candidate_id") == Str(id)
  {
    hide At;
  }

  /** The workflows of a root are the payloads of its workflow artifacts. */
  lemma {:induction false} WorkflowsMean(artifacts: seq<Artifact>, w: Payload)
    ensures w in WorkflowsOf(artifacts) <==> exists a :: a in artifacts && a.media == WorkflowMedia && a.payload == w
  {
    if artifacts != [] {
      WorkflowsMean(artifacts[1..], w);
      assert artifacts == [artifacts[0]] + artifacts[1..];
    }
  }

  /** An id occurs in a text exactly when it stands somewhere in it. */
  lemma InsideMeans(part: string, whole: string)
    ensures Inside(part, whole) <==> exists before: string, after: string :: whole == before + part + after
  {
    if k: nat :| k <= |whole| && part <= whole[k..] {
      assert whole == whole[..k] + part + whole[k + |part|..];
    }
    if before: string, after: string :| whole == before + part + after {
      assert whole[|before|..] == part + after;
    }
  }
}
