/** The de-duplicating collector of artifact references in
    `scripts/audit_u8c_incident_manifest.py` (`_artifact_refs`). */
module RefCollector {
  import opened Sequences
  import opened Wrappers
  import opened Json

  /** A reference as the audit keeps it; fields that are absent or null are None. */
  datatype Shape = Shape(id: string, mediaType: string, byteLength: Option<Json>, schemaVersion: Option<Json>)

  function Optional(fields: seq<Field>, name: string): Option<Json> {
    match Get(fields, name)
    case Some(Null) => None
    case other => other
  }

  /** The node has a string `artifact_id` and a string `media_type`. */
  function ShapeOf(value: Json): Option<Shape> {
    if !value.Obj? then None
    else match (Get(value.fields, "artifact_id"), Get(value.fields, "media_type"))
      case (Some(Str(id)), Some(Str(mediaType))) =>
        Some(Shape(id, mediaType, Optional(value.fields, "byte_length"), Optional(value.fields, "schema_version")))
      case _ => None
  }

  /** The outermost reference-shaped nodes, in visiting order; what lies below
      one of them is not looked at. */
  function Outermost(value: Json): seq<Shape> {
    if ShapeOf(value).Some? then [ShapeOf(value).value]
    else match value
      case Obj(fields) => InFields(fields)
      case Arr(items) => InItems(items)
      case _ => []
  }

  function InItems(items: seq<Json>): seq<Shape> {
    if items == [] then [] else Outermost(items[0]) + InItems(items[1..])
  }

  function InFields(fields: seq<Field>): seq<Shape> {
    if fields == [] then [] else Outermost(fields[0].value) + InFields(fields[1..])
  }

  /** Every id is well formed, and equal ids come with equal media types. */
  ghost predicate Clean(refs: seq<Shape>) {
    && (forall i :: 0 <= i < |refs| ==> IsContentHash(refs[i].id))
    && (forall i, j :: 0 <= i < j < |refs| && refs[i].id == refs[j].id ==> refs[i].mediaType == refs[j].mediaType)
  }

  predicate Mentions(refs: seq<Shape>, id: string) {
    exists i :: 0 <= i < |refs| && refs[i].id == id
  }

  /** The references whose id did not occur earlier, in order. */
  function Firsts(refs: seq<Shape>): seq<Shape> {
    if refs == [] then []
    else
      var front, last := refs[..|refs| - 1], refs[|refs| - 1];
      Firsts(front) + if Mentions(front, last.id) then [] else [last]
  }

  /** `r` is the first of `refs` with its id. */
  ghost predicate FirstIn(refs: seq<Shape>, r: Shape) {
    exists k :: 0 <= k < |refs| && refs[k] == r && !Mentions(refs[..k], refs[k].id)
  }

  /** One reference per id, each the first one with that id, in visiting order. */
  lemma {:induction false} FirstsSpec(refs: seq<Shape>)
    ensures forall i, j :: 0 <= i < j < |Firsts(refs)| ==> Firsts(refs)[i].id != Firsts(refs)[j].id
    ensures forall id :: Mentions(Firsts(refs), id) <==> Mentions(refs, id)
    ensures forall i :: 0 <= i < |Firsts(refs)| ==> FirstIn(refs, Firsts(refs)[i])
  {
    if refs != [] {
      var front, last := refs[..|refs| - 1], refs[|refs| - 1];
      var firsts := Firsts(refs);
      FirstsSpec(front);
      assert refs == front + [last];
      forall id
        ensures Mentions(firsts, id) <==> Mentions(refs, id)
      {
        MentionsConcat(front, [last], id);
        MentionsConcat(Firsts(front), [last], id);
        MentionsConcat(Firsts(front), [], id);
      }
      forall i | 0 <= i < |firsts|
        ensures FirstIn(refs, firsts[i])
      {
        if i < |Firsts(front)| {
          var k :| 0 <= k < |front| && front[k] == Firsts(front)[i] && !Mentions(front[..k], front[k].id);
          assert refs[..k] == front[..k] && refs[k] == firsts[i];
        } else {
          assert refs[..|front|] == front && refs[|front|] == last;
        }
      }
      forall i, j | 0 <= i < j < |firsts|
        ensures firsts[i].id != firsts[j].id
      {
        if j == |Firsts(front)| {
          assert Mentions(Firsts(front), firsts[i].id);
        }
      }
    }
  }

  lemma MentionsConcat(a: seq<Shape>, b: seq<Shape>, id: string)
    ensures Mentions(a + b, id) <==> Mentions(a, id) || Mentions(b, id)
  {
    var c := a + b;
    if Mentions(a, id) {
      var i :| 0 <= i < |a| && a[i].id == id;
      assert c[i].id == id;
    }
    if Mentions(b, id) {
      var i :| 0 <= i < |b| && b[i].id == id;
      assert c[|a| + i].id == id;
    }
  }

  lemma CleanPrefix(a: seq<Shape>, b: seq<Shape>)
    requires Clean(a + b)
    ensures Clean(a)
  {
    assert forall i :: 0 <= i < |a| ==> (a + b)[i] == a[i];
  }

  lemma {:induction false} InItemsConcat(a: seq<Json>, b: seq<Json>)
    ensures InItems(a + b) == InItems(a) + InItems(b)
  {
    if a == [] {
      assert a + b == b;
    } else {
      assert (a + b)[1..] == a[1..] + b;
      InItemsConcat(a[1..], b);
    }
  }

  lemma {:induction false} InFieldsConcat(a: seq<Field>, b: seq<Field>)
    ensures InFields(a + b) == InFields(a) + InFields(b)
  {
    if a == [] {
      assert a + b == b;
    } else {
      assert (a + b)[1..] == a[1..] + b;
      InFieldsConcat(a[1..], b);
    }
  }

  /** `found` and `order` summarise the outermost nodes seen so far. */
  ghost predicate Indexed(found: map<string, Shape>, order: seq<Shape>, seen: seq<Shape>) {
    && Clean(seen) && order == Firsts(seen)
    && (forall id :: id in found <==> Mentions(seen, id))
    && (forall i :: 0 <= i < |seen| ==> seen[i].id in found && found[seen[i].id].mediaType == seen[i].mediaType)
  }

  lemma AppendMentions(seen: seq<Shape>, r: Shape)
    ensures forall id :: Mentions(seen + [r], id) <==> Mentions(seen, id) || id == r.id
    ensures Firsts(seen + [r]) == Firsts(seen) + if Mentions(seen, r.id) then [] else [r]
  {
    forall id
      ensures Mentions(seen + [r], id) <==> Mentions(seen, id) || id == r.id
    {
      MentionsConcat(seen, [r], id);
      assert Mentions([r], id) <==> [r][0].id == id;
    }
    assert (seen + [r])[..|seen|] == seen;
  }

  lemma AppendClean(seen: seq<Shape>, r: Shape)
    requires Clean(seen)
    ensures Clean(seen + [r]) <==>
      && IsContentHash(r.id)
      && (forall i :: 0 <= i < |seen| && seen[i].id == r.id ==> seen[i].mediaType == r.mediaType)
  {
    var all := seen + [r];
    assert all[|seen|] == r && forall i :: 0 <= i < |seen| ==> all[i] == seen[i];
  }

  lemma IndexedAppend(found: map<string, Shape>, order: seq<Shape>, seen: seq<Shape>, r: Shape)
    requires Indexed(found, order, seen)
    requires Clean(seen + [r])
    ensures r.id in found ==> Indexed(found, order, seen + [r])
    ensures r.id !in found ==> Indexed(found[r.id := r], order + [r], seen + [r])
  {
    hide Clean, Firsts, Mentions;
    AppendMentions(seen, r);
    AppendClean(seen, r);
    CleanPrefix(seen, [r]);
    if r.id in found {
      SeenMedia(found, order, seen, r.id);
    }
  }

  lemma SeenMedia(found: map<string, Shape>, order: seq<Shape>, seen: seq<Shape>, id: string)
    requires Indexed(found, order, seen) && id in found
    ensures exists i :: 0 <= i < |seen| && seen[i].id == id && seen[i].mediaType == found[id].mediaType
  {
    assert Mentions(seen, id);
  }

  /** The shared state of the visits: the dictionary `found` with its order. */
  class Collector {
    var found: map<string, Shape>
    var order: seq<Shape>
    ghost var seen: seq<Shape>

    ghost predicate Valid()
      reads this
    {
      Indexed(found, order, seen)
    }

    constructor ()
      ensures Valid() && seen == [] && order == []
    {
      found, order, seen := map[], [], [];
    }

    /** One reference-shaped node. */
    method Keep(r: Shape) returns (ok: bool)
      requires Valid()
      modifies this
      ensures ok <==> Clean(old(seen) + [r])
      ensures ok ==> Valid() && seen == old(seen) + [r]
    {
      hide Firsts, Mentions;
      AppendClean(seen, r);
      if !IsContentHash(r.id) {
        return false;
      }
      if r.id in found {
        SeenMedia(found, order, seen, r.id);
        if found[r.id].mediaType != r.mediaType {
          return false;
        }
      } else {
        assert forall i :: 0 <= i < |seen| ==> seen[i].id != r.id;
      }
      IndexedAppend(found, order, seen, r);
      if r.id !in found {
        found := found[r.id := r];
        order := order + [r];
      }
      seen := seen + [r];
      return true;
    }

    /** `visit`: it fails exactly when the nodes visited so far and the outermost
        nodes of `value` do not fit together. */
    method Visit(value: Json) returns (ok: bool)
      requires Valid()
      modifies this
      ensures ok <==> Clean(old(seen) + Outermost(value))
      ensures ok ==> Valid() && seen == old(seen) + Outermost(value)
      decreases value
    {
      hide Valid, Clean;
      var shape := ShapeOf(value);
      if shape.Some? {
        ok := Keep(shape.value);
        return;
      }
      match value {
        case Obj(fields) => ok := VisitFields(fields);
        case Arr(items) => ok := VisitItems(items);
        case _ =>
          assert seen + [] == seen;
          ValidClean();
          ok := true;
      }
    }

    lemma ValidClean()
      requires Valid()
      ensures Clean(seen)
    {
    }

    /** The loop of `visit` over the values of an object. */
    method VisitFields(fields: seq<Field>) returns (ok: bool)
      requires Valid()
      modifies this
      ensures ok <==> Clean(old(seen) + InFields(fields))
      ensures ok ==> Valid() && seen == old(seen) + InFields(fields)
      decreases fields
    {
      hide Valid, Clean, InFields, Outermost;
      ghost var start := seen;
      InFieldsEmpty();
      assert start + [] == start && fields[..0] == [];
      var i := 0;
      while i < |fields|
        invariant 0 <= i <= |fields|
        invariant Valid() && seen == start + InFields(fields[..i])
      {
        ghost var node, rest := Outermost(fields[i].value), InFields(fields[i + 1..]);
        FieldsStep(fields, i);
        Regroup(start, InFields(fields[..i]), node, rest);
        ok := Visit(fields[i].value);
        if !ok {
          NotClean(start + InFields(fields[..i]), node, rest);
          return;
        }
        i := i + 1;
      }
      assert fields[..i] == fields;
      ValidClean();
      ok := true;
    }

    /** The loop of `visit` over the items of a list. */
    method VisitItems(items: seq<Json>) returns (ok: bool)
      requires Valid()
      modifies this
      ensures ok <==> Clean(old(seen) + InItems(items))
      ensures ok ==> Valid() && seen == old(seen) + InItems(items)
      decreases items
    {
      hide Valid, Clean, InItems, Outermost;
      ghost var start := seen;
      InItemsEmpty();
      assert start + [] == start && items[..0] == [];
      var i := 0;
      while i < |items|
        invariant 0 <= i <= |items|
        invariant Valid() && seen == start + InItems(items[..i])
      {
        ghost var node, rest := Outermost(items[i]), InItems(items[i + 1..]);
        ItemsStep(items, i);
        Regroup(start, InItems(items[..i]), node, rest);
        ok := Visit(items[i]);
        if !ok {
          NotClean(start + InItems(items[..i]), node, rest);
          return;
        }
        i := i + 1;
      }
      assert items[..i] == items;
      ValidClean();
      ok := true;
    }
  }

  lemma InFieldsEmpty()
    ensures InFields([]) == []
  {
  }

  lemma InItemsEmpty()
    ensures InItems([]) == []
  {
  }

  lemma Regroup<T>(a: seq<T>, b: seq<T>, c: seq<T>, d: seq<T>)
    ensures a + (b + c) == (a + b) + c
    ensures a + (b + c + d) == (a + b) + c + d
  {
  }

  lemma InFieldsOne(f: Field)
    ensures InFields([f]) == Outermost(f.value)
  {
    assert [f][1..] == [];
    assert Outermost(f.value) + [] == Outermost(f.value);
  }

  lemma InItemsOne(value: Json)
    ensures InItems([value]) == Outermost(value)
  {
    assert [value][1..] == [];
    assert Outermost(value) + [] == Outermost(value);
  }

  lemma FieldsStep(fields: seq<Field>, i: nat)
    requires i < |fields|
    ensures InFields(fields[..i + 1]) == InFields(fields[..i]) + Outermost(fields[i].value)
    ensures InFields(fields) == InFields(fields[..i]) + Outermost(fields[i].value) + InFields(fields[i + 1..])
  {
    hide InFields, Outermost;
    PrefixStep(fields, i);
    InFieldsConcat(fields[..i], [fields[i]]);
    InFieldsOne(fields[i]);
    InFieldsConcat(fields[..i + 1], fields[i + 1..]);
  }

  lemma ItemsStep(items: seq<Json>, i: nat)
    requires i < |items|
    ensures InItems(items[..i + 1]) == InItems(items[..i]) + Outermost(items[i])
    ensures InItems(items) == InItems(items[..i]) + Outermost(items[i]) + InItems(items[i + 1..])
  {
    hide InItems, Outermost;
    PrefixStep(items, i);
    InItemsConcat(items[..i], [items[i]]);
    InItemsOne(items[i]);
    InItemsConcat(items[..i + 1], items[i + 1..]);
  }

  lemma NotClean(a: seq<Shape>, b: seq<Shape>, c: seq<Shape>)
    requires !Clean(a + b)
    ensures !Clean(a + b + c)
  {
    if Clean(a + b + c) {
      CleanPrefix(a + b, c);
    }
  }

  /** `_artifact_refs`. It succeeds exactly on clean documents, and then returns
      the first reference of each distinct id, in visiting order. */
  method ArtifactRefs(value: Json) returns (result: Option<seq<Shape>>)
    ensures result == if Clean(Outermost(value)) then Some(Firsts(Outermost(value))) else None
  {
    var collector := new Collector();
    assert [] + Outermost(value) == Outermost(value);
    var ok := collector.Visit(value);
    return if ok then Some(collector.order) else None;
  }
}
