/** Parsed JSON and the artifact references embedded in it. */
module Json {
  import opened Wrappers

  /** What `json.loads` returns. The names of one object are distinct. */
  datatype Json =
    | Null
    | Bool(b: bool)
    | Int(n: int)
    | Float(x: real)
    | Str(s: string)
    | Arr(items: seq<Json>)
    | Obj(fields: seq<Field>)

  datatype Field = Field(name: string, value: Json)

  /** `ArtifactRef` */
  datatype Ref = Ref(id: string, mediaType: string, byteLength: nat, schemaVersion: string)

  function Get(fields: seq<Field>, name: string): Option<Json> {
    if fields == [] then None
    else if fields[0].name == name then Some(fields[0].value)
    else Get(fields[1..], name)
  }

  predicate IsHex(c: char) {
    '0' <= c <= '9' || 'a' <= c <= 'f'
  }

  /** `^sha256:[0-9a-f]{64}$` */
  predicate IsContentHash(s: string) {
    |s| == 71 && "sha256:" <= s && forall i :: 7 <= i < |s| ==> IsHex(s[i])
  }

  predicate IsNumber(s: string) {
    s != "" && forall i :: 0 <= i < |s| ==> '0' <= s[i] <= '9'
  }

  /** `^[0-9]+\.[0-9]+\.[0-9]+$` */
  predicate IsVersion(s: string) {
    exists i: nat, j: nat | i < j < |s| ::
      s[i] == '.' && s[j] == '.' && IsNumber(s[..i]) && IsNumber(s[i + 1..j]) && IsNumber(s[j + 1..])
  }

  /** `ArtifactRef.model_validate(value, strict=True)` on an object: exactly the
      four fields, each of its type and shape. */
  function ParseRef(fields: seq<Field>): (r: Option<Ref>) {
    match (Get(fields, "artifact_id"), Get(fields, "media_type"),
           Get(fields, "byte_length"), Get(fields, "schema_version"))
    case (Some(Str(id)), Some(Str(mediaType)), Some(Int(n)), Some(Str(version))) =>
      if |fields| == 4 && IsContentHash(id) && 1 <= |mediaType| <= 255 && n >= 0 && IsVersion(version)
      then Some(Ref(id, mediaType, n, version))
      else None
    case _ => None
  }

  /** `_embedded_artifact_refs`: the references at any depth, in document order;
      a reference does not hide what lies below it. */
  function Embedded(value: Json): seq<Ref> {
    match value
    case Obj(fields) =>
      (match ParseRef(fields) case Some(r) => [r] case None => []) + EmbeddedInFields(fields)
    case Arr(items) => EmbeddedInItems(items)
    case _ => []
  }

  function EmbeddedInItems(items: seq<Json>): seq<Ref> {
    if items == [] then [] else Embedded(items[0]) + EmbeddedInItems(items[1..])
  }

  function EmbeddedInFields(fields: seq<Field>): seq<Ref> {
    if fields == [] then [] else Embedded(fields[0].value) + EmbeddedInFields(fields[1..])
  }

  /** `node` occurs in `value`, at whatever depth. */
  ghost predicate Occurs(node: Json, value: Json) {
    || node == value
    || (value.Arr? && exists i :: 0 <= i < |value.items| && Occurs(node, value.items[i]))
    || (value.Obj? && exists i :: 0 <= i < |value.fields| && Occurs(node, value.fields[i].value))
  }

  ghost predicate RefNode(node: Json, r: Ref) {
    node.Obj? && ParseRef(node.fields) == Some(r)
  }

  /** Exactly the references that some node of the document spells out. */
  lemma {:induction false} EmbeddedExactly(value: Json, r: Ref)
    ensures r in Embedded(value) <==> exists node :: Occurs(node, value) && RefNode(node, r)
    decreases value
  {
    hide ParseRef, EmbeddedInFields, EmbeddedInItems;
    match value {
      case Obj(fields) =>
        FieldsExactly(fields, r);
        if RefNode(value, r) {
          assert Occurs(value, value);
        } else if r in EmbeddedInFields(fields) {
          var i :| 0 <= i < |fields| && r in Embedded(fields[i].value);
          EmbeddedExactly(fields[i].value, r);
          var node :| Occurs(node, fields[i].value) && RefNode(node, r);
          assert Occurs(node, value);
        }
        forall node | Occurs(node, value) && RefNode(node, r) && node != value
          ensures r in EmbeddedInFields(fields)
        {
          var i :| 0 <= i < |fields| && Occurs(node, fields[i].value);
          EmbeddedExactly(fields[i].value, r);
        }
      case Arr(items) =>
        ItemsExactly(items, r);
        if r in EmbeddedInItems(items) {
          var i :| 0 <= i < |items| && r in Embedded(items[i]);
          EmbeddedExactly(items[i], r);
          var node :| Occurs(node, items[i]) && RefNode(node, r);
          assert Occurs(node, value);
        }
        forall node | Occurs(node, value) && RefNode(node, r)
          ensures r in EmbeddedInItems(items)
        {
          var i :| 0 <= i < |items| && Occurs(node, items[i]);
          EmbeddedExactly(items[i], r);
        }
      case _ =>
    }
  }

  lemma {:induction false} ItemsExactly(items: seq<Json>, r: Ref)
    ensures r in EmbeddedInItems(items) <==> exists i :: 0 <= i < |items| && r in Embedded(items[i])
  {
    if items != [] {
      ItemsExactly(items[1..], r);
      if r in EmbeddedInItems(items[1..]) {
        var i :| 0 <= i < |items[1..]| && r in Embedded(items[1..][i]);
        assert r in Embedded(items[i + 1]);
      }
      forall i | 0 < i < |items| && r in Embedded(items[i])
        ensures r in EmbeddedInItems(items[1..])
      {
        assert items[1..][i - 1] == items[i];
      }
    }
  }

  lemma {:induction false} FieldsExactly(fields: seq<Field>, r: Ref)
    ensures r in EmbeddedInFields(fields) <==> exists i :: 0 <= i < |fields| && r in Embedded(fields[i].value)
  {
    if fields != [] {
      FieldsExactly(fields[1..], r);
      if r in EmbeddedInFields(fields[1..]) {
        var i :| 0 <= i < |fields[1..]| && r in Embedded(fields[1..][i].value);
        assert r in Embedded(fields[i + 1].value);
      }
      forall i | 0 < i < |fields| && r in Embedded(fields[i].value)
        ensures r in EmbeddedInFields(fields[1..])
      {
        assert fields[1..][i - 1] == fields[i];
      }
    }
  }
}
