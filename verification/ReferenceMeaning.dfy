/** What the two readers of references take for one, in the names and values that
    stand in the document: `_embedded_artifact_refs` in
    `scripts/run_u4l2_plan_candidate.py`, and `_artifact_refs` in
    `scripts/audit_u8c_incident_manifest.py`. */
module ReferenceMeaning {
  import opened Wrappers
  import opened Json
  import RefCollector

  // ------------------------------------------------------------ values by name

  /** The value stands under the name, and nothing before it does. */
  ghost predicate StandsUnder(fields: seq<Field>, name: string, value: Json, i: nat) {
    i < |fields| && fields[i] == Field(name, value) && forall j :: 0 <= j < i ==> fields[j].name != name
  }

  lemma {:induction false} GetExactly(fields: seq<Field>, name: string, value: Json)
    ensures Get(fields, name) == Some(value) <==> exists i: nat :: StandsUnder(fields, name, value, i)
  {
    if fields != [] {
      if fields[0].name == name {
        assert fields[0].value == value ==> StandsUnder(fields, name, value, 0);
      } else {
        GetExactly(fields[1..], name, value);
        if i: nat :| StandsUnder(fields[1..], name, value, i) {
          assert StandsUnder(fields, name, value, i + 1);
        }
        if i: nat :| StandsUnder(fields, name, value, i) {
          assert StandsUnder(fields[1..], name, value, i - 1);
        }
      }
    }
  }

  lemma GetIn(fields: seq<Field>, name: string, value: Json)
    requires Get(fields, name) == Some(value)
    ensures Field(name, value) in fields
  {
    GetExactly(fields, name, value);
    var i: nat :| StandsUnder(fields, name, value, i);
    assert fields[i] in fields;
  }

  lemma {:induction false} GetOnly(fields: seq<Field>, name: string, value: Json)
    requires Field(name, value) in fields && forall f :: f in fields && f.name == name ==> f.value == value
    ensures Get(fields, name) == Some(value)
  {
    if fields[0].name != name {
      assert fields == [fields[0]] + fields[1..];
      GetOnly(fields[1..], name, value);
    } else {
      assert fields[0] in fields;
    }
  }

  // ------------------------------------------------------- embedded references

  /** The four fields that spell a reference out, in any order. */
  ghost function Spelled(r: Ref): multiset<Field> {
    multiset{
      Field("artifact_id", Str(r.id)), Field("media_type", Str(r.mediaType)),
      Field("byte_length", Int(r.byteLength)), Field("schema_version", Str(r.schemaVersion))}
  }

  /** `sha256:` and 64 hexadecimal digits, a media type of 1 to 255 characters, and
      three numbers with dots between them. */
  ghost predicate WellFormed(r: Ref) {
    && (exists digits: string :: r.id == "sha256:" + digits && |digits| == 64 &&
          forall c :: c in digits ==> c in "0123456789abcdef")
    && 1 <= |r.mediaType| <= 255
    && exists a, b, c :: Joined(r.schemaVersion, a, b, c)
  }

  lemma ContentHashMeans(s: string)
    ensures IsContentHash(s) <==>
      exists digits: string :: s == "sha256:" + digits && |digits| == 64 && forall c :: c in digits ==> c in "0123456789abcdef"
  {
    HexDigits();
    if IsContentHash(s) {
      var digits := s[7..];
      assert s == s[..7] + digits && s[..7] == "sha256:";
      assert forall i :: 0 <= i < |digits| ==> digits[i] == s[i + 7];
    }
    if digits: string :| s == "sha256:" + digits && |digits| == 64 && forall c :: c in digits ==> c in "0123456789abcdef" {
      forall i | 7 <= i < |s|
        ensures IsHex(s[i])
      {
        assert s[i] == digits[i - 7];
      }
    }
  }

  lemma HexDigits()
    ensures forall c :: IsHex(c) <==> c in "0123456789abcdef"
  {
    forall c
      ensures IsHex(c) <==> c in "0123456789abcdef"
    {
      var all := "0123456789abcdef";
      if '0' <= c <= '9' {
        assert all[c as int - '0' as int] == c;
      } else if 'a' <= c <= 'f' {
        assert all[10 + c as int - 'a' as int] == c;
      }
    }
  }

  lemma SplitAtDots(s: string, i: nat, j: nat)
    requires i < j < |s| && s[i] == '.' && s[j] == '.'
    ensures s == s[..i] + "." + s[i + 1..j] + "." + s[j + 1..]
  {
    assert s == s[..i] + [s[i]] + s[i + 1..j] + [s[j]] + s[j + 1..];
  }

  lemma JoinWithDots(a: string, b: string, c: string)
    ensures var s, i, j := a + "." + b + "." + c, |a|, |a| + 1 + |b|;
      i < j < |s| && s[i] == '.' && s[j] == '.' && s[..i] == a && s[i + 1..j] == b && s[j + 1..] == c
  {
  }

  ghost predicate Joined(s: string, a: string, b: string, c: string) {
    s == a + "." + b + "." + c && IsNumber(a) && IsNumber(b) && IsNumber(c)
  }

  lemma VersionSplits(s: string) returns (a: string, b: string, c: string)
    requires IsVersion(s)
    ensures Joined(s, a, b, c)
  {
    hide IsNumber;
    var i: nat, j: nat :| i < j < |s| && s[i] == '.' && s[j] == '.' &&
      IsNumber(s[..i]) && IsNumber(s[i + 1..j]) && IsNumber(s[j + 1..]);
    SplitAtDots(s, i, j);
    a, b, c := s[..i], s[i + 1..j], s[j + 1..];
  }

  lemma VersionJoins(s: string, a: string, b: string, c: string)
    requires Joined(s, a, b, c)
    ensures IsVersion(s)
  {
    hide IsNumber;
    JoinWithDots(a, b, c);
    var i, j := |a|, |a| + 1 + |b|;
    assert i < j < |s| && s[i] == '.' && s[j] == '.' && IsNumber(s[..i]) && IsNumber(s[i + 1..j]) && IsNumber(s[j + 1..]);
  }

  lemma VersionMeans(s: string)
    ensures IsVersion(s) <==> exists a, b, c :: Joined(s, a, b, c)
  {
    hide Joined, IsVersion;
    if IsVersion(s) {
      var a, b, c := VersionSplits(s);
    }
    if a, b, c :| Joined(s, a, b, c) {
      VersionJoins(s, a, b, c);
    }
  }

  lemma WellFormedMeans(r: Ref)
    ensures WellFormed(r) <==> IsContentHash(r.id) && 1 <= |r.mediaType| <= 255 && IsVersion(r.schemaVersion)
  {
    ContentHashMeans(r.id);
    VersionMeans(r.schemaVersion);
  }

  lemma FourDistinct<T>(s: seq<T>, a: T, b: T, c: T, d: T)
    requires |s| == 4 && a in s && b in s && c in s && d in s
    requires a != b && a != c && a != d && b != c && b != d && c != d
    ensures multiset(s) == multiset{a, b, c, d}
  {
    var four := multiset{a, b, c, d};
    assert four <= multiset(s);
    assert |multiset(s) - four| == 0;
    assert multiset(s) == four + (multiset(s) - four);
  }

  lemma NamesDiffer()
    ensures "artifact_id" != "media_type" && "artifact_id" != "byte_length" && "artifact_id" != "schema_version"
    ensures "media_type" != "byte_length" && "media_type" != "schema_version" && "byte_length" != "schema_version"
  {
    assert "artifact_id"[0] == 'a' && "media_type"[0] == 'm' && "byte_length"[0] == 'b' && "schema_version"[0] == 's';
  }

  /** An object parses as a reference exactly when the reference is well formed and
      the object's fields are the four that spell it out. */
  lemma ParseRefMeans(fields: seq<Field>, r: Ref)
    ensures ParseRef(fields) == Some(r) <==> WellFormed(r) && multiset(fields) == Spelled(r)
  {
    WellFormedMeans(r);
    hide WellFormed, IsContentHash, IsVersion, Get;
    NamesDiffer();
    var id, media := Field("artifact_id", Str(r.id)), Field("media_type", Str(r.mediaType));
    var length, version := Field("byte_length", Int(r.byteLength)), Field("schema_version", Str(r.schemaVersion));
    if ParseRef(fields) == Some(r) {
      GetIn(fields, "artifact_id", Str(r.id));
      GetIn(fields, "media_type", Str(r.mediaType));
      GetIn(fields, "byte_length", Int(r.byteLength));
      GetIn(fields, "schema_version", Str(r.schemaVersion));
      FourDistinct(fields, id, media, length, version);
    }
    if WellFormed(r) && multiset(fields) == Spelled(r) {
      assert |fields| == |multiset(fields)| == 4;
      forall f
        ensures f in fields <==> f == id || f == media || f == length || f == version
      {
        assert f in fields <==> f in multiset(fields);
      }
      GetOnly(fields, "artifact_id", Str(r.id));
      GetOnly(fields, "media_type", Str(r.mediaType));
      GetOnly(fields, "byte_length", Int(r.byteLength));
      GetOnly(fields, "schema_version", Str(r.schemaVersion));
    }
  }

  /** The references embedded in a document are exactly those that some object in
      it, at whatever depth, spells out with those four fields and no others. */
  lemma EmbeddedMeans(value: Json, r: Ref)
    ensures r in Embedded(value) <==>
      WellFormed(r) && exists fields :: Occurs(Obj(fields), value) && multiset(fields) == Spelled(r)
  {
    hide WellFormed, Spelled, ParseRef, Occurs, Embedded;
    EmbeddedExactly(value, r);
    if node :| Occurs(node, value) && RefNode(node, r) {
      ParseRefMeans(node.fields, r);
      assert Occurs(Obj(node.fields), value);
    }
    if WellFormed(r) {
      if fields :| Occurs(Obj(fields), value) && multiset(fields) == Spelled(r) {
        ParseRefMeans(fields, r);
        assert RefNode(Obj(fields), r);
      }
    }
  }

  // ------------------------------------------------- outermost reference shapes

  /** A string id and a string media type stand under their names; byte length and
      schema version are taken along unless they are absent or null. */
  ghost predicate HasShape(value: Json, s: RefCollector.Shape) {
    && value.Obj?
    && Get(value.fields, "artifact_id") == Some(Str(s.id))
    && Get(value.fields, "media_type") == Some(Str(s.mediaType))
    && (match s.byteLength
        case Some(x) => x != Null && Get(value.fields, "byte_length") == Some(x)
        case None => Get(value.fields, "byte_length") in {None, Some(Null)})
    && (match s.schemaVersion
        case Some(x) => x != Null && Get(value.fields, "schema_version") == Some(x)
        case None => Get(value.fields, "schema_version") in {None, Some(Null)})
  }

  ghost predicate Shaped(value: Json) {
    exists s :: HasShape(value, s)
  }

  /** The node is reached without passing through a reference. */
  ghost predicate Uncovered(node: Json, value: Json) {
    || node == value
    || (!Shaped(value) && value.Arr? && exists i :: 0 <= i < |value.items| && Uncovered(node, value.items[i]))
    || (!Shaped(value) && value.Obj? && exists i :: 0 <= i < |value.fields| && Uncovered(node, value.fields[i].value))
  }

  lemma ShapeMeans(value: Json, s: RefCollector.Shape)
    ensures RefCollector.ShapeOf(value) == Some(s) <==> HasShape(value, s)
    ensures RefCollector.ShapeOf(value).Some? <==> Shaped(value)
  {
    hide Get;
    if RefCollector.ShapeOf(value).Some? {
      assert HasShape(value, RefCollector.ShapeOf(value).value);
    }
  }

  /** Exactly the shapes of the nodes that are reached without passing through
      another reference. */
  lemma {:induction false} OutermostExactly(value: Json, s: RefCollector.Shape)
    ensures s in RefCollector.Outermost(value) <==> exists node :: Uncovered(node, value) && HasShape(node, s)
    decreases value
  {
    hide HasShape, Get, RefCollector.ShapeOf, RefCollector.InFields, RefCollector.InItems;
    ShapeMeans(value, s);
    if RefCollector.ShapeOf(value).Some? {
      assert forall node :: Uncovered(node, value) <==> node == value;
    } else {
      match value {
        case Arr(items) =>
          InItemsExactly(items, s);
          forall i | 0 <= i < |items|
            ensures s in RefCollector.Outermost(items[i]) <==> exists node :: Uncovered(node, items[i]) && HasShape(node, s)
          {
            OutermostExactly(items[i], s);
          }
          if i :| 0 <= i < |items| && s in RefCollector.Outermost(items[i]) {
            var node :| Uncovered(node, items[i]) && HasShape(node, s);
            assert Uncovered(node, value);
          }
        case Obj(fields) =>
          InFieldsExactly(fields, s);
          forall i | 0 <= i < |fields|
            ensures s in RefCollector.Outermost(fields[i].value) <==> exists node :: Uncovered(node, fields[i].value) && HasShape(node, s)
          {
            OutermostExactly(fields[i].value, s);
          }
          if i :| 0 <= i < |fields| && s in RefCollector.Outermost(fields[i].value) {
            var node :| Uncovered(node, fields[i].value) && HasShape(node, s);
            assert Uncovered(node, value);
          }
        case _ =>
      }
    }
  }

  lemma {:induction false} InItemsExactly(items: seq<Json>, s: RefCollector.Shape)
    ensures s in RefCollector.InItems(items) <==> exists i :: 0 <= i < |items| && s in RefCollector.Outermost(items[i])
  {
    hide RefCollector.Outermost;
    if items != [] {
      InItemsExactly(items[1..], s);
      if i :| 0 <= i < |items[1..]| && s in RefCollector.Outermost(items[1..][i]) {
        assert s in RefCollector.Outermost(items[i + 1]);
      }
      forall i | 0 < i < |items| && s in RefCollector.Outermost(items[i])
        ensures s in RefCollector.InItems(items[1..])
      {
        assert items[1..][i - 1] == items[i];
      }
    }
  }

  lemma {:induction false} InFieldsExactly(fields: seq<Field>, s: RefCollector.Shape)
    ensures s in RefCollector.InFields(fields) <==> exists i :: 0 <= i < |fields| && s in RefCollector.Outermost(fields[i].value)
  {
    hide RefCollector.Outermost;
    if fields != [] {
      InFieldsExactly(fields[1..], s);
      if i :| 0 <= i < |fields[1..]| && s in RefCollector.Outermost(fields[1..][i].value) {
        assert s in RefCollector.Outermost(fields[i + 1].value);
      }
      forall i | 0 < i < |fields| && s in RefCollector.Outermost(fields[i].value)
        ensures s in RefCollector.InFields(fields[1..])
      {
        assert fields[1..][i - 1] == fields[i];
      }
    }
  }
}
