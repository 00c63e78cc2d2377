/** Copying everything reachable from some artifact references between two
    content-addressed stores (`scripts/run_u4l2_plan_candidate.py`, on top of
    the repository in `src/novel_agent/services/artifacts.py`). */
module ReachableCopy {
  import opened Wrappers
  import opened Json

  type Bytes = seq<bv8>

  /** Stored bytes with the metadata recorded beside them. */
  datatype Object = Object(data: Bytes, byteLength: nat, mediaType: string)

  type Objects = map<string, Object>

  /** Integrity: a check of the repository failed. Identity: the copy came back
      under another reference. */
  datatype Error = Integrity(r: Ref) | Identity(r: Ref)

  /** Content hashing and JSON decoding, of which only functionality matters. */
  datatype Codec = Codec(hash: Bytes -> string, decode: Bytes -> Option<Json>)

  /** `read_verified` succeeds. */
  predicate Readable(codec: Codec, objects: Objects, r: Ref) {
    && r.id in objects
    && objects[r.id].byteLength == r.byteLength == |objects[r.id].data|
    && objects[r.id].mediaType == r.mediaType
    && codec.hash(objects[r.id].data) == r.id
  }

  /** The destination holds the id already, under other metadata. */
  predicate Clashes(destination: Objects, r: Ref) {
    r.id in destination &&
    (destination[r.id].byteLength != r.byteLength || destination[r.id].mediaType != r.mediaType)
  }

  /** Metadata and key agree with the stored bytes. */
  predicate Consistent(codec: Codec, objects: Objects) {
    forall id :: id in objects ==>
      objects[id].byteLength == |objects[id].data| && codec.hash(objects[id].data) == id
  }

  /** The references embedded in a stored object, if it is JSON. */
  function RefsIn(codec: Codec, objects: Objects, id: string): seq<Ref> {
    if id in objects && codec.decode(objects[id].data).Some?
    then Embedded(codec.decode(objects[id].data).value)
    else []
  }

  function Ids(refs: seq<Ref>): set<string> {
    set i | 0 <= i < |refs| :: refs[i].id
  }

  /** Each object on the path embeds a reference to the next. */
  ghost predicate IsPath(codec: Codec, objects: Objects, path: seq<string>) {
    forall i :: 0 <= i < |path| - 1 ==> path[i + 1] in Ids(RefsIn(codec, objects, path[i]))
  }

  ghost predicate PathTo(codec: Codec, objects: Objects, roots: set<string>, path: seq<string>, id: string) {
    path != [] && path[0] in roots && path[|path| - 1] == id && IsPath(codec, objects, path)
  }

  ghost predicate Reachable(codec: Codec, objects: Objects, roots: set<string>, id: string) {
    exists path :: PathTo(codec, objects, roots, path, id)
  }

  /** A reference that the copy may come to: a root, or embedded in a reachable object. */
  ghost predicate Met(codec: Codec, objects: Objects, roots: seq<Ref>, r: Ref) {
    || r in roots
    || exists id :: Reachable(codec, objects, Ids(roots), id) && r in RefsIn(codec, objects, id)
  }

  lemma RootReachable(codec: Codec, objects: Objects, roots: set<string>, id: string)
    requires id in roots
    ensures Reachable(codec, objects, roots, id)
  {
    assert PathTo(codec, objects, roots, [id], id);
  }

  lemma StepReachable(codec: Codec, objects: Objects, roots: set<string>, a: string, b: string)
    requires Reachable(codec, objects, roots, a) && b in Ids(RefsIn(codec, objects, a))
    ensures Reachable(codec, objects, roots, b)
  {
    var path :| PathTo(codec, objects, roots, path, a);
    assert PathTo(codec, objects, roots, path + [b], b);
  }

  lemma MetReachable(codec: Codec, objects: Objects, roots: seq<Ref>, r: Ref)
    requires Met(codec, objects, roots, r)
    ensures Reachable(codec, objects, Ids(roots), r.id)
  {
    if r in roots {
      RootReachable(codec, objects, Ids(roots), r.id);
    } else {
      var id :| Reachable(codec, objects, Ids(roots), id) && r in RefsIn(codec, objects, id);
      StepReachable(codec, objects, Ids(roots), id, r.id);
    }
  }

  /** A set that holds the roots and is closed under references holds everything reachable. */
  lemma {:induction false} ClosedHoldsPath(codec: Codec, objects: Objects, roots: set<string>, held: set<string>,
                                          path: seq<string>, n: nat)
    requires roots <= held
    requires forall a :: a in held ==> Ids(RefsIn(codec, objects, a)) <= held
    requires path != [] && path[0] in roots && IsPath(codec, objects, path) && n < |path|
    ensures path[n] in held
  {
    if n > 0 {
      ClosedHoldsPath(codec, objects, roots, held, path, n - 1);
      assert path[n - 1 + 1] in Ids(RefsIn(codec, objects, path[n - 1]));
    }
  }

  lemma ClosedHoldsReachable(codec: Codec, objects: Objects, roots: set<string>, held: set<string>)
    requires roots <= held
    requires forall a :: a in held ==> Ids(RefsIn(codec, objects, a)) <= held
    ensures forall id :: Reachable(codec, objects, roots, id) ==> id in held
  {
    forall id | Reachable(codec, objects, roots, id)
      ensures id in held
    {
      var path :| PathTo(codec, objects, roots, path, id);
      ClosedHoldsPath(codec, objects, roots, held, path, |path| - 1);
    }
  }

  class Repository {
    const codec: Codec
    var objects: Objects

    constructor (codec: Codec, objects: Objects)
      ensures this.codec == codec && this.objects == objects
    {
      this.codec, this.objects := codec, objects;
    }

    /** `read_verified` */
    method ReadVerified(r: Ref) returns (result: Result<Bytes, Error>)
      ensures result == if Readable(codec, objects, r) then Ok(objects[r.id].data) else Err(Integrity(r))
    {
      if r.id !in objects {
        return Err(Integrity(r));
      }
      var stored := objects[r.id];
      if stored.byteLength != r.byteLength || |stored.data| != r.byteLength {
        return Err(Integrity(r));
      }
      if stored.mediaType != r.mediaType || codec.hash(stored.data) != r.id {
        return Err(Integrity(r));
      }
      return Ok(stored.data);
    }

    /** `put`, on a store that never replaces an object it has. */
    method Put(data: Bytes, mediaType: string, schemaVersion: string) returns (result: Result<Ref, Error>)
      modifies this`objects
      ensures var r := Ref(codec.hash(data), mediaType, |data|, schemaVersion);
        && result == (if Clashes(old(objects), r) then Err(Integrity(r)) else Ok(r))
        && objects == if r.id in old(objects) then old(objects)
                      else old(objects)[r.id := Object(data, |data|, mediaType)]
    {
      var id := codec.hash(data);
      if id !in objects {
        objects := objects[id := Object(data, |data|, mediaType)];
      }
      var r := Ref(id, mediaType, |data|, schemaVersion);
      if objects[id].byteLength != |data| || objects[id].mediaType != mediaType {
        return Err(Integrity(r));
      }
      return Ok(r);
    }
  }

  /** The destination after copying one readable reference. */
  function Copied(source: Objects, destination: Objects, r: Ref): Objects
    requires r.id in source
  {
    if r.id in destination then destination
    else destination[r.id := Object(source[r.id].data, r.byteLength, r.mediaType)]
  }

  /** `_copy_ref`. What comes back is compared with its class: `plain` says that
      the reference is an ArtifactRef itself and not one of its subclasses. The
      identity error is raised exactly for a subclass, after the bytes were copied. */
  method CopyRef(source: Repository, destination: Repository, r: Ref, plain: bool) returns (result: Result<(), Error>)
    requires source != destination && source.codec == destination.codec
    modifies destination`objects
    ensures result == if !Readable(source.codec, source.objects, r) || Clashes(old(destination.objects), r)
                      then Err(Integrity(r)) else if plain then Ok(()) else Err(Identity(r))
    ensures destination.objects == if Readable(source.codec, source.objects, r)
                                   then Copied(source.objects, old(destination.objects), r) else old(destination.objects)
  {
    var raw := source.ReadVerified(r);
    if raw.Err? {
      return Err(raw.error);
    }
    var copied := destination.Put(raw.value, r.mediaType, r.schemaVersion);
    if copied.Err? {
      return Err(copied.error);
    }
    if copied.value != r || !plain {
      return Err(Identity(r));
    }
    return Ok(());
  }

  /** The destination once the references in `copied` have been copied to it. */
  ghost function Merged(source: Objects, destination: Objects, copied: map<string, Ref>): Objects {
    destination + map id | id in copied && id !in destination && id in source ::
      Object(source[id].data, copied[id].byteLength, copied[id].mediaType)
  }

  /** Each id under the reference through which it was copied. */
  ghost predicate Faithful(codec: Codec, source: Objects, destination: Objects, roots: seq<Ref>, copied: map<string, Ref>) {
    forall id :: id in copied ==>
      && copied[id].id == id && Met(codec, source, roots, copied[id])
      && Readable(codec, source, copied[id]) && !Clashes(destination, copied[id])
  }

  /** Everything that objects seen so far refer to is seen or waits. */
  ghost predicate Frontier(codec: Codec, source: Objects, roots: seq<Ref>, pending: seq<Ref>, seen: set<string>) {
    && (forall r :: r in pending ==> Met(codec, source, roots, r))
    && (forall r :: r in roots ==> r.id in seen || r in pending)
    && (forall id, r :: id in seen && r in RefsIn(codec, source, id) ==> r.id in seen || r in pending)
  }

  /** A reference that makes the copy fail where it is the first one met with its id. */
  ghost predicate Bad(codec: Codec, source: Objects, destination: Objects, r: Ref) {
    !Readable(codec, source, r) || Clashes(destination, r)
  }

  ghost predicate AllGood(codec: Codec, source: Objects, destination: Objects, refs: seq<Ref>) {
    forall r :: r in refs ==> !Bad(codec, source, destination, r)
  }

  lemma FrontierSkip(codec: Codec, source: Objects, roots: seq<Ref>, pending: seq<Ref>, seen: set<string>)
    requires pending != [] && Frontier(codec, source, roots, pending, seen)
    requires pending[|pending| - 1].id in seen
    ensures Frontier(codec, source, roots, pending[..|pending| - 1], seen)
  {
    var front, last := pending[..|pending| - 1], pending[|pending| - 1];
    assert pending == front + [last];
    assert forall r :: r in pending ==> r in front || r == last;
  }

  lemma FrontierStep(codec: Codec, source: Objects, roots: seq<Ref>, pending: seq<Ref>, seen: set<string>)
    requires pending != [] && Frontier(codec, source, roots, pending, seen)
    ensures var last := pending[|pending| - 1];
      Frontier(codec, source, roots, pending[..|pending| - 1] + RefsIn(codec, source, last.id), seen + {last.id})
  {
    hide Reachable;
    var front, last := pending[..|pending| - 1], pending[|pending| - 1];
    assert pending == front + [last];
    assert forall r :: r in pending ==> r in front || r == last;
    MetReachable(codec, source, roots, last);
    var more := RefsIn(codec, source, last.id);
    forall r | r in more
      ensures Met(codec, source, roots, r)
    {
    }
  }

  /** The references that are the first ones met with their ids, in the order in
      which a stack of pending references brings them up: the last root first. */
  function FirstMet(codec: Codec, source: Objects, pending: seq<Ref>, seen: set<string>): seq<Ref>
    decreases source.Keys - seen, |pending|
  {
    if pending == [] then []
    else
      var front, last := pending[..|pending| - 1], pending[|pending| - 1];
      if last.id in seen then FirstMet(codec, source, front, seen)
      else
        assert last.id !in source ==> RefsIn(codec, source, last.id) == [] && source.Keys - (seen + {last.id}) == source.Keys - seen;
        assert last.id in source ==> last.id in source.Keys - seen;
        [last] + FirstMet(codec, source, front + RefsIn(codec, source, last.id), seen + {last.id})
  }

  ghost predicate DistinctIds(refs: seq<Ref>) {
    forall i, j :: 0 <= i < j < |refs| ==> refs[i].id != refs[j].id
  }

  lemma IdsCons(r: Ref, rest: seq<Ref>)
    ensures Ids([r] + rest) == {r.id} + Ids(rest)
  {
    assert forall x :: x in [r] + rest <==> x == r || x in rest;
    forall id
      ensures id in Ids([r] + rest) <==> id in {r.id} + Ids(rest)
    {
      if id in Ids(rest) {
        var i :| 0 <= i < |rest| && rest[i].id == id;
        assert ([r] + rest)[i + 1].id == id;
      }
      if id == r.id {
        assert ([r] + rest)[0].id == id;
      }
    }
  }

  lemma {:induction false} FirstMetFrom(codec: Codec, source: Objects, roots: seq<Ref>, pending: seq<Ref>, seen: set<string>)
    requires Frontier(codec, source, roots, pending, seen)
    ensures var order := FirstMet(codec, source, pending, seen);
      && (forall r :: r in order ==> Met(codec, source, roots, r) && r.id !in seen)
      && DistinctIds(order)
      && Frontier(codec, source, roots, [], seen + Ids(order))
    decreases source.Keys - seen, |pending|
  {
    hide Frontier, Met, RefsIn;
    if pending == [] {
      assert seen + Ids([]) == seen;
    } else {
      var front, last := pending[..|pending| - 1], pending[|pending| - 1];
      if last.id in seen {
        FrontierSkip(codec, source, roots, pending, seen);
        FirstMetFrom(codec, source, roots, front, seen);
      } else {
        FrontierStep(codec, source, roots, pending, seen);
        NothingBeyond(codec, source, last.id, seen);
        var more, wider := front + RefsIn(codec, source, last.id), seen + {last.id};
        FirstMetFrom(codec, source, roots, more, wider);
        var rest := FirstMet(codec, source, more, wider);
        LastMet(codec, source, roots, pending, seen);
        IdsCons(last, rest);
        assert seen + Ids([last] + rest) == wider + Ids(rest);
      }
    }
  }

  lemma NothingBeyond(codec: Codec, source: Objects, id: string, seen: set<string>)
    requires id !in seen
    ensures id !in source ==> RefsIn(codec, source, id) == [] && source.Keys - (seen + {id}) == source.Keys - seen
    ensures id in source ==> source.Keys - (seen + {id}) < source.Keys - seen
  {
    assert id in source ==> id in source.Keys - seen;
  }

  lemma LastMet(codec: Codec, source: Objects, roots: seq<Ref>, pending: seq<Ref>, seen: set<string>)
    requires pending != [] && Frontier(codec, source, roots, pending, seen)
    ensures Met(codec, source, roots, pending[|pending| - 1])
  {
  }

  /** The references first met have distinct ids, which are exactly the reachable ones. */
  lemma FirstMetExactly(codec: Codec, source: Objects, roots: seq<Ref>)
    ensures var order := FirstMet(codec, source, roots, {});
      && DistinctIds(order) && (forall r :: r in order ==> Met(codec, source, roots, r))
      && (forall id :: id in Ids(order) <==> Reachable(codec, source, Ids(roots), id))
  {
    hide Reachable, Met;
    var order := FirstMet(codec, source, roots, {});
    assert Frontier(codec, source, roots, roots, {}) by { StartOfCopy(codec, source, roots); }
    FirstMetFrom(codec, source, roots, roots, {});
    assert {} + Ids(order) == Ids(order);
    ClosedHoldsReachable(codec, source, Ids(roots), Ids(order));
    forall id | id in Ids(order)
      ensures Reachable(codec, source, Ids(roots), id)
    {
      var i :| 0 <= i < |order| && order[i].id == id;
      MetReachable(codec, source, roots, order[i]);
    }
  }

  lemma StartOfCopy(codec: Codec, source: Objects, roots: seq<Ref>)
    ensures Frontier(codec, source, roots, roots, {})
  {
  }

  /** The dictionary `copied`, filled in the order of the list. */
  function ById(refs: seq<Ref>): map<string, Ref> {
    if refs == [] then map[] else ById(refs[..|refs| - 1])[refs[|refs| - 1].id := refs[|refs| - 1]]
  }

  lemma IdsSnoc(front: seq<Ref>, r: Ref)
    ensures Ids(front + [r]) == Ids(front) + {r.id}
  {
    forall id
      ensures id in Ids(front + [r]) <==> id in Ids(front) + {r.id}
    {
      if id in Ids(front) {
        var i :| 0 <= i < |front| && front[i].id == id;
        assert (front + [r])[i].id == id;
      }
      if id == r.id {
        assert (front + [r])[|front|].id == id;
      }
    }
  }

  lemma ByIdSnoc(front: seq<Ref>, last: Ref)
    ensures ById(front + [last]) == ById(front)[last.id := last]
  {
    assert (front + [last])[..|front|] == front;
  }

  lemma NoneById()
    ensures ById([]) == map[] && Ids([]) == {}
  {
  }

  lemma {:induction false} ByIdHolds(refs: seq<Ref>)
    requires DistinctIds(refs)
    ensures ById(refs).Keys == Ids(refs) && |ById(refs)| == |refs|
    ensures forall r :: r in refs ==> r.id in ById(refs) && ById(refs)[r.id] == r
    ensures forall id :: id in ById(refs) ==> ById(refs)[id].id == id && ById(refs)[id] in refs
  {
    hide ById, Ids, DistinctIds;
    if refs == [] {
      NoneById();
    } else {
      var front, last := refs[..|refs| - 1], refs[|refs| - 1];
      assert refs == front + [last];
      DistinctPrefix(refs, |refs| - 1);
      ByIdHolds(front);
      ByIdSnoc(front, last);
      IdsSnoc(front, last);
      LastIsNew(front, last);
      assert forall r :: r in refs <==> r in front || r == last;
    }
  }

  lemma LastIsNew(front: seq<Ref>, last: Ref)
    requires DistinctIds(front + [last])
    ensures last.id !in Ids(front) && forall r :: r in front ==> r.id != last.id
  {
    assert forall i :: 0 <= i < |front| ==> (front + [last])[i] == front[i];
    assert (front + [last])[|front|] == last;
  }

  /** The copy succeeds: no reference that is the first met with its id is bad. */
  ghost predicate Succeeds(codec: Codec, source: Objects, destination: Objects, roots: seq<Ref>) {
    AllGood(codec, source, destination, FirstMet(codec, source, roots, {}))
  }

  /** `_copy_reachable_artifacts`. It copies the references first met, in order,
      up to the first bad one among them; it fails exactly when there is one. It
      terminates on cyclic stores. */
  method CopyReachable(source: Repository, destination: Repository, roots: seq<Ref>)
    returns (result: Result<seq<Ref>, Error>, ghost copied: map<string, Ref>)
    requires source != destination && source.codec == destination.codec
    modifies destination`objects
    ensures result.Ok? <==> Succeeds(source.codec, source.objects, old(destination.objects), roots)
    ensures var order := FirstMet(source.codec, source.objects, roots, {});
      && |copied| <= |order| && copied == ById(order[..|copied|])
      && AllGood(source.codec, source.objects, old(destination.objects), order[..|copied|])
      && (result.Ok? ==> result.value == order && copied == ById(order))
      && (result.Err? ==>
            && |copied| < |order| && result.error == Integrity(order[|copied|])
            && Bad(source.codec, source.objects, old(destination.objects), order[|copied|]))
    ensures destination.objects == Merged(source.objects, old(destination.objects), copied)
    ensures Faithful(source.codec, source.objects, old(destination.objects), roots, copied)
    ensures result.Ok? ==> forall id :: id in copied <==> Reachable(source.codec, source.objects, Ids(roots), id)
  {
    hide Readable, Clashes, Reachable, Met, Merged, Faithful, RefsIn, Bad, AllGood, DistinctIds, ById, FirstMet,
      Ids, Succeeds, Filling;
    ghost var codec, from, onto := source.codec, source.objects, destination.objects;
    var pending := roots;
    var found: map<string, Ref> := map[];
    var refs: seq<Ref> := [];
    StartFilling(codec, from, onto, roots);
    while pending != []
      invariant Filling(codec, from, onto, roots, refs, pending) && found == ById(refs)
      invariant destination.objects == Merged(from, onto, found)
      decreases from.Keys - found.Keys, |pending|
    {
      var r := pending[|pending| - 1];
      assert pending == pending[..|pending| - 1] + [r];
      pending := pending[..|pending| - 1];
      if r.id in found {
        FillingSkip(codec, from, onto, roots, refs, pending, r);
      } else {
        copied := found;
        FillingStops(codec, from, onto, roots, refs, pending, r);
        var more := CopyOne(source, destination, r, onto, found);
        if more.Err? {
          return Err(more.error), copied;
        }
        FillingGrows(codec, from, onto, roots, refs, pending, r);
        NothingBeyond(codec, from, r.id, found.Keys);
        found := found[r.id := r];
        assert found.Keys == copied.Keys + {r.id};
        refs := refs + [r];
        pending := pending + more.value;
      }
    }
    copied := found;
    Filled(codec, from, onto, roots, refs);
    Finished(codec, from, onto, roots);
    return Ok(refs), copied;
  }

  /** The part of the loop body that copies one object and reads its references. */
  method CopyOne(source: Repository, destination: Repository, r: Ref, ghost onto: Objects, ghost found: map<string, Ref>)
    returns (more: Result<seq<Ref>, Error>)
    requires source != destination && source.codec == destination.codec
    requires destination.objects == Merged(source.objects, onto, found) && r.id !in found
    modifies destination`objects
    ensures more.Ok? <==> !Bad(source.codec, source.objects, onto, r)
    ensures more.Err? ==> more.error == Integrity(r) && destination.objects == old(destination.objects)
    ensures more.Ok? ==> r.id in source.objects
    ensures more.Ok? ==> more.value == RefsIn(source.codec, source.objects, r.id)
    ensures more.Ok? ==> destination.objects == Merged(source.objects, onto, found[r.id := r])
  {
    hide Merged, RefsIn;
    ClashBefore(source.codec, source.objects, onto, found, r);
    var raw := source.ReadVerified(r);
    if raw.Err? {
      return Err(raw.error);
    }
    RefsDecoded(source.codec, source.objects, r);
    var copy := CopyRef(source, destination, r, true);
    if copy.Err? {
      return Err(copy.error);
    }
    MergedCopy(source.objects, onto, found, r);
    var value := source.codec.decode(raw.value);
    return Ok(match value case Some(document) => Embedded(document) case None => []);
  }

  /** `refs` were copied, all of them good, and the rest of the order comes out of
      the references that wait. */
  ghost predicate Filling(codec: Codec, source: Objects, destination: Objects, roots: seq<Ref>, refs: seq<Ref>, pending: seq<Ref>) {
    && FirstMet(codec, source, roots, {}) == refs + FirstMet(codec, source, pending, ById(refs).Keys)
    && AllGood(codec, source, destination, refs)
  }

  lemma StartFilling(codec: Codec, source: Objects, destination: Objects, roots: seq<Ref>)
    ensures Merged(source, destination, map[]) == destination
    ensures ById([]) == map[] && Filling(codec, source, destination, roots, [], roots)
  {
    hide FirstMet;
    assert ById([]).Keys == {};
  }

  lemma FillingSkip(codec: Codec, source: Objects, destination: Objects, roots: seq<Ref>, refs: seq<Ref>, pending: seq<Ref>, r: Ref)
    requires Filling(codec, source, destination, roots, refs, pending + [r]) && r.id in ById(refs)
    ensures Filling(codec, source, destination, roots, refs, pending)
  {
    hide ById, AllGood;
    TakeNext(codec, source, pending, r, ById(refs).Keys);
  }

  /** If the next reference is bad, the copy stops here, and must. */
  lemma FillingStops(codec: Codec, source: Objects, destination: Objects, roots: seq<Ref>, refs: seq<Ref>, pending: seq<Ref>, r: Ref)
    requires Filling(codec, source, destination, roots, refs, pending + [r]) && r.id !in ById(refs)
    ensures var order := FirstMet(codec, source, roots, {});
      && |ById(refs)| == |refs| < |order| && order[|refs|] == r && order[..|refs|] == refs
      && AllGood(codec, source, destination, refs)
      && (Bad(codec, source, destination, r) ==> !Succeeds(codec, source, destination, roots))
    ensures Faithful(codec, source, destination, roots, ById(refs))
  {
    hide FirstMet, Faithful, Bad, ById, RefsIn;
    var order := FirstMet(codec, source, roots, {});
    TakeNext(codec, source, pending, r, ById(refs).Keys);
    assert order[..|refs|] == refs && order[|refs|] == r;
    PrefixFaithful(codec, source, destination, roots, |refs|);
    assert r in order;
  }

  lemma FillingGrows(codec: Codec, source: Objects, destination: Objects, roots: seq<Ref>, refs: seq<Ref>, pending: seq<Ref>, r: Ref)
    requires Filling(codec, source, destination, roots, refs, pending + [r]) && r.id !in ById(refs)
    requires !Bad(codec, source, destination, r)
    ensures ById(refs + [r]) == ById(refs)[r.id := r]
    ensures Filling(codec, source, destination, roots, refs + [r], pending + RefsIn(codec, source, r.id))
  {
    hide FirstMet, ById, RefsIn, Bad;
    var seen := ById(refs).Keys;
    TakeNext(codec, source, pending, r, seen);
    ByIdSnoc(refs, r);
    assert ById(refs + [r]).Keys == seen + {r.id};
    var rest := FirstMet(codec, source, pending + RefsIn(codec, source, r.id), seen + {r.id});
    assert refs + ([r] + rest) == refs + [r] + rest;
    assert forall x :: x in refs + [r] <==> x in refs || x == r;
  }

  lemma Filled(codec: Codec, source: Objects, destination: Objects, roots: seq<Ref>, refs: seq<Ref>)
    requires Filling(codec, source, destination, roots, refs, [])
    ensures FirstMet(codec, source, roots, {}) == refs && AllGood(codec, source, destination, refs)
  {
    hide ById, AllGood;
    assert FirstMet(codec, source, [], ById(refs).Keys) == [];
  }

  lemma TakeNext(codec: Codec, source: Objects, front: seq<Ref>, last: Ref, seen: set<string>)
    ensures FirstMet(codec, source, front + [last], seen) ==
      if last.id in seen then FirstMet(codec, source, front, seen)
      else [last] + FirstMet(codec, source, front + RefsIn(codec, source, last.id), seen + {last.id})
  {
    hide RefsIn;
    assert (front + [last])[..|front|] == front;
  }

  lemma {:induction false} DistinctPrefix(refs: seq<Ref>, n: nat)
    requires n <= |refs| && DistinctIds(refs)
    ensures DistinctIds(refs[..n])
  {
  }

  /** The references before the n-th one were copied as the contract says. */
  lemma PrefixFaithful(codec: Codec, source: Objects, destination: Objects, roots: seq<Ref>, n: nat)
    requires var order := FirstMet(codec, source, roots, {});
      n <= |order| && AllGood(codec, source, destination, order[..n])
    ensures var order := FirstMet(codec, source, roots, {});
      Faithful(codec, source, destination, roots, ById(order[..n])) && |ById(order[..n])| == n
  {
    hide FirstMet, Met, Readable, ById, RefsIn, Reachable;
    var order := FirstMet(codec, source, roots, {});
    FirstMetExactly(codec, source, roots);
    DistinctPrefix(order, n);
    ByIdHolds(order[..n]);
    forall r | r in order[..n]
      ensures r in order && !Bad(codec, source, destination, r)
    {
    }
  }

  /** A clash is with what the destination held at the start. */
  lemma ClashBefore(codec: Codec, source: Objects, destination: Objects, copied: map<string, Ref>, r: Ref)
    requires r.id !in copied
    ensures Clashes(Merged(source, destination, copied), r) <==> Clashes(destination, r)
  {
  }

  lemma MergedCopy(source: Objects, destination: Objects, copied: map<string, Ref>, r: Ref)
    requires r.id in source && r.id !in copied
    ensures Copied(source, Merged(source, destination, copied), r) == Merged(source, destination, copied[r.id := r])
  {
  }

  lemma RefsDecoded(codec: Codec, source: Objects, r: Ref)
    requires Readable(codec, source, r)
    ensures r.id in source
    ensures RefsIn(codec, source, r.id) ==
      match codec.decode(source[r.id].data) case Some(value) => Embedded(value) case None => []
  {
  }

  lemma Finished(codec: Codec, source: Objects, destination: Objects, roots: seq<Ref>)
    requires var order := FirstMet(codec, source, roots, {}); AllGood(codec, source, destination, order)
    ensures var order := FirstMet(codec, source, roots, {});
      && Succeeds(codec, source, destination, roots)
      && |ById(order)| == |order| && order[..|order|] == order
      && Faithful(codec, source, destination, roots, ById(order))
      && forall id :: id in ById(order) <==> Reachable(codec, source, Ids(roots), id)
  {
    hide FirstMet, Faithful, Reachable, Met, ById, AllGood;
    var order := FirstMet(codec, source, roots, {});
    assert order[..|order|] == order;
    PrefixFaithful(codec, source, destination, roots, |order|);
    FirstMetExactly(codec, source, roots);
    ByIdHolds(order);
  }

  /** A consistent destination stays consistent, and afterwards every copied
      reference can be read there as at the source. */
  lemma CopyReadable(codec: Codec, source: Objects, destination: Objects, roots: seq<Ref>, copied: map<string, Ref>)
    requires Consistent(codec, destination) && Faithful(codec, source, destination, roots, copied)
    ensures Consistent(codec, Merged(source, destination, copied))
    ensures forall id :: id in copied ==> Readable(codec, Merged(source, destination, copied), copied[id])
  {
    hide Met;
  }

  /** With collision-free hashing the bytes are the same, too. */
  lemma CopySameBytes(codec: Codec, source: Objects, destination: Objects, roots: seq<Ref>, copied: map<string, Ref>)
    requires Consistent(codec, destination) && Faithful(codec, source, destination, roots, copied)
    requires forall x, y :: codec.hash(x) == codec.hash(y) ==> x == y
    ensures forall id :: id in copied ==>
      id in source && id in Merged(source, destination, copied)
      && Merged(source, destination, copied)[id].data == source[id].data
  {
    hide Met;
    CopyReadable(codec, source, destination, roots, copied);
  }

  const CHECKPOINT_TYPE := "application/vnd.novel-agent.planning-loop-checkpoint+json"
  const SCHEMA_VERSION := "1.0.0"

  /** A checkpoint names its references in a fixed order, some of them absent. */
  type CheckpointReader = Bytes -> Option<seq<Option<Ref>>>

  function Present(refs: seq<Option<Ref>>): (r: seq<Ref>)
    ensures forall x :: x in r <==> Some(x) in refs
  {
    if refs == [] then []
    else
      assert forall y :: y in refs <==> y == refs[0] || y in refs[1..];
      (if refs[0].Some? then [refs[0].value] else []) + Present(refs[1..])
  }

  datatype ResumeError = Malformed | Refused(error: Error)

  /** The destination holds everything that the checkpoint leads to. */
  ghost predicate ClosureHeld(codec: Codec, source: Objects, destination: Objects, refs: seq<Ref>) {
    forall id :: Reachable(codec, source, Ids(refs), id) ==> id in destination
  }

  /** `_copy_resume_checkpoint`. The checkpoint comes last: it is written only
      to a destination that already holds all it leads to, so whatever stops
      the copy never leaves a checkpoint with dangling references. */
  method CopyResumeCheckpoint(source: Repository, destination: Repository, read: CheckpointReader, checkpoint: Bytes)
    returns (result: Result<Ref, ResumeError>, ghost copied: map<string, Ref>)
    requires source != destination && source.codec == destination.codec
    modifies destination`objects
    ensures read(checkpoint).None? ==> result == Err(Malformed) && destination.objects == old(destination.objects)
    ensures read(checkpoint).Some? ==> Faithful(source.codec, source.objects, old(destination.objects), Present(read(checkpoint).value), copied)
    ensures var merged := Merged(source.objects, old(destination.objects), copied);
      && (destination.objects == merged || destination.objects == merged[source.codec.hash(checkpoint) :=
            Object(checkpoint, |checkpoint|, CHECKPOINT_TYPE)])
      && (destination.objects != merged ==>
            result.Ok? && ClosureHeld(source.codec, source.objects, merged, Present(read(checkpoint).value)))
    ensures result.Ok? <==>
      && read(checkpoint).Some?
      && Succeeds(source.codec, source.objects, old(destination.objects), Present(read(checkpoint).value))
      && !Clashes(Merged(source.objects, old(destination.objects), copied),
                  Ref(source.codec.hash(checkpoint), CHECKPOINT_TYPE, |checkpoint|, SCHEMA_VERSION))
    ensures result.Ok? ==>
      && result.value == Ref(source.codec.hash(checkpoint), CHECKPOINT_TYPE, |checkpoint|, SCHEMA_VERSION)
      && result.value.id in destination.objects && !Clashes(destination.objects, result.value)
      && ClosureHeld(source.codec, source.objects, destination.objects, Present(read(checkpoint).value))
  {
    hide Readable, Reachable, Met, Merged, Faithful, RefsIn, Present, Bad, Succeeds, FirstMet, AllGood, ById;
    copied := map[];
    NothingMerged(source.objects, destination.objects);
    var parsed := read(checkpoint);
    if parsed.None? {
      return Err(Malformed), copied;
    }
    var refs := Present(parsed.value);
    ghost var onto := destination.objects;
    var copy;
    copy, copied := CopyReachable(source, destination, refs);
    if copy.Err? {
      return Err(Refused(copy.error)), copied;
    }
    CopiedHeld(source.codec, source.objects, onto, refs, copied);
    var put := destination.Put(checkpoint, CHECKPOINT_TYPE, SCHEMA_VERSION);
    if put.Err? {
      return Err(Refused(put.error)), copied;
    }
    return Ok(put.value), copied;
  }

  lemma NothingMerged(source: Objects, destination: Objects)
    ensures Merged(source, destination, map[]) == destination
  {
  }

  lemma CopiedHeld(codec: Codec, source: Objects, destination: Objects, refs: seq<Ref>, copied: map<string, Ref>)
    requires Faithful(codec, source, destination, refs, copied)
    requires forall id :: id in copied <==> Reachable(codec, source, Ids(refs), id)
    ensures ClosureHeld(codec, source, Merged(source, destination, copied), refs)
  {
    hide Met, Reachable;
  }
}
