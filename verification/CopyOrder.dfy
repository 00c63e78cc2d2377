/** What the order of the roots decides in the copy of `ReachableCopy`: whether it
    succeeds, and under which references it lists what it copied. */
module CopyOrder {
  import opened Wrappers
  import opened Json
  import opened ReachableCopy

  /** References with one id that the copy may come to describe one object. */
  ghost predicate MetAgree(codec: Codec, source: Objects, roots: seq<Ref>) {
    forall r, q :: Met(codec, source, roots, r) && Met(codec, source, roots, q) && r.id == q.id ==>
      r.mediaType == q.mediaType && r.byteLength == q.byteLength
  }

  lemma MetById(codec: Codec, source: Objects, roots: seq<Ref>, r: Ref) returns (q: Ref)
    requires Met(codec, source, roots, r)
    ensures q in FirstMet(codec, source, roots, {}) && q.id == r.id && Met(codec, source, roots, q)
  {
    hide Met, FirstMet, Reachable;
    var order := FirstMet(codec, source, roots, {});
    FirstMetExactly(codec, source, roots);
    MetReachable(codec, source, roots, r);
    var i :| 0 <= i < |order| && order[i].id == r.id;
    q := order[i];
  }

  /** Where references agree, the copy succeeds if and only if nothing that it
      may come to is bad: a condition without any order in it. */
  lemma AgreementDecides(codec: Codec, source: Objects, destination: Objects, roots: seq<Ref>)
    requires MetAgree(codec, source, roots)
    ensures Succeeds(codec, source, destination, roots) <==>
      forall r :: Met(codec, source, roots, r) ==> !Bad(codec, source, destination, r)
  {
    hide Met, FirstMet, Reachable;
    FirstMetExactly(codec, source, roots);
    if Succeeds(codec, source, destination, roots) {
      forall r | Met(codec, source, roots, r)
        ensures !Bad(codec, source, destination, r)
      {
        var q := MetById(codec, source, roots, r);
        assert !Bad(codec, source, destination, q);
      }
    }
  }

  lemma SameRootsMeetTheSame(codec: Codec, source: Objects, roots: seq<Ref>, other: seq<Ref>)
    requires forall r :: r in roots <==> r in other
    ensures Ids(roots) == Ids(other)
    ensures forall r :: Met(codec, source, roots, r) <==> Met(codec, source, other, r)
  {
    hide Reachable, RefsIn;
    forall id
      ensures id in Ids(roots) <==> id in Ids(other)
    {
      if id in Ids(roots) {
        var i :| 0 <= i < |roots| && roots[i].id == id;
        assert roots[i] in other;
      }
      if id in Ids(other) {
        var i :| 0 <= i < |other| && other[i].id == id;
        assert other[i] in roots;
      }
    }
  }

  /** Then reordering the roots changes nothing about success. */
  lemma AgreementSuffices(codec: Codec, source: Objects, destination: Objects, roots: seq<Ref>, other: seq<Ref>)
    requires MetAgree(codec, source, roots) && forall r :: r in roots <==> r in other
    ensures Succeeds(codec, source, destination, roots) <==> Succeeds(codec, source, destination, other)
  {
    hide Met, Succeeds, Bad;
    SameRootsMeetTheSame(codec, source, roots, other);
    AgreementDecides(codec, source, destination, roots);
    AgreementDecides(codec, source, destination, other);
  }

  // ---------------------------------------------------- one list after another

  lemma NothingPending(codec: Codec, source: Objects, seen: set<string>)
    ensures FirstMet(codec, source, [], seen) == []
  {
  }

  lemma {:induction false} SeenOnTop(codec: Codec, source: Objects, pending: seq<Ref>, more: seq<Ref>, seen: set<string>)
    requires Ids(more) <= seen
    ensures FirstMet(codec, source, pending + more, seen) == FirstMet(codec, source, pending, seen)
    decreases |more|
  {
    hide RefsIn, FirstMet;
    if more == [] {
      assert pending + more == pending;
    } else {
      var front, last := more[..|more| - 1], more[|more| - 1];
      assert more == front + [last] && pending + more == (pending + front) + [last];
      IdsSnoc(front, last);
      TakeNext(codec, source, pending + front, last, seen);
      SeenOnTop(codec, source, pending, front, seen);
    }
  }

  /** The worklist is a stack: what lies on top is dealt with first. */
  lemma {:induction false} TopFirst(codec: Codec, source: Objects, a: seq<Ref>, b: seq<Ref>, seen: set<string>)
    ensures FirstMet(codec, source, a + b, seen) ==
      FirstMet(codec, source, b, seen) + FirstMet(codec, source, a, seen + Ids(FirstMet(codec, source, b, seen)))
    decreases source.Keys - seen, |b|
  {
    hide RefsIn, FirstMet, Ids;
    if b == [] {
      NothingPending(codec, source, seen);
      NoneById();
      assert a + b == a && seen + {} == seen;
    } else {
      var front, last := b[..|b| - 1], b[|b| - 1];
      assert b == front + [last] && a + b == (a + front) + [last];
      TakeNext(codec, source, front, last, seen);
      TakeNext(codec, source, a + front, last, seen);
      if last.id in seen {
        TopFirst(codec, source, a, front, seen);
      } else {
        NothingBeyond(codec, source, last.id, seen);
        var more, wider := front + RefsIn(codec, source, last.id), seen + {last.id};
        assert (a + front) + RefsIn(codec, source, last.id) == a + more;
        TopFirst(codec, source, a, more, wider);
        var rest := FirstMet(codec, source, more, wider);
        IdsCons(last, rest);
        assert wider + Ids(rest) == seen + Ids([last] + rest);
      }
    }
  }

  function Without(refs: seq<Ref>, ids: set<string>): seq<Ref> {
    if refs == [] then []
    else (if refs[0].id in ids then [] else [refs[0]]) + Without(refs[1..], ids)
  }

  lemma {:induction false} WithoutExactly(refs: seq<Ref>, ids: set<string>)
    ensures forall r :: r in Without(refs, ids) <==> r in refs && r.id !in ids
  {
    if refs != [] {
      WithoutExactly(refs[1..], ids);
      assert refs == [refs[0]] + refs[1..];
    }
  }

  /** Whatever its objects refer to is among the ids. */
  ghost predicate ClosedIds(codec: Codec, source: Objects, ids: set<string>) {
    forall id :: id in ids ==> Ids(RefsIn(codec, source, id)) <= ids
  }

  /** What a closed set of ids hides is exactly itself. */
  lemma {:induction false} ClosedHidesItself(codec: Codec, source: Objects, pending: seq<Ref>, seen: set<string>, ids: set<string>)
    requires ClosedIds(codec, source, ids)
    ensures FirstMet(codec, source, pending, seen + ids) == Without(FirstMet(codec, source, pending, seen), ids)
    decreases source.Keys - seen, |pending|
  {
    hide RefsIn, FirstMet, Ids;
    if pending == [] {
      NothingPending(codec, source, seen);
      NothingPending(codec, source, seen + ids);
    } else {
      var front, last := pending[..|pending| - 1], pending[|pending| - 1];
      assert pending == front + [last];
      TakeNext(codec, source, front, last, seen);
      TakeNext(codec, source, front, last, seen + ids);
      if last.id in seen {
        ClosedHidesItself(codec, source, front, seen, ids);
      } else {
        NothingBeyond(codec, source, last.id, seen);
        var more, wider := RefsIn(codec, source, last.id), seen + {last.id};
        var rest := FirstMet(codec, source, front + more, wider);
        ClosedHidesItself(codec, source, front + more, wider, ids);
        assert Without([last] + rest, ids) == (if last.id in ids then [] else [last]) + Without(rest, ids) by {
          assert ([last] + rest)[1..] == rest;
        }
        if last.id in ids {
          assert wider + ids == seen + ids;
          SeenOnTop(codec, source, front, more, seen + ids);
        } else {
          assert wider + ids == seen + ids + {last.id};
        }
      }
    }
  }

  lemma FirstMetCloses(codec: Codec, source: Objects, roots: seq<Ref>)
    ensures ClosedIds(codec, source, Ids(FirstMet(codec, source, roots, {})))
  {
    hide Met, RefsIn, FirstMet;
    var order := FirstMet(codec, source, roots, {});
    StartOfCopy(codec, source, roots);
    FirstMetFrom(codec, source, roots, roots, {});
    assert {} + Ids(order) == Ids(order);
    forall id | id in Ids(order)
      ensures Ids(RefsIn(codec, source, id)) <= Ids(order)
    {
      forall other | other in Ids(RefsIn(codec, source, id))
        ensures other in Ids(order)
      {
        var i :| 0 <= i < |RefsIn(codec, source, id)| && RefsIn(codec, source, id)[i].id == other;
      }
    }
  }

  /** A copy from several roots comes to what the last root alone leads to, and
      then, under ids that this did not reach, to what the others lead to. */
  lemma LastThenOthers(codec: Codec, source: Objects, others: seq<Ref>, last: Ref)
    ensures var own := FirstMet(codec, source, [last], {});
      FirstMet(codec, source, others + [last], {}) == own + Without(FirstMet(codec, source, others, {}), Ids(own))
  {
    hide RefsIn, FirstMet, Ids;
    var own := FirstMet(codec, source, [last], {});
    TopFirst(codec, source, others, [last], {});
    FirstMetCloses(codec, source, [last]);
    ClosedHidesItself(codec, source, others, {}, Ids(own));
    assert {} + Ids(own) == Ids(own);
  }

  lemma LastThenOthersMembers(codec: Codec, source: Objects, others: seq<Ref>, last: Ref)
    ensures var own := FirstMet(codec, source, [last], {});
      forall r :: r in FirstMet(codec, source, others + [last], {}) <==>
        r in own || (r in FirstMet(codec, source, others, {}) && r.id !in Ids(own))
  {
    hide RefsIn, FirstMet, Ids;
    LastThenOthers(codec, source, others, last);
    WithoutExactly(FirstMet(codec, source, others, {}), Ids(FirstMet(codec, source, [last], {})));
  }

  // --------------------------------------------------------- order and success

  lemma {:induction false} RootsAloneSuffice(codec: Codec, source: Objects, destination: Objects, roots: seq<Ref>)
    requires forall r :: r in roots ==> Succeeds(codec, source, destination, [r])
    ensures Succeeds(codec, source, destination, roots)
  {
    hide RefsIn, FirstMet, Bad, Ids;
    if roots == [] {
      NothingPending(codec, source, {});
    } else {
      var others, last := roots[..|roots| - 1], roots[|roots| - 1];
      assert roots == others + [last];
      RootsAloneSuffice(codec, source, destination, others);
      LastThenOthersMembers(codec, source, others, last);
    }
  }

  /** The last root is copied from as if it were alone. */
  lemma LastAlone(codec: Codec, source: Objects, destination: Objects, others: seq<Ref>, last: Ref)
    requires Succeeds(codec, source, destination, others + [last])
    ensures Succeeds(codec, source, destination, [last])
  {
    hide RefsIn, FirstMet, Bad, Ids;
    LastThenOthersMembers(codec, source, others, last);
  }

  ghost predicate EveryOrderSucceeds(codec: Codec, source: Objects, destination: Objects, roots: seq<Ref>) {
    forall other :: multiset(other) == multiset(roots) ==> Succeeds(codec, source, destination, other)
  }

  lemma PutLast(roots: seq<Ref>, r: Ref) returns (others: seq<Ref>)
    requires r in roots
    ensures multiset(others + [r]) == multiset(roots)
  {
    var i :| 0 <= i < |roots| && roots[i] == r;
    others := roots[..i] + roots[i + 1..];
    assert roots == roots[..i] + [r] + roots[i + 1..];
  }

  lemma SameMembers(roots: seq<Ref>, other: seq<Ref>)
    requires multiset(other) == multiset(roots)
    ensures forall r :: r in other <==> r in roots
  {
    assert forall r :: (r in other <==> r in multiset(other)) && (r in roots <==> r in multiset(roots));
  }

  /** Every order of the roots succeeds if and only if every root alone does. */
  lemma EveryOrderExactly(codec: Codec, source: Objects, destination: Objects, roots: seq<Ref>)
    ensures EveryOrderSucceeds(codec, source, destination, roots) <==>
      forall r :: r in roots ==> Succeeds(codec, source, destination, [r])
  {
    hide Succeeds;
    if EveryOrderSucceeds(codec, source, destination, roots) {
      forall r | r in roots
        ensures Succeeds(codec, source, destination, [r])
      {
        var others := PutLast(roots, r);
        LastAlone(codec, source, destination, others, r);
      }
    }
    if forall r :: r in roots ==> Succeeds(codec, source, destination, [r]) {
      forall other | multiset(other) == multiset(roots)
        ensures Succeeds(codec, source, destination, other)
      {
        SameMembers(roots, other);
        RootsAloneSuffice(codec, source, destination, other);
      }
    }
  }

  ghost predicate SomeOrderSucceeds(codec: Codec, source: Objects, destination: Objects, roots: seq<Ref>) {
    exists other :: multiset(other) == multiset(roots) && Succeeds(codec, source, destination, other)
  }

  ghost predicate SomeOrderFails(codec: Codec, source: Objects, destination: Objects, roots: seq<Ref>) {
    exists other :: multiset(other) == multiset(roots) && !Succeeds(codec, source, destination, other)
  }

  /** The order decides if and only if some root fails alone while some order of
      them all succeeds. */
  lemma OrderDecidesExactly(codec: Codec, source: Objects, destination: Objects, roots: seq<Ref>)
    ensures SomeOrderFails(codec, source, destination, roots) && SomeOrderSucceeds(codec, source, destination, roots) <==>
      (exists r :: r in roots && !Succeeds(codec, source, destination, [r])) && SomeOrderSucceeds(codec, source, destination, roots)
  {
    hide Succeeds;
    EveryOrderExactly(codec, source, destination, roots);
  }

  /** It does decide, for every object, between two references to it of which one
      is bad: listed before the good one it is passed over, listed after it the
      copy ends. */
  lemma BadBesideGood(codec: Codec, source: Objects, destination: Objects, good: Ref, bad: Ref)
    requires Succeeds(codec, source, destination, [good])
    requires bad.id == good.id && Bad(codec, source, destination, bad)
    ensures Succeeds(codec, source, destination, [bad, good])
    ensures !Succeeds(codec, source, destination, [good, bad])
  {
    hide RefsIn, Bad, FirstMet, Ids;
    assert [bad, good] == [bad] + [good] && [good, bad] == [good] + [bad];
    OwnFirst(codec, source, good);
    OwnFirst(codec, source, bad);
    LastThenOthersMembers(codec, source, [bad], good);
    LastThenOthersMembers(codec, source, [good], bad);
    assert bad in FirstMet(codec, source, [good, bad], {});
    SameIdSameRest(codec, source, good, bad);
  }

  lemma OwnFirst(codec: Codec, source: Objects, r: Ref)
    ensures var own := FirstMet(codec, source, [r], {});
      own == [r] + FirstMet(codec, source, RefsIn(codec, source, r.id), {r.id}) && r.id in Ids(own)
  {
    hide RefsIn, FirstMet;
    TakeNext(codec, source, [], r, {});
    assert [] + [r] == [r] && [] + RefsIn(codec, source, r.id) == RefsIn(codec, source, r.id) && {} + {r.id} == {r.id};
    IdsCons(r, FirstMet(codec, source, RefsIn(codec, source, r.id), {r.id}));
  }

  /** Two references to one object lead on to the same references. */
  lemma SameIdSameRest(codec: Codec, source: Objects, r: Ref, q: Ref)
    requires r.id == q.id
    ensures Ids(FirstMet(codec, source, [r], {})) == Ids(FirstMet(codec, source, [q], {}))
    ensures forall x :: x in FirstMet(codec, source, [q], {}) ==> x == q || x in FirstMet(codec, source, [r], {})
  {
    hide RefsIn, FirstMet;
    OwnFirst(codec, source, r);
    OwnFirst(codec, source, q);
    var rest := FirstMet(codec, source, RefsIn(codec, source, r.id), {r.id});
    IdsCons(r, rest);
    IdsCons(q, rest);
  }

  /** A bad root that is listed last always ends the copy. */
  lemma BadRootEnds(codec: Codec, source: Objects, destination: Objects, others: seq<Ref>, bad: Ref)
    requires Bad(codec, source, destination, bad)
    ensures !Succeeds(codec, source, destination, others + [bad])
  {
    hide RefsIn, Bad, FirstMet, Ids;
    OwnFirst(codec, source, bad);
    LastThenOthersMembers(codec, source, others, bad);
    assert bad in FirstMet(codec, source, others + [bad], {});
  }

  /** Such references exist: one object, and its media type given wrongly. */
  lemma BadBesideGoodExample() returns (codec: Codec, source: Objects, good: Ref, bad: Ref)
    ensures Succeeds(codec, source, map[], [bad, good]) && !Succeeds(codec, source, map[], [good, bad])
  {
    codec := Codec(_ => "", _ => None);
    source := map["" := Object([], 0, "a")];
    good := Ref("", "a", 0, "");
    bad := good.(mediaType := "");
    assert FirstMet(codec, source, [good], {}) == [good] by {
      hide FirstMet, Readable;
      OwnFirst(codec, source, good);
      NothingPending(codec, source, {good.id});
      assert RefsIn(codec, source, good.id) == [];
    }
    assert Succeeds(codec, source, map[], [good]) && Bad(codec, source, map[], bad) by {
      hide FirstMet;
      assert |good.mediaType| != |bad.mediaType|;
    }
    hide *;
    BadBesideGood(codec, source, map[], good, bad);
  }

  // ------------------------------------------------- order and what is listed

  /** The references under which a successful copy lists its objects. */
  ghost function Listed(codec: Codec, source: Objects, roots: seq<Ref>): map<string, Ref> {
    ById(FirstMet(codec, source, roots, {}))
  }

  /** Two successful copies from roots with the same ids, in whatever order, copy
      the same objects and leave the same destination. Their references differ at
      most in the schema version, which no store records. */
  lemma SameClosure(codec: Codec, source: Objects, destination: Objects, roots: seq<Ref>, other: seq<Ref>)
    requires Ids(roots) == Ids(other)
    requires Succeeds(codec, source, destination, roots) && Succeeds(codec, source, destination, other)
    ensures var a, b := Listed(codec, source, roots), Listed(codec, source, other);
      && a.Keys == b.Keys && Merged(source, destination, a) == Merged(source, destination, b)
      && (forall id :: id in a ==> a[id] == b[id].(schemaVersion := a[id].schemaVersion))
      && (a == b <==> forall id :: id in a ==> a[id].schemaVersion == b[id].schemaVersion)
  {
    hide Met, FirstMet, Reachable, ById, Readable, Clashes, Merged;
    Finished(codec, source, destination, roots);
    Finished(codec, source, destination, other);
    var a, b := Listed(codec, source, roots), Listed(codec, source, other);
    assert a.Keys == b.Keys;
    forall id | id in a
      ensures a[id] == b[id].(schemaVersion := a[id].schemaVersion)
    {
      ReadableAgree(codec, source, a[id], b[id]);
    }
    SameMerged(source, destination, a, b);
  }

  lemma SameMerged(source: Objects, destination: Objects, a: map<string, Ref>, b: map<string, Ref>)
    requires a.Keys == b.Keys
    requires forall id :: id in a ==> a[id].byteLength == b[id].byteLength && a[id].mediaType == b[id].mediaType
    ensures Merged(source, destination, a) == Merged(source, destination, b)
  {
  }

  lemma ReadableAgree(codec: Codec, source: Objects, a: Ref, b: Ref)
    requires Readable(codec, source, a) && Readable(codec, source, b) && a.id == b.id
    ensures a == b.(schemaVersion := a.schemaVersion)
  {
  }

  lemma ListedMembers(codec: Codec, source: Objects, roots: seq<Ref>)
    ensures forall r :: r in FirstMet(codec, source, roots, {}) <==>
      r.id in Listed(codec, source, roots) && Listed(codec, source, roots)[r.id] == r
    ensures forall id :: id in Listed(codec, source, roots) ==> Listed(codec, source, roots)[id].id == id
  {
    hide FirstMet, ById, Reachable, Met;
    FirstMetExactly(codec, source, roots);
    ByIdHolds(FirstMet(codec, source, roots, {}));
  }

  lemma ListedByMembers(codec: Codec, source: Objects, roots: seq<Ref>, other: seq<Ref>)
    requires forall r :: r in FirstMet(codec, source, roots, {}) <==> r in FirstMet(codec, source, other, {})
    ensures Listed(codec, source, roots) == Listed(codec, source, other)
  {
    hide FirstMet, Listed;
    ListedMembers(codec, source, roots);
    ListedMembers(codec, source, other);
    var a, b := Listed(codec, source, roots), Listed(codec, source, other);
    forall id
      ensures id in a <==> id in b
      ensures id in a ==> a[id] == b[id]
    {
      if id in a {
        assert a[id] in FirstMet(codec, source, roots, {});
      }
      if id in b {
        assert b[id] in FirstMet(codec, source, other, {});
      }
    }
  }

  /** Any two of the roots list every id that both reach under one reference. */
  ghost predicate Compatible(codec: Codec, source: Objects, roots: seq<Ref>) {
    forall r, q, x, y ::
      r in roots && q in roots && x in FirstMet(codec, source, [r], {}) && y in FirstMet(codec, source, [q], {}) && x.id == y.id ==>
        x == y
  }

  ghost predicate ReachedAlone(codec: Codec, source: Objects, roots: seq<Ref>, x: Ref) {
    exists r :: r in roots && x in FirstMet(codec, source, [r], {})
  }

  /** Then they list together what each of them lists alone. */
  lemma {:induction false} CompatibleUnion(codec: Codec, source: Objects, roots: seq<Ref>)
    requires Compatible(codec, source, roots)
    ensures forall x :: x in FirstMet(codec, source, roots, {}) <==> ReachedAlone(codec, source, roots, x)
  {
    hide FirstMet, Ids;
    if roots == [] {
      NothingPending(codec, source, {});
    } else {
      var others, last := roots[..|roots| - 1], roots[|roots| - 1];
      assert roots == others + [last];
      assert forall r :: r in roots <==> r in others || r == last;
      CompatibleUnion(codec, source, others);
      LastThenOthersMembers(codec, source, others, last);
      forall x
        ensures x in FirstMet(codec, source, roots, {}) <==> ReachedAlone(codec, source, roots, x)
      {
        if ReachedAlone(codec, source, others, x) && x.id in Ids(FirstMet(codec, source, [last], {})) {
          var y := WithId(FirstMet(codec, source, [last], {}), x.id);
          assert x == y;
        }
      }
    }
  }

  lemma WithId(refs: seq<Ref>, id: string) returns (r: Ref)
    requires id in Ids(refs)
    ensures r in refs && r.id == id
  {
    var i :| 0 <= i < |refs| && refs[i].id == id;
    r := refs[i];
  }

  ghost predicate EveryOrderLists(codec: Codec, source: Objects, roots: seq<Ref>) {
    forall other :: multiset(other) == multiset(roots) ==> Listed(codec, source, other) == Listed(codec, source, roots)
  }

  /** The listed references are the same in every order of the roots if and only
      if any two roots list every id that both reach under one reference. */
  lemma EveryOrderListsExactly(codec: Codec, source: Objects, roots: seq<Ref>)
    ensures EveryOrderLists(codec, source, roots) <==> Compatible(codec, source, roots)
  {
    hide FirstMet, Listed, Ids;
    if EveryOrderLists(codec, source, roots) {
      forall r, q, x, y |
        r in roots && q in roots && x in FirstMet(codec, source, [r], {}) && y in FirstMet(codec, source, [q], {}) && x.id == y.id
        ensures x == y
      {
        LastIsListed(codec, source, roots, r, x);
        LastIsListed(codec, source, roots, q, y);
      }
    }
    if Compatible(codec, source, roots) {
      forall other | multiset(other) == multiset(roots)
        ensures Listed(codec, source, other) == Listed(codec, source, roots)
      {
        SameMembers(roots, other);
        CompatibleUnion(codec, source, roots);
        CompatibleUnion(codec, source, other);
        ListedByMembers(codec, source, other, roots);
      }
    }
  }

  /** Any root can be listed last, and is then listed as alone. */
  lemma LastIsListed(codec: Codec, source: Objects, roots: seq<Ref>, r: Ref, x: Ref)
    requires EveryOrderLists(codec, source, roots) && r in roots && x in FirstMet(codec, source, [r], {})
    ensures x.id in Listed(codec, source, roots) && Listed(codec, source, roots)[x.id] == x
  {
    hide FirstMet, Listed, Ids;
    var others := PutLast(roots, r);
    LastThenOthersMembers(codec, source, others, r);
    ListedMembers(codec, source, others + [r]);
  }

  /** The reference of the last root is always the one listed for its object. */
  lemma LastRootListed(codec: Codec, source: Objects, others: seq<Ref>, last: Ref)
    ensures last.id in Listed(codec, source, others + [last]) && Listed(codec, source, others + [last])[last.id] == last
  {
    hide FirstMet, Listed, RefsIn, Ids;
    OwnFirst(codec, source, last);
    LastThenOthersMembers(codec, source, others, last);
    ListedMembers(codec, source, others + [last]);
  }
}
