/** The conflict-checked merge of audited case results in `main` of
    `scripts/aggregate_stage2_checkpoint_reports.py`. Results are met in report
    files, in case files and as stored objects, in any order and repeatedly. */
module CaseMerge {
  import opened Wrappers

  /** One result met under its key: a case id, or a case id with its arm. */
  datatype Sighting<K, V> = Sighting(key: K, value: V)

  datatype Failure = Conflicting | Missing

  ghost predicate Conflict<K, V>(sightings: seq<Sighting<K, V>>, expected: K -> bool) {
    exists a, b :: a in sightings && b in sightings && expected(a.key) && a.key == b.key && a.value != b.value
  }

  /** The merged results: every expected sighting, and nothing else. */
  ghost predicate MergeOf<K, V>(sightings: seq<Sighting<K, V>>, expected: K -> bool, found: map<K, V>) {
    && (forall s :: s in sightings && expected(s.key) ==> s.key in found && found[s.key] == s.value)
    && (forall k :: k in found ==> expected(k) && Sighting(k, found[k]) in sightings)
  }

  lemma MergeStep<K, V>(sightings: seq<Sighting<K, V>>, expected: K -> bool, found: map<K, V>, s: Sighting<K, V>)
    requires MergeOf(sightings, expected, found)
    ensures !expected(s.key) ==> MergeOf(sightings + [s], expected, found)
    ensures expected(s.key) && (s.key in found ==> found[s.key] == s.value) ==>
      MergeOf(sightings + [s], expected, found[s.key := s.value])
    ensures expected(s.key) && s.key in found && found[s.key] != s.value ==> Conflict(sightings + [s], expected)
  {
    assert forall x :: x in sightings + [s] <==> x in sightings || x == s;
    if expected(s.key) && s.key in found && found[s.key] != s.value {
      assert Sighting(s.key, found[s.key]) in sightings + [s];
    }
  }

  lemma MergedWithoutConflict<K, V>(sightings: seq<Sighting<K, V>>, expected: K -> bool, found: map<K, V>)
    requires MergeOf(sightings, expected, found)
    ensures !Conflict(sightings, expected)
  {
  }

  lemma ConflictStays<K, V>(sightings: seq<Sighting<K, V>>, n: nat, expected: K -> bool)
    requires n <= |sightings| && Conflict(sightings[..n], expected)
    ensures Conflict(sightings, expected)
  {
    assert forall x :: x in sightings[..n] ==> x in sightings;
  }

  /** It fails exactly when two expected results of one key differ. */
  method Merge<K(==), V(==)>(sightings: seq<Sighting<K, V>>, expected: K -> bool) returns (result: Result<map<K, V>, Failure>)
    ensures result.Ok? <==> !Conflict(sightings, expected)
    ensures result.Ok? ==> MergeOf(sightings, expected, result.value)
    ensures result.Err? ==> result.error == Conflicting
  {
    hide MergeOf, Conflict;
    var found: map<K, V> := map[];
    assert MergeOf(sightings[..0], expected, found) by { MergeNothing(sightings[..0], expected); }
    var n := 0;
    while n < |sightings|
      invariant 0 <= n <= |sightings|
      invariant MergeOf(sightings[..n], expected, found)
    {
      var s := sightings[n];
      assert sightings[..n + 1] == sightings[..n] + [s];
      MergeStep(sightings[..n], expected, found, s);
      n := n + 1;
      if expected(s.key) {
        if s.key in found && found[s.key] != s.value {
          ConflictStays(sightings, n, expected);
          return Err(Conflicting);
        }
        found := found[s.key := s.value];
      }
    }
    assert sightings[..n] == sightings;
    MergedWithoutConflict(sightings, expected, found);
    return Ok(found);
  }

  lemma MergeNothing<K, V>(none: seq<Sighting<K, V>>, expected: K -> bool)
    requires none == []
    ensures MergeOf(none, expected, map[])
  {
  }

  /** The paired results of every expected case. */
  method PairedCases<K(==), V(==)>(sightings: seq<Sighting<K, V>>, expected: set<K>) returns (result: Result<map<K, V>, Failure>)
    ensures result.Ok? <==>
      && !Conflict(sightings, (k: K) => k in expected)
      && (forall k :: k in expected ==> exists s :: s in sightings && s.key == k)
    ensures result.Ok? ==>
      result.value.Keys == expected && MergeOf(sightings, (k: K) => k in expected, result.value)
  {
    result := Merge(sightings, (k: K) => k in expected);
    if result.Ok? {
      var missing := expected - result.value.Keys;
      if missing != {} {
        var k :| k in missing;
        return Err(Missing);
      }
      forall k | k in expected
        ensures exists s :: s in sightings && s.key == k
      {
        assert k !in missing;
        assert Sighting(k, result.value[k]) in sightings;
      }
    }
  }

  /** The arm reports: when there are any, every expected case needs arm A. */
  method ArmReports<K(==), V(==)>(sightings: seq<Sighting<(K, string), V>>, expected: set<K>)
    returns (result: Result<map<(K, string), V>, Failure>)
    ensures result.Ok? <==>
      && !Conflict(sightings, (k: (K, string)) => k.0 in expected)
      && ((exists s :: s in sightings && s.key.0 in expected) ==>
            forall c :: c in expected ==> exists s :: s in sightings && s.key == (c, "A"))
    ensures result.Ok? ==> MergeOf(sightings, (k: (K, string)) => k.0 in expected, result.value)
  {
    result := Merge(sightings, (k: (K, string)) => k.0 in expected);
    if result.Ok? && result.value != map[] {
      var some :| some in result.value;
      assert Sighting(some, result.value[some]) in sightings;
      var missing := set c | c in expected && (c, "A") !in result.value;
      if missing != {} {
        var c :| c in missing;
        return Err(Missing);
      }
      forall c | c in expected
        ensures exists s :: s in sightings && s.key == (c, "A")
      {
        assert c !in missing;
        assert Sighting((c, "A"), result.value[(c, "A")]) in sightings;
      }
    }
  }

  /** The results depend on what was met, not on where, in what order or how often. */
  lemma MergeOrderIrrelevant<K, V>(sightings: seq<Sighting<K, V>>, other: seq<Sighting<K, V>>, expected: K -> bool,
                                   found: map<K, V>, found': map<K, V>)
    requires forall s :: s in sightings <==> s in other
    requires MergeOf(sightings, expected, found) && MergeOf(other, expected, found')
    ensures found == found'
  {
    assert forall k :: k in found ==> Sighting(k, found[k]) in other;
    assert forall k :: k in found' ==> Sighting(k, found'[k]) in sightings;
  }

  /** The command writes its results into the directory it reads, possibly over
      files that it read. Run again, it meets nothing new: as long as each result
      is still there, that never conflicts and changes nothing. */
  lemma RerunChangesNothing<K, V>(sightings: seq<Sighting<K, V>>, expected: K -> bool, found: map<K, V>,
                                  written: seq<Sighting<K, V>>, again: seq<Sighting<K, V>>)
    requires MergeOf(sightings, expected, found)
    requires forall s :: s in written ==> s.key in found && found[s.key] == s.value
    requires forall s :: s in again ==> s in sightings || s in written
    ensures !Conflict(again, expected)
    ensures MergeOf(again, expected, found) <==> forall k :: k in found ==> Sighting(k, found[k]) in again
  {
    assert forall s :: s in again && expected(s.key) ==> s.key in found && found[s.key] == s.value;
  }
}
