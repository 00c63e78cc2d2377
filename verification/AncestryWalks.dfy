/** The three walks over a commit's ancestry: the evidence audit
    (`scripts/run_evidence_audit.py`), the ancestry proof
    (`scripts/rescore_stage2m_frozen_checkpoints.py`) and the checkpoint
    resolver (`scripts/resolve_stage2_checkpoint_commits.py`). */
module AncestryWalks {
  import opened Sequences
  import opened Wrappers
  import opened Ancestry

  datatype Error = Cycle | Missing | OtherProject | BadArtifact | HashConflict | NotLinear
                 | MultipleCommits(chapter: nat) | Unresolved(chapter: nat)

  predicate TextAt(store: Store, commit: Commit) {
    commit in store && store[commit].text.Readable?
  }

  function TextOf(store: Store, commit: Commit): Text
    requires TextAt(store, commit)
  {
    store[commit].text.value
  }

  /** The commit can be read, and its text has that many chapters. */
  predicate HasChapters(store: Store, commit: Commit, n: nat) {
    commit in store && store[commit].text.Readable? && |store[commit].text.value.chapters| == n
  }

  function ChapterCount(store: Store, commit: Commit): nat
    requires TextAt(store, commit)
  {
    |TextOf(store, commit).chapters|
  }

  // ------------------------------------------------------------- the audit walk

  /** Every commit belongs to the project and can be read, and no root hash
      stands for two texts. */
  ghost predicate Auditable(store: Store, project: string, path: seq<Commit>) {
    && (forall i :: 0 <= i < |path| ==> TextAt(store, path[i]) && store[path[i]].project == project)
    && (forall i, j :: 0 <= i < j < |path| ==>
          TextOf(store, path[i]).rootHash != TextOf(store, path[j]).rootHash
          || TextOf(store, path[i]) == TextOf(store, path[j]))
  }

  /** `roots` is the dictionary of the texts along the path. */
  ghost predicate Collected(store: Store, path: seq<Commit>, roots: map<string, Text>)
    requires forall i :: 0 <= i < |path| ==> TextAt(store, path[i])
  {
    && (forall i :: 0 <= i < |path| ==>
          var t := TextOf(store, path[i]); t.rootHash in roots && roots[t.rootHash] == t)
    && (forall h :: h in roots ==> exists i :: 0 <= i < |path| && TextOf(store, path[i]).rootHash == h)
  }

  /** Nothing that contains an offending beginning is an auditable history. */
  lemma NotAuditable(store: Store, project: string, start: Commit, trail: seq<Commit>)
    requires Trail(store, start, trail) && !Auditable(store, project, trail)
    ensures forall path :: !(LinearHistory(store, start, path) && Auditable(store, project, path))
  {
    forall path | LinearHistory(store, start, path)
      ensures !Auditable(store, project, path)
    {
      TrailBegins(store, start, trail, path);
      if Auditable(store, project, path) {
        AuditablePrefix(store, project, trail, path);
      }
    }
  }

  lemma AuditablePrefix(store: Store, project: string, trail: seq<Commit>, path: seq<Commit>)
    requires trail <= path && Auditable(store, project, path)
    ensures Auditable(store, project, trail)
  {
    assert forall i :: 0 <= i < |trail| ==> trail[i] == path[i];
  }

  lemma AuditableGrows(store: Store, project: string, path: seq<Commit>, roots: map<string, Text>, commit: Commit)
    requires Auditable(store, project, path) && Collected(store, path, roots)
    requires TextAt(store, commit) && store[commit].project == project
    ensures var t := TextOf(store, commit);
      && (Auditable(store, project, path + [commit]) <==> (t.rootHash in roots ==> roots[t.rootHash] == t))
      && (Auditable(store, project, path + [commit]) ==> Collected(store, path + [commit], roots[t.rootHash := t]))
  {
    hide TextAt, TextOf;
    var t := TextOf(store, commit);
    var all := path + [commit];
    assert all[|path|] == commit && forall i :: 0 <= i < |path| ==> all[i] == path[i];
    if t.rootHash in roots {
      var i :| 0 <= i < |path| && TextOf(store, path[i]).rootHash == t.rootHash;
      assert all[i] == path[i] && roots[t.rootHash] == TextOf(store, path[i]);
    }
    if t.rootHash in roots ==> roots[t.rootHash] == t {
      CollectedGrows(store, path, roots, commit);
    }
  }

  lemma CollectedGrows(store: Store, path: seq<Commit>, roots: map<string, Text>, commit: Commit)
    requires (forall i :: 0 <= i < |path| ==> TextAt(store, path[i])) && TextAt(store, commit)
    requires Collected(store, path, roots)
    requires var t := TextOf(store, commit); t.rootHash in roots ==> roots[t.rootHash] == t
    ensures var t := TextOf(store, commit); Collected(store, path + [commit], roots[t.rootHash := t])
  {
    hide TextAt, TextOf;
    var t := TextOf(store, commit);
    var all, wider := path + [commit], roots[t.rootHash := t];
    assert all[|path|] == commit && forall i :: 0 <= i < |path| ==> all[i] == path[i];
    forall h | h in wider
      ensures exists i :: 0 <= i < |all| && TextOf(store, all[i]).rootHash == h
    {
      if h in roots {
        var i :| 0 <= i < |path| && TextOf(store, path[i]).rootHash == h;
        assert TextOf(store, all[i]).rootHash == h;
      } else {
        assert TextOf(store, all[|path|]).rootHash == h;
      }
    }
    forall i | 0 <= i < |all|
      ensures TextOf(store, all[i]).rootHash in wider && wider[TextOf(store, all[i]).rootHash] == TextOf(store, all[i])
    {
      if i < |path| {
        assert roots[TextOf(store, path[i]).rootHash] == TextOf(store, path[i]);
      }
    }
  }

  /** The texts of a path that is auditable so far. */
  ghost predicate Gathered(store: Store, project: string, path: seq<Commit>, roots: map<string, Text>) {
    Auditable(store, project, path) && Collected(store, path, roots)
  }

  /** One more commit of the audit walk: what refuses it, and what it adds. */
  lemma GatheredStep(store: Store, project: string, start: Commit, path: seq<Commit>, roots: map<string, Text>, commit: Commit)
    requires Gathered(store, project, path, roots) && Trail(store, start, path + [commit]) && commit in store
    ensures
      var m := store[commit];
      if m.project == project && m.text.Readable? && (m.text.value.rootHash in roots ==> roots[m.text.value.rootHash] == m.text.value)
      then Gathered(store, project, path + [commit], roots[m.text.value.rootHash := m.text.value])
      else forall whole :: !(LinearHistory(store, start, whole) && Auditable(store, project, whole))
  {
    hide Trail, LinearHistory, Auditable, Collected;
    if store[commit].project == project && store[commit].text.Readable? {
      AuditableGrows(store, project, path, roots, commit);
    } else {
      Offends(store, project, path, commit);
    }
    if !Auditable(store, project, path + [commit]) {
      NotAuditable(store, project, start, path + [commit]);
    }
  }

  lemma Offends(store: Store, project: string, path: seq<Commit>, commit: Commit)
    requires commit in store && !(store[commit].project == project && store[commit].text.Readable?)
    ensures !Auditable(store, project, path + [commit])
  {
    assert (path + [commit])[|path|] == commit;
  }

  /** `_load_historical_text_roots`. It succeeds exactly on the linear histories
      that are auditable, and then it has visited the whole history. */
  method LoadHistoricalTextRoots(store: Store, project: string, current: Commit)
    returns (result: Result<map<string, Text>, Error>, ghost visited: seq<Commit>)
    ensures result.Ok? ==>
      && LinearHistory(store, current, visited) && Auditable(store, project, visited)
      && Collected(store, visited, result.value)
    ensures result.Ok? ==> forall c :: c in visited ==>
      && c in store && store[c].project == project && store[c].text.Readable?
      && store[c].text.value.rootHash in result.value && result.value[store[c].text.value.rootHash] == store[c].text.value
    ensures result.Err? ==> forall path :: !(LinearHistory(store, current, path) && Auditable(store, project, path))
  {
    hide Trail, LinearHistory, Gathered;
    var roots: map<string, Text> := map[];
    var seen: set<Commit> := {};
    var cursor := Some(current);
    visited := [];
    NothingGathered(store, project, current);
    while cursor.Some?
      invariant cursor.Some? ==> Trail(store, current, visited + [cursor.value])
      invariant cursor.None? ==> LinearHistory(store, current, visited)
      invariant seen <= store.Keys && forall c :: c in seen <==> c in visited
      invariant Gathered(store, project, visited, roots)
      decreases store.Keys - seen, cursor.Some?
    {
      var commit := cursor.value;
      ghost var trail := visited + [commit];
      assert trail[|trail| - 1] == commit && trail[..|trail| - 1] == visited;
      if commit in seen {
        NoHistory(store, current, trail);
        return Err(Cycle), visited;
      }
      if commit !in store {
        NoHistory(store, current, trail);
        return Err(Missing), visited;
      }
      var manifest := store[commit];
      GatheredStep(store, project, current, visited, roots, commit);
      if manifest.project != project {
        return Err(OtherProject), visited;
      }
      if manifest.text.Unreadable? {
        return Err(BadArtifact), visited;
      }
      var text := manifest.text.value;
      if text.rootHash in roots && roots[text.rootHash] != text {
        return Err(HashConflict), visited;
      }
      roots := roots[text.rootHash := text];
      if |manifest.parents| > 1 {
        NoHistory(store, current, trail);
        return Err(NotLinear), visited;
      }
      assert store.Keys - (seen + {commit}) == store.Keys - seen - {commit};
      assert commit in store.Keys - seen;
      seen := seen + {commit};
      visited := trail;
      if manifest.parents == [] {
        EndOfHistory(store, current, trail);
        cursor := None;
      } else {
        TrailGrows(store, current, trail, manifest.parents[0]);
        cursor := Some(manifest.parents[0]);
      }
    }
    AllGathered(store, project, visited, roots);
    EachGathered(store, project, visited, roots);
    return Ok(roots), visited;
  }

  lemma EachGathered(store: Store, project: string, path: seq<Commit>, roots: map<string, Text>)
    requires Gathered(store, project, path, roots)
    ensures forall c :: c in path ==>
      && c in store && store[c].project == project && store[c].text.Readable?
      && store[c].text.value.rootHash in roots && roots[store[c].text.value.rootHash] == store[c].text.value
  {
    forall c | c in path
      ensures TextAt(store, c) && store[c].project == project
      ensures TextOf(store, c).rootHash in roots && roots[TextOf(store, c).rootHash] == TextOf(store, c)
    {
      var i :| 0 <= i < |path| && path[i] == c;
    }
  }

  lemma NothingGathered(store: Store, project: string, start: Commit)
    ensures Gathered(store, project, [], map[]) && Trail(store, start, [] + [start])
  {
  }

  lemma EndOfHistory(store: Store, start: Commit, trail: seq<Commit>)
    requires Trail(store, start, trail) && trail[|trail| - 1] in store && store[trail[|trail| - 1]].parents == []
    ensures LinearHistory(store, start, trail)
  {
  }

  lemma AllGathered(store: Store, project: string, path: seq<Commit>, roots: map<string, Text>)
    requires Gathered(store, project, path, roots)
    ensures Auditable(store, project, path) && Collected(store, path, roots)
  {
  }

  // ------------------------------------------------------------- the proof walk

  datatype Entry = Entry(commit: Commit, rootHash: string)

  function EntriesOf(store: Store, path: seq<Commit>): seq<Entry>
    requires forall i :: 0 <= i < |path| ==> TextAt(store, path[i])
  {
    seq(|path|, i requires 0 <= i < |path| => Entry(path[i], TextOf(store, path[i]).rootHash))
  }

  ghost predicate AllReadable(store: Store, path: seq<Commit>) {
    forall i :: 0 <= i < |path| ==> TextAt(store, path[i])
  }

  lemma NotReadable(store: Store, start: Commit, trail: seq<Commit>)
    requires Trail(store, start, trail) && !AllReadable(store, trail)
    ensures forall path :: !(LinearHistory(store, start, path) && AllReadable(store, path))
  {
    forall path | LinearHistory(store, start, path)
      ensures !AllReadable(store, path)
    {
      TrailBegins(store, start, trail, path);
      var i :| 0 <= i < |trail| && !TextAt(store, trail[i]);
      assert path[i] == trail[i];
    }
  }

  /** The ancestry loop of `_build_proof`: one entry per ancestor, from the
      checkpoint commit back to the first one. */
  method BuildAncestry(store: Store, start: Commit)
    returns (result: Result<seq<Entry>, Error>, ghost visited: seq<Commit>)
    ensures result.Ok? ==>
      && LinearHistory(store, start, visited) && AllReadable(store, visited)
      && result.value == EntriesOf(store, visited)
    ensures result.Ok? ==> |result.value| == |visited| && forall i :: 0 <= i < |visited| ==>
      && visited[i] in store && store[visited[i]].text.Readable?
      && result.value[i] == Entry(visited[i], store[visited[i]].text.value.rootHash)
    ensures result.Err? ==> forall path :: !(LinearHistory(store, start, path) && AllReadable(store, path))
  {
    hide Trail, LinearHistory;
    NothingGathered(store, "", start);
    var entries: seq<Entry> := [];
    var seen: set<Commit> := {};
    var cursor := Some(start);
    visited := [];
    while cursor.Some?
      invariant cursor.Some? ==> Trail(store, start, visited + [cursor.value])
      invariant cursor.None? ==> LinearHistory(store, start, visited)
      invariant seen <= store.Keys && forall c :: c in seen <==> c in visited
      invariant AllReadable(store, visited) && entries == EntriesOf(store, visited)
      decreases store.Keys - seen, cursor.Some?
    {
      var commit := cursor.value;
      ghost var trail := visited + [commit];
      assert trail[|trail| - 1] == commit && trail[..|trail| - 1] == visited;
      if commit in seen {
        NoHistory(store, start, trail);
        return Err(Cycle), visited;
      }
      if commit !in store {
        NoHistory(store, start, trail);
        return Err(Missing), visited;
      }
      var manifest := store[commit];
      if manifest.text.Unreadable? {
        assert !TextAt(store, trail[|visited|]);
        NotReadable(store, start, trail);
        return Err(BadArtifact), visited;
      }
      entries := entries + [Entry(commit, manifest.text.value.rootHash)];
      if |manifest.parents| > 1 {
        NoHistory(store, start, trail);
        return Err(NotLinear), visited;
      }
      assert store.Keys - (seen + {commit}) == store.Keys - seen - {commit};
      assert commit in store.Keys - seen;
      seen := seen + {commit};
      visited := trail;
      if manifest.parents == [] {
        EndOfHistory(store, start, trail);
        cursor := None;
      } else {
        TrailGrows(store, start, trail, manifest.parents[0]);
        cursor := Some(manifest.parents[0]);
      }
    }
    return Ok(entries), visited;
  }

  // ------------------------------------------------- resolving checkpoint commits

  /** What the resolver walks: it stops without complaint where a parent was
      visited before, so unlike the other walks it accepts a cycle. */
  ghost predicate Walked(store: Store, head: Commit, path: seq<Commit>) {
    && Trail(store, head, path) && Distinct(path) && AllReadable(store, path)
    && var parents := store[path[|path| - 1]].parents;
      parents == [] || (|parents| == 1 && parents[0] in path)
  }

  /** On a linear history the resolver walks exactly that history. */
  lemma WalkedIsHistory(store: Store, head: Commit, path: seq<Commit>)
    requires LinearHistory(store, head, path) && AllReadable(store, path)
    ensures forall walk :: Walked(store, head, walk) <==> walk == path
  {
    HistoryDistinct(store, head, path);
    assert Walked(store, head, path);
    forall walk | Walked(store, head, walk)
      ensures walk == path
    {
      TrailWithin(store, head, walk, path);
      TrailWithin(store, head, path, walk);
    }
  }

  /** The commit that the resolver stops at decides: the other two walks have a
      history to visit if and only if that commit has no parent. Otherwise its
      parent was visited before, and they refuse. */
  lemma WalkEndsExactly(store: Store, head: Commit, walk: seq<Commit>)
    requires Walked(store, head, walk)
    ensures (exists path :: LinearHistory(store, head, path)) <==> store[walk[|walk| - 1]].parents == []
  {
    var last := walk[|walk| - 1];
    if store[last].parents == [] {
      assert LinearHistory(store, head, walk);
    } else {
      NoHistory(store, head, walk + [store[last].parents[0]]);
    }
  }

  /** There is a commit that the resolver walks and the other two refuse. */
  lemma WalkedCycle() returns (store: Store, head: Commit, path: seq<Commit>)
    ensures Walked(store, head, path)
    ensures forall other :: !LinearHistory(store, head, other)
  {
    head := "c";
    store := map[head := Manifest("p", Readable(Text("h", [])), [head])];
    path := [head];
    assert Walked(store, head, path);
    assert Trail(store, head, [head, head]);
    assert [head, head][..1] == [head];
    NoHistory(store, head, [head, head]);
  }

  /** A trail without repetition is the beginning of the walk. */
  lemma {:induction false} TrailWithin(store: Store, head: Commit, trail: seq<Commit>, walk: seq<Commit>)
    requires Trail(store, head, trail) && Distinct(trail) && Walked(store, head, walk)
    ensures trail <= walk
  {
    if |trail| > 1 {
      var front := trail[..|trail| - 1];
      TrailWithin(store, head, front, walk);
      var k := |front| - 1;
      assert front[k] == walk[k] == trail[k];
      assert store[trail[k]].parents == [trail[k + 1]];
      assert store[walk[k]].parents == [walk[k + 1]];
      assert trail == front + [trail[k + 1]];
    }
  }

  predicate CountIs(store: Store, list: seq<Commit>, i: nat, chapter: nat)
    requires i < |list| && TextAt(store, list[i])
  {
    ChapterCount(store, list[i]) == chapter
  }

  /** Exactly one commit of the list has that many chapters. */
  ghost predicate UniqueAt(store: Store, list: seq<Commit>, chapter: nat)
    requires AllReadable(store, list)
  {
    && (exists i :: 0 <= i < |list| && CountIs(store, list, i, chapter))
    && (forall i, j :: 0 <= i < j < |list| ==> !(CountIs(store, list, i, chapter) && CountIs(store, list, j, chapter)))
  }

  /** Each requested chapter count belongs to exactly one commit. */
  ghost predicate Resolvable(store: Store, path: seq<Commit>, checkpoints: set<nat>)
    requires AllReadable(store, path)
  {
    forall ch :: ch in checkpoints ==> UniqueAt(store, path, ch)
  }

  /** `byChapter` binds the requested counts met so far, none of them twice. */
  ghost predicate Bound(store: Store, path: seq<Commit>, checkpoints: set<nat>, byChapter: map<nat, Commit>)
    requires AllReadable(store, path)
  {
    && (forall ch :: ch in byChapter ==>
          ch in checkpoints && exists i :: 0 <= i < |path| && path[i] == byChapter[ch] && ChapterCount(store, path[i]) == ch)
    && (forall i :: 0 <= i < |path| && ChapterCount(store, path[i]) in checkpoints ==>
          ChapterCount(store, path[i]) in byChapter && byChapter[ChapterCount(store, path[i])] == path[i])
  }

  lemma BoundGrows(store: Store, path: seq<Commit>, checkpoints: set<nat>, byChapter: map<nat, Commit>, commit: Commit)
    requires AllReadable(store, path) && Bound(store, path, checkpoints, byChapter)
    requires TextAt(store, commit) && ChapterCount(store, commit) !in byChapter
    ensures AllReadable(store, path + [commit])
    ensures var ch := ChapterCount(store, commit);
      Bound(store, path + [commit], checkpoints, if ch in checkpoints then byChapter[ch := commit] else byChapter)
  {
    var all, ch := path + [commit], ChapterCount(store, commit);
    assert all[|path|] == commit && forall i :: 0 <= i < |path| ==> all[i] == path[i];
    var byChapter' := if ch in checkpoints then byChapter[ch := commit] else byChapter;
    forall c | c in byChapter'
      ensures c in checkpoints && exists i :: 0 <= i < |all| && all[i] == byChapter'[c] && ChapterCount(store, all[i]) == c
    {
      if c in byChapter {
        var i :| 0 <= i < |path| && path[i] == byChapter[c] && ChapterCount(store, path[i]) == c;
        assert all[i] == byChapter'[c];
      }
    }
  }

  /** The resolver: it succeeds exactly when the walk ends and binds every
      requested chapter count to exactly one of its commits. */
  method ResolveCheckpoints(store: Store, head: Commit, checkpoints: set<nat>)
    returns (result: Result<map<nat, Commit>, Error>, ghost visited: seq<Commit>)
    ensures result.Ok? ==>
      && Walked(store, head, visited) && Resolvable(store, visited, checkpoints)
      && result.value.Keys == checkpoints && Bound(store, visited, checkpoints, result.value)
    ensures result.Ok? ==> forall n, c :: n in checkpoints && c in visited ==> (HasChapters(store, c, n) <==> c == result.value[n])
    ensures result.Ok? ==> forall n :: n in checkpoints ==> result.value[n] in visited
    ensures result.Err? ==> forall walk :: !(Walked(store, head, walk) && Resolvable(store, walk, checkpoints))
  {
    hide HasChapters;
    var cursor := head;
    var byChapter: map<nat, Commit> := map[];
    var seen: set<Commit> := {};
    var more := true;
    visited := [];
    while more && cursor !in seen
      invariant more ==> Trail(store, head, visited + [cursor])
      invariant Distinct(visited) && AllReadable(store, visited) && Bound(store, visited, checkpoints, byChapter)
      invariant !more ==> visited != [] && Trail(store, head, visited) && store[visited[|visited| - 1]].parents == []
      invariant seen <= store.Keys && forall c :: c in seen <==> c in visited
      decreases store.Keys - seen, more
    {
      ghost var trail := visited + [cursor];
      assert trail[|visited|] == cursor;
      assert Distinct(trail);
      if cursor !in store {
        WalkStuck(store, head, trail);
        return Err(Missing), visited;
      }
      var manifest := store[cursor];
      if manifest.text.Unreadable? {
        WalkStuck(store, head, trail);
        return Err(BadArtifact), visited;
      }
      var chapter := |manifest.text.value.chapters|;
      if chapter in checkpoints {
        if chapter in byChapter {
          TwiceBound(store, head, visited, checkpoints, byChapter, cursor);
          return Err(MultipleCommits(chapter)), visited;
        }
      }
      BoundGrows(store, visited, checkpoints, byChapter, cursor);
      if chapter in checkpoints {
        byChapter := byChapter[chapter := cursor];
      }
      assert store.Keys - (seen + {cursor}) == store.Keys - seen - {cursor};
      assert cursor in store.Keys - seen;
      seen := seen + {cursor};
      visited := trail;
      if manifest.parents == [] {
        more := false;
      } else if |manifest.parents| != 1 {
        WalkStuck(store, head, trail);
        return Err(NotLinear), visited;
      } else {
        TrailGrows(store, head, trail, manifest.parents[0]);
        cursor := manifest.parents[0];
      }
    }
    WalkEnds(store, head, visited, cursor, more);
    var missing := checkpoints - byChapter.Keys;
    if missing != {} {
      var chapter :| chapter in missing;
      forall walk | Walked(store, head, walk) && Resolvable(store, walk, checkpoints)
        ensures false
      {
        TrailWithin(store, head, walk, visited);
        TrailWithin(store, head, visited, walk);
      }
      return Err(Unresolved(chapter)), visited;
    }
    assert forall ch :: ch in checkpoints ==> ch !in missing;
    BoundResolves(store, visited, checkpoints, byChapter);
    BoundMeans(store, visited, checkpoints, byChapter);
    return Ok(byChapter), visited;
  }

  lemma BoundMeans(store: Store, path: seq<Commit>, checkpoints: set<nat>, byChapter: map<nat, Commit>)
    requires AllReadable(store, path) && Bound(store, path, checkpoints, byChapter) && byChapter.Keys == checkpoints
    ensures forall n :: n in checkpoints ==> byChapter[n] in path
    ensures forall n, c :: n in checkpoints && c in path ==> (HasChapters(store, c, n) <==> c == byChapter[n])
  {
    forall n | n in checkpoints
      ensures byChapter[n] in path && HasChapters(store, byChapter[n], n)
    {
      var i :| 0 <= i < |path| && path[i] == byChapter[n] && ChapterCount(store, path[i]) == n;
    }
    forall n, c | n in checkpoints && c in path && HasChapters(store, c, n)
      ensures c == byChapter[n]
    {
      var i :| 0 <= i < |path| && path[i] == c;
    }
  }

  lemma WalkEnds(store: Store, head: Commit, visited: seq<Commit>, cursor: Commit, more: bool)
    requires Distinct(visited) && AllReadable(store, visited)
    requires more ==> cursor in visited && Trail(store, head, visited + [cursor])
    requires !more ==> visited != [] && Trail(store, head, visited) && store[visited[|visited| - 1]].parents == []
    ensures Walked(store, head, visited)
  {
    if more {
      var trail := visited + [cursor];
      assert forall i :: 0 <= i < |visited| ==> trail[i] == visited[i];
      assert trail[|visited| - 1 + 1] == cursor;
      assert store[trail[|visited| - 1]].parents == [trail[|visited| - 1 + 1]];
    }
  }

  /** No walk gets past an unreadable commit or one with several parents. */
  lemma WalkStuck(store: Store, head: Commit, trail: seq<Commit>)
    requires Trail(store, head, trail) && Distinct(trail)
    requires var last := trail[|trail| - 1]; !TextAt(store, last) || |store[last].parents| > 1
    ensures forall walk :: !Walked(store, head, walk)
  {
    forall walk | Walked(store, head, walk)
      ensures false
    {
      TrailWithin(store, head, trail, walk);
      WalkNode(store, head, walk, |trail| - 1);
    }
  }

  lemma WalkNode(store: Store, head: Commit, walk: seq<Commit>, n: nat)
    requires Walked(store, head, walk) && n < |walk|
    ensures TextAt(store, walk[n]) && |store[walk[n]].parents| <= 1
  {
    if n < |walk| - 1 {
      assert store[walk[n]].parents == [walk[n + 1]];
    }
  }

  lemma TwiceBound(store: Store, head: Commit, visited: seq<Commit>, checkpoints: set<nat>,
                   byChapter: map<nat, Commit>, commit: Commit)
    requires AllReadable(store, visited) && Bound(store, visited, checkpoints, byChapter)
    requires Trail(store, head, visited + [commit]) && Distinct(visited + [commit])
    requires TextAt(store, commit) && ChapterCount(store, commit) in byChapter
    ensures forall walk :: !(Walked(store, head, walk) && Resolvable(store, walk, checkpoints))
  {
    var ch := ChapterCount(store, commit);
    var i :| 0 <= i < |visited| && visited[i] == byChapter[ch] && ChapterCount(store, visited[i]) == ch;
    forall walk | Walked(store, head, walk)
      ensures !Resolvable(store, walk, checkpoints)
    {
      TrailWithin(store, head, visited + [commit], walk);
      assert walk[i] == (visited + [commit])[i] && walk[|visited|] == (visited + [commit])[|visited|];
      assert CountIs(store, walk, i, ch) && CountIs(store, walk, |visited|, ch);
      assert ch in checkpoints ==> !UniqueAt(store, walk, ch);
    }
  }

  lemma BoundResolves(store: Store, path: seq<Commit>, checkpoints: set<nat>, byChapter: map<nat, Commit>)
    requires AllReadable(store, path) && Distinct(path)
    requires Bound(store, path, checkpoints, byChapter) && checkpoints <= byChapter.Keys
    ensures Resolvable(store, path, checkpoints) && byChapter.Keys == checkpoints
  {
    forall ch | ch in checkpoints
      ensures UniqueAt(store, path, ch)
    {
      assert ch in byChapter;
      var i :| 0 <= i < |path| && path[i] == byChapter[ch] && ChapterCount(store, path[i]) == ch;
      assert CountIs(store, path, i, ch);
    }
  }

  // ----------------------------------------------------- the two listing lookups

  /** The position of the first listed commit with that many chapters, or the
      length of the listing. */
  function FirstWith(store: Store, listing: seq<Commit>, chapter: nat): (i: nat)
    requires AllReadable(store, listing)
    ensures i <= |listing|
    ensures i < |listing| ==> ChapterCount(store, listing[i]) == chapter
    ensures forall j :: 0 <= j < i ==> ChapterCount(store, listing[j]) != chapter
  {
    if listing == [] then 0
    else if ChapterCount(store, listing[0]) == chapter then 0
    else
      assert forall j :: 0 < j < |listing| ==> listing[j] == listing[1..][j - 1];
      1 + FirstWith(store, listing[1..], chapter)
  }

  /** `_commit_at_checkpoint`: the first commit wins, and later ones are not even
      loaded. */
  method CommitAtCheckpoint(store: Store, listing: seq<Commit>, checkpoint: nat) returns (result: Result<Commit, Error>)
    ensures AllReadable(store, listing) ==>
      result == (var i := FirstWith(store, listing, checkpoint);
                 if i < |listing| then Ok(listing[i]) else Err(Unresolved(checkpoint)))
    ensures result.Ok? ==> exists i ::
      0 <= i < |listing| && listing[i] == result.value && AllReadable(store, listing[..i + 1])
      && ChapterCount(store, listing[i]) == checkpoint
    ensures result.Ok? ==> result.value in listing && HasChapters(store, result.value, checkpoint)
    ensures AllReadable(store, listing) ==> (result.Err? <==> forall c :: c in listing ==> !HasChapters(store, c, checkpoint))
  {
    for n := 0 to |listing|
      invariant AllReadable(store, listing[..n])
      invariant forall j :: 0 <= j < n ==> TextAt(store, listing[j]) && ChapterCount(store, listing[j]) != checkpoint
    {
      var commit := listing[n];
      if commit !in store {
        return Err(Missing);
      }
      if store[commit].text.Unreadable? {
        return Err(BadArtifact);
      }
      assert forall j :: 0 <= j < n + 1 ==> listing[..n + 1][j] == listing[j];
      if |store[commit].text.value.chapters| == checkpoint {
        return Ok(commit);
      }
    }
    return Err(Unresolved(checkpoint));
  }

  /** The last listed commit with that many chapters stands at `i`. */
  ghost predicate LastAt(store: Store, listing: seq<Commit>, i: nat, chapter: nat)
    requires AllReadable(store, listing)
  {
    && i < |listing| && CountIs(store, listing, i, chapter)
    && forall j :: i < j < |listing| ==> !CountIs(store, listing, j, chapter)
  }

  /** Each chapter count is bound to the last listed commit that has it. */
  ghost predicate LastWins(store: Store, listing: seq<Commit>, byChapter: map<nat, Commit>)
    requires AllReadable(store, listing)
  {
    && (forall ch :: ch in byChapter ==> exists i: nat :: LastAt(store, listing, i, ch) && listing[i] == byChapter[ch])
    && (forall i :: 0 <= i < |listing| ==> ChapterCount(store, listing[i]) in byChapter)
  }

  /** `_checkpoint_commits`: every listed commit is loaded and the last wins. */
  method CheckpointCommits(store: Store, listing: seq<Commit>, checkpoints: seq<nat>)
    returns (result: Result<map<nat, Commit>, Error>)
    ensures result.Ok? ==>
      && AllReadable(store, listing) && result.value.Keys == (set c | c in checkpoints)
      && exists all :: LastWins(store, listing, all) && forall c :: c in checkpoints ==> c in all && result.value[c] == all[c]
    ensures result.Ok? ==> forall n :: n in checkpoints ==> result.value[n] in listing && HasChapters(store, result.value[n], n)
    ensures result.Err? && AllReadable(store, listing) ==>
      exists c :: c in checkpoints && result.error == Unresolved(c) && FirstWith(store, listing, c) == |listing|
  {
    var byChapter: map<nat, Commit> := map[];
    for n := 0 to |listing|
      invariant AllReadable(store, listing[..n]) && LastWins(store, listing[..n], byChapter)
    {
      var commit := listing[n];
      if commit !in store {
        assert !TextAt(store, listing[n]);
        return Err(Missing);
      }
      if store[commit].text.Unreadable? {
        assert !TextAt(store, listing[n]);
        return Err(BadArtifact);
      }
      LastWinsGrows(store, listing[..n], byChapter, commit);
      assert listing[..n + 1] == listing[..n] + [commit];
      byChapter := byChapter[|store[commit].text.value.chapters| := commit];
    }
    assert listing[..|listing|] == listing;
    var n := 0;
    while n < |checkpoints|
      invariant 0 <= n <= |checkpoints|
      invariant forall i :: 0 <= i < n ==> checkpoints[i] in byChapter
    {
      if checkpoints[n] !in byChapter {
        return Err(Unresolved(checkpoints[n]));
      }
      n := n + 1;
    }
    return Ok(map c | c in checkpoints :: byChapter[c]);
  }

  lemma LastWinsGrows(store: Store, listing: seq<Commit>, byChapter: map<nat, Commit>, commit: Commit)
    requires AllReadable(store, listing) && LastWins(store, listing, byChapter) && TextAt(store, commit)
    ensures AllReadable(store, listing + [commit])
    ensures LastWins(store, listing + [commit], byChapter[ChapterCount(store, commit) := commit])
  {
    var all, last := listing + [commit], ChapterCount(store, commit);
    var byChapter' := byChapter[last := commit];
    assert all[|listing|] == commit && forall i :: 0 <= i < |listing| ==> all[i] == listing[i];
    forall ch | ch in byChapter'
      ensures exists i: nat :: LastAt(store, all, i, ch) && all[i] == byChapter'[ch]
    {
      if ch == last {
        assert LastAt(store, all, |listing|, ch);
      } else {
        var i: nat :| LastAt(store, listing, i, ch) && listing[i] == byChapter[ch];
        assert forall j: nat :: i < j < |listing| ==> CountIs(store, all, j, ch) == CountIs(store, listing, j, ch);
        assert LastAt(store, all, i, ch);
      }
    }
  }

  /** When the listing holds exactly the walked commits, in whatever order, the
      first-wins and the last-wins lookup agree on every requested count if and
      only if the resolver's condition holds. */
  lemma LookupsAgreeExactly(store: Store, path: seq<Commit>, checkpoints: set<nat>, listing: seq<Commit>,
                            last: map<nat, Commit>)
    requires AllReadable(store, path) && Distinct(path)
    requires Distinct(listing) && (forall c :: c in listing <==> c in path)
    requires AllReadable(store, listing) && LastWins(store, listing, last)
    ensures Resolvable(store, path, checkpoints) <==>
      forall ch :: ch in checkpoints ==>
        var i := FirstWith(store, listing, ch); i < |listing| && ch in last && last[ch] == listing[i]
  {
    forall ch
      ensures UniqueAt(store, path, ch) <==>
        var i := FirstWith(store, listing, ch); i < |listing| && ch in last && last[ch] == listing[i]
    {
      UniqueMoves(store, path, listing, ch);
      UniqueMoves(store, listing, path, ch);
      UniqueMeansAgree(store, listing, last, ch);
    }
  }

  lemma UniqueMoves(store: Store, a: seq<Commit>, b: seq<Commit>, ch: nat)
    requires AllReadable(store, a) && AllReadable(store, b) && Distinct(b)
    requires forall c :: c in a <==> c in b
    ensures UniqueAt(store, a, ch) ==> UniqueAt(store, b, ch)
  {
    if UniqueAt(store, a, ch) {
      var i :| 0 <= i < |a| && CountIs(store, a, i, ch);
      assert a[i] in b;
      var k :| 0 <= k < |b| && b[k] == a[i];
      assert CountIs(store, b, k, ch);
      forall p, q | 0 <= p < q < |b|
        ensures !(CountIs(store, b, p, ch) && CountIs(store, b, q, ch))
      {
        assert b[p] in a && b[q] in a;
        var p' :| 0 <= p' < |a| && a[p'] == b[p];
        var q' :| 0 <= q' < |a| && a[q'] == b[q];
        assert p' != q';
        assert CountIs(store, a, p', ch) <==> CountIs(store, b, p, ch);
        assert CountIs(store, a, q', ch) <==> CountIs(store, b, q, ch);
      }
    }
  }

  lemma UniqueMeansAgree(store: Store, listing: seq<Commit>, last: map<nat, Commit>, ch: nat)
    requires AllReadable(store, listing) && Distinct(listing) && LastWins(store, listing, last)
    ensures UniqueAt(store, listing, ch) <==>
      var i := FirstWith(store, listing, ch); i < |listing| && ch in last && last[ch] == listing[i]
  {
    var i := FirstWith(store, listing, ch);
    if i < |listing| {
      assert CountIs(store, listing, i, ch);
      assert ChapterCount(store, listing[i]) in last;
      var k: nat :| LastAt(store, listing, k, ch) && listing[k] == last[ch];
      if UniqueAt(store, listing, ch) {
        assert i == k;
      }
      if listing[k] == listing[i] {
        assert k == i;
        assert UniqueAt(store, listing, ch);
      }
    }
  }

  /** All three lookups give the same commit for every requested count when the
      resolver succeeds and the listing holds exactly the commits it walked. */
  lemma ThreeLookupsAgree(store: Store, path: seq<Commit>, checkpoints: set<nat>, resolved: map<nat, Commit>,
                          listing: seq<Commit>, last: map<nat, Commit>, ch: nat)
    requires AllReadable(store, path) && Distinct(path) && Resolvable(store, path, checkpoints)
    requires resolved.Keys == checkpoints && Bound(store, path, checkpoints, resolved) && ch in checkpoints
    requires Distinct(listing) && (forall c :: c in listing <==> c in path)
    requires AllReadable(store, listing) && LastWins(store, listing, last)
    ensures var i := FirstWith(store, listing, ch);
      i < |listing| && ch in last && resolved[ch] == last[ch] == listing[i]
  {
    LookupsAgreeExactly(store, path, checkpoints, listing, last);
    var i := FirstWith(store, listing, ch);
    assert CountIs(store, listing, i, ch) && listing[i] in path;
    var k :| 0 <= k < |path| && path[k] == listing[i];
    assert ChapterCount(store, path[k]) == ch;
  }
}
