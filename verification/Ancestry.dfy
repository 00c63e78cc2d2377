/** Linear commit histories, and what it means to walk one. */
module Ancestry {
  import opened Sequences

  type Commit = string

  datatype Text = Text(rootHash: string, chapters: seq<string>)

  /** A stored manifest; `text` is what reading its text root yields, or None
      when the artifact cannot be read or parsed. */
  datatype Manifest = Manifest(project: string, text: ReadText, parents: seq<Commit>)

  datatype ReadText = Unreadable | Readable(value: Text)

  type Store = map<Commit, Manifest>

  /** Every commit but the last has the next one as its only parent. */
  predicate Trail(store: Store, start: Commit, path: seq<Commit>) {
    && path != [] && path[0] == start
    && (forall i :: 0 <= i < |path| - 1 ==> path[i] in store && store[path[i]].parents == [path[i + 1]])
  }

  /** The whole history of `start`: a trail that ends in a commit without parents. */
  predicate LinearHistory(store: Store, start: Commit, path: seq<Commit>) {
    && Trail(store, start, path)
    && path[|path| - 1] in store && store[path[|path| - 1]].parents == []
  }

  lemma {:induction false} SameTail(store: Store, start: Commit, path: seq<Commit>, i: nat, j: nat, k: nat)
    requires LinearHistory(store, start, path) && i < j < |path| && path[i] == path[j] && j + k < |path|
    ensures path[i + k] == path[j + k]
  {
    if k > 0 {
      SameTail(store, start, path, i, j, k - 1);
      assert store[path[i + k - 1]].parents == [path[i + k]];
      assert store[path[j + k - 1]].parents == [path[j + k]];
    }
  }

  lemma HistoryNode(store: Store, start: Commit, path: seq<Commit>, n: nat)
    requires LinearHistory(store, start, path) && n < |path|
    ensures path[n] in store
    ensures store[path[n]].parents == if n < |path| - 1 then [path[n + 1]] else []
  {
  }

  /** A history that ends repeats no commit. */
  lemma HistoryDistinct(store: Store, start: Commit, path: seq<Commit>)
    requires LinearHistory(store, start, path)
    ensures Distinct(path)
  {
    forall i, j | 0 <= i < j < |path|
      ensures path[i] != path[j]
    {
      if path[i] == path[j] {
        SameTail(store, start, path, i, j, |path| - 1 - j);
        HistoryNode(store, start, path, i + (|path| - 1 - j));
        assert false;
      }
    }
  }

  /** Every trail is the beginning of the history, if there is one. */
  lemma {:induction false} TrailBegins(store: Store, start: Commit, trail: seq<Commit>, path: seq<Commit>)
    requires Trail(store, start, trail) && LinearHistory(store, start, path)
    ensures trail <= path
  {
    if |trail| > 1 {
      var front := trail[..|trail| - 1];
      TrailBegins(store, start, front, path);
      var k := |front| - 1;
      assert front[k] == path[k] == trail[k];
      assert store[trail[k]].parents == [trail[k + 1]];
      assert |path| > |front|;
      assert store[path[k]].parents == [path[k + 1]];
      assert trail == front + [trail[k + 1]];
    }
  }

  /** A commit has at most one history. */
  lemma HistoryUnique(store: Store, start: Commit, a: seq<Commit>, b: seq<Commit>)
    requires LinearHistory(store, start, a) && LinearHistory(store, start, b)
    ensures a == b
  {
    TrailBegins(store, start, a, b);
    TrailBegins(store, start, b, a);
  }

  /** `commit` is reached from `start` through any parents. */
  ghost predicate Ancestor(store: Store, start: Commit, commit: Commit) {
    exists path :: AncestorPath(store, start, commit, path)
  }

  ghost predicate AncestorPath(store: Store, start: Commit, commit: Commit, path: seq<Commit>) {
    && path != [] && path[0] == start && path[|path| - 1] == commit
    && forall i :: 0 <= i < |path| - 1 ==> path[i] in store && path[i + 1] in store[path[i]].parents
  }

  lemma {:induction false} OnHistory(store: Store, start: Commit, path: seq<Commit>, other: seq<Commit>, n: nat)
    requires LinearHistory(store, start, path)
    requires other != [] && other[0] == start && n < |other|
    requires forall i :: 0 <= i < |other| - 1 ==> other[i] in store && other[i + 1] in store[other[i]].parents
    ensures n < |path| && other[n] == path[n]
  {
    if n > 0 {
      OnHistory(store, start, path, other, n - 1);
      assert other[n - 1 + 1] in store[other[n - 1]].parents;
      assert n < |path|;
      assert store[path[n - 1]].parents == [path[n - 1 + 1]];
    }
  }

  /** The history holds exactly the ancestors of its start. */
  lemma HistoryIsAncestry(store: Store, start: Commit, path: seq<Commit>)
    requires LinearHistory(store, start, path)
    ensures forall commit :: commit in path <==> Ancestor(store, start, commit)
  {
    forall commit
      ensures commit in path <==> Ancestor(store, start, commit)
    {
      if commit in path {
        var n :| 0 <= n < |path| && path[n] == commit;
        var front := path[..n + 1];
        forall i | 0 <= i < |front| - 1
          ensures front[i] in store && front[i + 1] in store[front[i]].parents
        {
          assert store[path[i]].parents == [path[i + 1]];
        }
        assert AncestorPath(store, start, commit, front);
      }
      if Ancestor(store, start, commit) {
        var other :| AncestorPath(store, start, commit, other);
        OnHistory(store, start, path, other, |other| - 1);
      }
    }
  }

  /** One more step along the only parent. */
  lemma TrailGrows(store: Store, start: Commit, trail: seq<Commit>, next: Commit)
    requires Trail(store, start, trail)
    requires trail[|trail| - 1] in store && store[trail[|trail| - 1]].parents == [next]
    ensures Trail(store, start, trail + [next])
  {
  }

  /** Where the history cannot go on, there is none. */
  lemma NoHistory(store: Store, start: Commit, trail: seq<Commit>)
    requires Trail(store, start, trail)
    requires var last := trail[|trail| - 1];
      || last !in store || |store[last].parents| > 1
      || last in trail[..|trail| - 1]
    ensures forall path :: !LinearHistory(store, start, path)
  {
    forall path | LinearHistory(store, start, path)
      ensures false
    {
      TrailBegins(store, start, trail, path);
      HistoryDistinct(store, start, path);
      var n := |trail| - 1;
      assert path[n] == trail[n];
      HistoryNode(store, start, path, n);
    }
  }
}
