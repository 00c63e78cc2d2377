/** Strict total orders, Python's lexicographic comparison of sequences, and
    the list that `sorted` returns for a set of distinct keys. */
module Ordering {
  import opened Sequences

  /** `lt` is a strict total order. */
  ghost predicate StrictTotal<T(!new)>(lt: (T, T) -> bool) {
    && (forall x :: !lt(x, x))
    && (forall x, y, z :: lt(x, y) && lt(y, z) ==> lt(x, z))
    && (forall x, y :: lt(x, y) || x == y || lt(y, x))
  }

  /** Python's `a < b` for strings, tuples and lists of comparable items. */
  predicate LexLess<T(==)>(lt: (T, T) -> bool, a: seq<T>, b: seq<T>) {
    if b == [] then false
    else if a == [] then true
    else if a[0] == b[0] then LexLess(lt, a[1..], b[1..])
    else lt(a[0], b[0])
  }

  /** Up to `k` the two agree; there `a` ends or has the smaller item. */
  ghost predicate SmallerAt<T>(lt: (T, T) -> bool, a: seq<T>, b: seq<T>, k: nat) {
    && k <= |a| && k < |b| && (forall i :: 0 <= i < k ==> a[i] == b[i])
    && (k < |a| ==> a[k] != b[k] && lt(a[k], b[k]))
  }

  /** `a` comes first exactly when it is a proper beginning of `b`, or has the
      smaller item where they first differ. */
  lemma {:induction false} LexMeans<T>(lt: (T, T) -> bool, a: seq<T>, b: seq<T>)
    ensures LexLess(lt, a, b) <==> exists k: nat :: SmallerAt(lt, a, b, k)
  {
    if b == [] || a == [] || a[0] != b[0] {
      if b != [] && (a == [] || lt(a[0], b[0])) {
        assert SmallerAt(lt, a, b, 0);
      }
    } else {
      LexMeans(lt, a[1..], b[1..]);
      if k: nat :| SmallerAt(lt, a[1..], b[1..], k) {
        assert forall i :: 0 < i < k + 1 ==> a[i] == a[1..][i - 1] && b[i] == b[1..][i - 1];
        assert SmallerAt(lt, a, b, k + 1);
      }
      if k: nat :| SmallerAt(lt, a, b, k) {
        assert SmallerAt(lt, a[1..], b[1..], k - 1);
      }
    }
  }

  lemma {:induction false} LexTransitive<T(!new)>(lt: (T, T) -> bool, a: seq<T>, b: seq<T>, c: seq<T>)
    requires StrictTotal(lt)
    requires LexLess(lt, a, b) && LexLess(lt, b, c)
    ensures LexLess(lt, a, c)
  {
    if a != [] && a[0] == b[0] && b[0] == c[0] {
      LexTransitive(lt, a[1..], b[1..], c[1..]);
    }
  }

  lemma {:induction false} LexTotal<T(!new)>(lt: (T, T) -> bool, a: seq<T>, b: seq<T>)
    requires StrictTotal(lt)
    ensures LexLess(lt, a, b) || a == b || LexLess(lt, b, a)
    ensures !(LexLess(lt, a, b) && LexLess(lt, b, a))
    ensures !LexLess(lt, a, a)
  {
    if a != [] {
      LexTotal(lt, a[1..], a[1..]);
      if b != [] && a[0] == b[0] {
        LexTotal(lt, a[1..], b[1..]);
        if a[1..] == b[1..] {
          assert a == [a[0]] + a[1..] && b == [b[0]] + b[1..];
        }
      }
    }
  }

  /** The lexicographic order over a strict total order is one. */
  lemma LexStrictTotal<T(!new)>(lt: (T, T) -> bool)
    requires StrictTotal(lt)
    ensures StrictTotal((a: seq<T>, b: seq<T>) => LexLess(lt, a, b))
  {
    forall a: seq<T>, b: seq<T>
      ensures LexLess(lt, a, b) || a == b || LexLess(lt, b, a)
      ensures !LexLess(lt, a, a)
    {
      LexTotal(lt, a, b);
    }
    forall a: seq<T>, b: seq<T>, c: seq<T> | LexLess(lt, a, b) && LexLess(lt, b, c)
      ensures LexLess(lt, a, c)
    {
      LexTransitive(lt, a, b, c);
    }
  }

  /** Increasing, hence without repetition. */
  ghost predicate Increasing<T>(lt: (T, T) -> bool, s: seq<T>) {
    forall i, j :: 0 <= i < j < |s| ==> lt(s[i], s[j])
  }

  lemma ElementsEmpty<T>(s: seq<T>)
    ensures Elements(s) == {} <==> s == []
  {
    if s != [] {
      assert s[0] in Elements(s);
    }
  }

  lemma ElementsConcat<T>(a: seq<T>, b: seq<T>)
    ensures Elements(a + b) == Elements(a) + Elements(b)
  {
    forall x ensures x in a + b <==> x in a || x in b {
    }
  }

  /** `s` is what `sorted` returns for the distinct keys `keys`. */
  ghost predicate SortedListing<T>(lt: (T, T) -> bool, keys: set<T>, s: seq<T>) {
    Increasing(lt, s) && Elements(s) == keys
  }

  /** A set has at most one sorted listing: `sorted` does not depend on the
      order in which its argument was enumerated. */
  lemma {:induction false} SortedListingUnique<T(!new)>(lt: (T, T) -> bool, keys: set<T>, s: seq<T>, t: seq<T>)
    requires StrictTotal(lt)
    requires SortedListing(lt, keys, s) && SortedListing(lt, keys, t)
    ensures s == t
    decreases |s|
  {
    ElementsEmpty(s);
    ElementsEmpty(t);
    if s != [] {
      assert s[0] in Elements(t);
      assert t[0] in Elements(s);
      assert s[0] == t[0];
      var rest := keys - {s[0]};
      assert SortedListing(lt, rest, s[1..]) by { DropFirst(lt, keys, s); }
      assert SortedListing(lt, rest, t[1..]) by { DropFirst(lt, keys, t); }
      SortedListingUnique(lt, rest, s[1..], t[1..]);
      assert s == [s[0]] + s[1..] && t == [t[0]] + t[1..];
    }
  }

  lemma DropFirst<T(!new)>(lt: (T, T) -> bool, keys: set<T>, s: seq<T>)
    requires StrictTotal(lt)
    requires s != [] && SortedListing(lt, keys, s)
    ensures SortedListing(lt, keys - {s[0]}, s[1..])
  {
    forall x
      ensures x in Elements(s[1..]) <==> x in keys - {s[0]}
    {
      if x in keys - {s[0]} {
        var i :| 0 <= i < |s| && s[i] == x;
        assert s[1..][i - 1] == x;
      }
      if x in s[1..] {
        var i :| 0 <= i < |s[1..]| && s[1..][i] == x;
        assert s[i + 1] == x && lt(s[0], s[i + 1]);
        assert x in Elements(s);
      }
    }
  }

  function Insert<T(!new)>(lt: (T, T) -> bool, s: seq<T>, x: T): (r: seq<T>)
    ensures Elements(r) == Elements(s) + {x}
  {
    if s == [] || lt(x, s[0]) then
      ElementsConcat([x], s);
      [x] + s
    else
      var tail := Insert(lt, s[1..], x);
      ElementsConcat([s[0]], tail);
      ElementsConcat([s[0]], s[1..]);
      assert s == [s[0]] + s[1..];
      [s[0]] + tail
  }

  lemma {:induction false} InsertKeepsIncreasing<T(!new)>(lt: (T, T) -> bool, s: seq<T>, x: T)
    requires StrictTotal(lt) && Increasing(lt, s) && x !in s
    ensures Increasing(lt, Insert(lt, s, x))
  {
    if s != [] && !lt(x, s[0]) {
      InsertKeepsIncreasing(lt, s[1..], x);
      var tail := Insert(lt, s[1..], x);
      forall j | 0 <= j < |tail| ensures lt(s[0], tail[j]) {
        assert tail[j] in Elements(tail);
      }
    }
  }

  lemma InsertListing<T(!new)>(lt: (T, T) -> bool, keys: set<T>, s: seq<T>, x: T)
    requires StrictTotal(lt) && SortedListing(lt, keys, s) && x !in keys
    ensures SortedListing(lt, keys + {x}, Insert(lt, s, x))
  {
    assert x !in Elements(s);
    InsertKeepsIncreasing(lt, s, x);
  }

  /** The value of `sorted(keys)`; by SortedListingUnique there is only one. */
  ghost function Sorted<T(!new)>(lt: (T, T) -> bool, keys: set<T>): (s: seq<T>)
    requires StrictTotal(lt)
    ensures SortedListing(lt, keys, s)
  {
    if keys == {} then []
    else
      var x :| x in keys;
      var rest := Sorted(lt, keys - {x});
      InsertListing(lt, keys - {x}, rest, x);
      assert keys - {x} + {x} == keys;
      Insert(lt, rest, x)
  }

  /** `sorted` over a set: the keys arrive in an arbitrary order. */
  method SortSet<T(==, !new)>(lt: (T, T) -> bool, keys: set<T>) returns (s: seq<T>)
    requires StrictTotal(lt)
    ensures s == Sorted(lt, keys)
  {
    s := [];
    var todo := keys;
    while todo != {}
      invariant todo <= keys
      invariant SortedListing(lt, keys - todo, s)
      decreases todo
    {
      var x :| x in todo;
      InsertListing(lt, keys - todo, s, x);
      s := Insert(lt, s, x);
      assert keys - (todo - {x}) == keys - todo + {x};
      todo := todo - {x};
    }
    assert keys - todo == keys;
    SortedListingUnique(lt, keys, s, Sorted(lt, keys));
  }

  predicate CharLess(a: char, b: char) {
    a < b
  }

  /** The order of Python strings. */
  predicate StringLess(a: string, b: string) {
    LexLess(CharLess, a, b)
  }

  /** Up to `k` the texts agree; there the first ends or has the smaller code point. */
  ghost predicate TextBefore(a: string, b: string, k: nat) {
    && k <= |a| && k < |b| && (forall i :: 0 <= i < k ==> a[i] == b[i])
    && (k < |a| ==> a[k] as int < b[k] as int)
  }

  /** Strings compare by the code points where they first differ. */
  lemma StringLessMeans(a: string, b: string)
    ensures StringLess(a, b) <==> exists k: nat :: TextBefore(a, b, k)
  {
    LexMeans(CharLess, a, b);
    forall k: nat
      ensures SmallerAt(CharLess, a, b, k) <==> TextBefore(a, b, k)
    {
    }
  }

  lemma StringLessStrictTotal()
    ensures StrictTotal(StringLess)
  {
    LexStrictTotal(CharLess);
    var lex := (a: string, b: string) => LexLess(CharLess, a, b);
    assert forall a: string, b: string :: StringLess(a, b) == lex(a, b);
  }
}
