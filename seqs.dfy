/** Sequence operations shared by both implementations: concatenation of batches, the
    first-n slice, filtering, and deduplication that keeps the first element of each key. */
module Seqs {

  /** `a` occurs in `b` in the same order, possibly with gaps. */
  ghost predicate IsSubseq<T>(a: seq<T>, b: seq<T>)
    decreases |b|
  {
    a == [] || (b != [] && ((a[0] == b[0] && IsSubseq(a[1..], b[1..])) || IsSubseq(a, b[1..])))
  }

  /** Python's `list.extend` repeated, JavaScript's `Array.prototype.flat()`. */
  function Flatten<T>(xss: seq<seq<T>>): seq<T> {
    if xss == [] then [] else xss[0] + Flatten(xss[1..])
  }

  /** Python's `xs[:n]`, JavaScript's `xs.slice(0, n)`. */
  function Take<T>(xs: seq<T>, n: nat): (r: seq<T>)
    ensures |r| <= n && |r| <= |xs|
    ensures |xs| <= n ==> r == xs
    ensures xs[..|r|] == r
  {
    if |xs| <= n then xs else xs[..n]
  }

  function Filter<T>(xs: seq<T>, f: T -> bool): seq<T> {
    if xs == [] then [] else (if f(xs[0]) then [xs[0]] else []) + Filter(xs[1..], f)
  }

  /** Filtering keeps every passing element as often as it occurs, and no other. */
  lemma {:induction false} FilterCount<T>(xs: seq<T>, f: T -> bool, u: T)
    ensures multiset(Filter(xs, f))[u] == if f(u) then multiset(xs)[u] else 0
  {
    if xs != [] {
      FilterCount(xs[1..], f, u);
      assert xs == [xs[0]] + xs[1..];
    }
  }

  /** The keys of all elements of `xs`. */
  function KeySet<T, K>(xs: seq<T>, key: T -> K): set<K> {
    if xs == [] then {} else {key(xs[0])} + KeySet(xs[1..], key)
  }

  /** Walk `xs` in order, keeping an element when its key is neither in `seen` nor the key
      of an element kept before it; the set of keys grows as elements are kept. */
  function KeepNew<T, K>(seen: set<K>, xs: seq<T>, key: T -> K): seq<T>
    decreases |xs|
  {
    if xs == [] then []
    else if key(xs[0]) in seen then KeepNew(seen, xs[1..], key)
    else [xs[0]] + KeepNew(seen + {key(xs[0])}, xs[1..], key)
  }

  /** `[...new Set(xs)]`: each distinct element once, at its first occurrence. */
  function Distinct<T(==)>(xs: seq<T>): seq<T> {
    KeepNew({}, xs, (x: T) => x)
  }

  lemma {:induction false} FlattenAppend<T>(a: seq<seq<T>>, b: seq<seq<T>>)
    ensures Flatten(a + b) == Flatten(a) + Flatten(b)
  {
    if a == [] {
      assert a + b == b;
    } else {
      assert (a + b)[1..] == a[1..] + b;
      FlattenAppend(a[1..], b);
    }
  }

  /** Extending by one more batch appends that batch. */
  lemma FlattenSnoc<T>(a: seq<seq<T>>, b: seq<T>)
    ensures Flatten(a + [b]) == Flatten(a) + b
  {
    FlattenAppend(a, [b]);
    assert Flatten([b]) == b + Flatten([b][1..]);
  }

  /** Every element of a flattened list comes from one of the parts, and every element of a
      part is in the flattened list. */
  lemma {:induction false} FlattenMembers<T>(xss: seq<seq<T>>, x: T)
    ensures x in Flatten(xss) <==> exists i :: 0 <= i < |xss| && x in xss[i]
  {
    if xss != [] {
      FlattenMembers(xss[1..], x);
      assert forall i :: 1 <= i < |xss| ==> xss[i] == xss[1..][i - 1];
      if x in Flatten(xss[1..]) {
        var i :| 0 <= i < |xss[1..]| && x in xss[1..][i];
        assert x in xss[i + 1];
      }
    }
  }

  lemma {:induction false} FilterAppend<T>(a: seq<T>, b: seq<T>, f: T -> bool)
    ensures Filter(a + b, f) == Filter(a, f) + Filter(b, f)
  {
    if a == [] {
      assert a + b == b;
    } else {
      var head := if f(a[0]) then [a[0]] else [];
      assert (a + b)[0] == a[0] && (a + b)[1..] == a[1..] + b;
      assert Filter(a + b, f) == head + Filter(a[1..] + b, f);
      FilterAppend(a[1..], b, f);
      assert Filter(a, f) == head + Filter(a[1..], f);
    }
  }

  /** `x` survives the filter exactly when it is in `xs` and satisfies `f`. */
  lemma {:induction false} FilterMembers<T>(xs: seq<T>, f: T -> bool, x: T)
    ensures x in Filter(xs, f) <==> x in xs && f(x)
  {
    if xs != [] {
      FilterMembers(xs[1..], f, x);
      assert xs == [xs[0]] + xs[1..];
    }
  }

  /** The filter keeps the order of `xs`. */
  lemma {:induction false} FilterSubseq<T>(xs: seq<T>, f: T -> bool)
    ensures IsSubseq(Filter(xs, f), xs)
  {
    if xs != [] {
      FilterSubseq(xs[1..], f);
      var r := Filter(xs, f);
      if f(xs[0]) {
        assert r == [xs[0]] + Filter(xs[1..], f);
        assert r[0] == xs[0] && r[1..] == Filter(xs[1..], f);
      } else {
        assert r == Filter(xs[1..], f);
      }
    }
  }

  lemma {:induction false} PrefixSubseq<T>(xs: seq<T>, n: nat)
    requires n <= |xs|
    ensures IsSubseq(xs[..n], xs)
  {
    if n > 0 {
      PrefixSubseq(xs[1..], n - 1);
      assert xs[..n][0] == xs[0] && xs[..n][1..] == xs[1..][..n - 1];
    }
  }

  lemma TakeSubseq<T>(xs: seq<T>, n: nat)
    ensures IsSubseq(Take(xs, n), xs)
  {
    PrefixSubseq(xs, |Take(xs, n)|);
  }

  lemma {:induction false} SubseqTrans<T>(a: seq<T>, b: seq<T>, c: seq<T>)
    requires IsSubseq(a, b) && IsSubseq(b, c)
    ensures IsSubseq(a, c)
    decreases |c|
  {
    if a != [] {
      assert b != [] && c != [];
      if b[0] == c[0] && IsSubseq(b[1..], c[1..]) {
        if a[0] == b[0] && IsSubseq(a[1..], b[1..]) {
          SubseqTrans(a[1..], b[1..], c[1..]);
        } else {
          SubseqTrans(a, b[1..], c[1..]);
        }
      } else {
        SubseqTrans(a, b, c[1..]);
      }
    }
  }

  lemma {:induction false} KeySetAppend<T, K>(a: seq<T>, b: seq<T>, key: T -> K)
    ensures KeySet(a + b, key) == KeySet(a, key) + KeySet(b, key)
  {
    if a == [] {
      assert a + b == b;
    } else {
      assert (a + b)[1..] == a[1..] + b;
      KeySetAppend(a[1..], b, key);
    }
  }

  /** A key is in `KeySet(xs)` exactly when some element of `xs` has it. */
  lemma {:induction false} KeySetMembers<T, K>(xs: seq<T>, key: T -> K, k: K)
    ensures k in KeySet(xs, key) <==> exists i :: 0 <= i < |xs| && key(xs[i]) == k
  {
    if xs != [] {
      KeySetMembers(xs[1..], key, k);
      assert forall i :: 1 <= i < |xs| ==> xs[i] == xs[1..][i - 1];
      if k in KeySet(xs[1..], key) {
        var i :| 0 <= i < |xs[1..]| && key(xs[1..][i]) == k;
        assert key(xs[i + 1]) == k;
      }
    }
  }

  /** Deduplicating `a + b` is deduplicating `a`, then deduplicating `b` against everything
      seen so far: the state carried between two calls is exactly the grown key set. */
  lemma {:induction false} KeepNewAppend<T, K>(seen: set<K>, a: seq<T>, b: seq<T>, key: T -> K)
    ensures KeepNew(seen, a + b, key)
         == KeepNew(seen, a, key) + KeepNew(seen + KeySet(KeepNew(seen, a, key), key), b, key)
    decreases |a|
  {
    if a == [] {
      assert a + b == b;
      assert seen + KeySet(KeepNew(seen, a, key), key) == seen;
    } else {
      assert (a + b)[0] == a[0] && (a + b)[1..] == a[1..] + b;
      if key(a[0]) in seen {
        KeepNewAppend(seen, a[1..], b, key);
      } else {
        var seen' := seen + {key(a[0])};
        KeepNewAppend(seen', a[1..], b, key);
        var rest := KeepNew(seen', a[1..], key);
        assert KeepNew(seen, a, key) == [a[0]] + rest;
        assert ([a[0]] + rest)[1..] == rest;
        assert seen + KeySet([a[0]] + rest, key) == seen' + KeySet(rest, key);
      }
    }
  }

  /** One more element is kept exactly when its key is new. */
  lemma KeepNewSnoc<T, K>(seen: set<K>, xs: seq<T>, x: T, key: T -> K)
    ensures KeepNew(seen, xs + [x], key)
         == KeepNew(seen, xs, key)
            + (if key(x) in seen + KeySet(KeepNew(seen, xs, key), key) then [] else [x])
  {
    KeepNewAppend(seen, xs, [x], key);
    assert [x][1..] == [];
  }

  /** Every kept element comes from `xs` and has a key that was not already seen. */
  lemma {:induction false} KeepNewFresh<T, K>(seen: set<K>, xs: seq<T>, key: T -> K)
    ensures forall i :: 0 <= i < |KeepNew(seen, xs, key)| ==>
      KeepNew(seen, xs, key)[i] in xs && key(KeepNew(seen, xs, key)[i]) !in seen
    decreases |xs|
  {
    if xs != [] {
      if key(xs[0]) in seen {
        KeepNewFresh(seen, xs[1..], key);
      } else {
        KeepNewFresh(seen + {key(xs[0])}, xs[1..], key);
      }
    }
  }

  /** No two kept elements share a key. */
  lemma {:induction false} KeepNewDistinct<T, K>(seen: set<K>, xs: seq<T>, key: T -> K)
    ensures forall i, j :: 0 <= i < j < |KeepNew(seen, xs, key)| ==>
      key(KeepNew(seen, xs, key)[i]) != key(KeepNew(seen, xs, key)[j])
    decreases |xs|
  {
    if xs != [] {
      if key(xs[0]) in seen {
        KeepNewDistinct(seen, xs[1..], key);
      } else {
        var seen' := seen + {key(xs[0])};
        KeepNewDistinct(seen', xs[1..], key);
        KeepNewFresh(seen', xs[1..], key);
        var r := KeepNew(seen, xs, key);
        assert r == [xs[0]] + KeepNew(seen', xs[1..], key);
        forall i, j | 0 <= i < j < |r| ensures key(r[i]) != key(r[j]) {
          assert r[j] == KeepNew(seen', xs[1..], key)[j - 1];
          if i > 0 {
            assert r[i] == KeepNew(seen', xs[1..], key)[i - 1];
          }
        }
      }
    }
  }

  /** The first element of `xs` with a new key is always kept. */
  lemma {:induction false} KeepNewFirst<T, K>(seen: set<K>, xs: seq<T>, key: T -> K, i: nat)
    requires i < |xs| && key(xs[i]) !in seen
    requires forall j :: 0 <= j < i ==> key(xs[j]) != key(xs[i])
    ensures xs[i] in KeepNew(seen, xs, key)
    decreases i
  {
    if i > 0 {
      var seen' := if key(xs[0]) in seen then seen else seen + {key(xs[0])};
      assert key(xs[0]) != key(xs[i]);
      assert xs[1..][i - 1] == xs[i];
      forall j | 0 <= j < i - 1 ensures key(xs[1..][j]) != key(xs[1..][i - 1]) {
        assert xs[1..][j] == xs[j + 1];
      }
      KeepNewFirst(seen', xs[1..], key, i - 1);
    }
  }

  /** After the walk, the seen keys are the old ones plus the keys of all of `xs`, and that
      is also the old set plus the keys of the kept elements. */
  lemma {:induction false} KeepNewKeys<T, K>(seen: set<K>, xs: seq<T>, key: T -> K)
    ensures seen + KeySet(KeepNew(seen, xs, key), key) == seen + KeySet(xs, key)
    decreases |xs|
  {
    if xs != [] {
      if key(xs[0]) in seen {
        KeepNewKeys(seen, xs[1..], key);
      } else {
        var seen' := seen + {key(xs[0])};
        KeepNewKeys(seen', xs[1..], key);
        assert KeepNew(seen, xs, key) == [xs[0]] + KeepNew(seen', xs[1..], key);
        assert ([xs[0]] + KeepNew(seen', xs[1..], key))[1..] == KeepNew(seen', xs[1..], key);
      }
    }
  }

  /** Nothing is kept when every key has been seen. */
  lemma {:induction false} KeepNewAllSeen<T, K>(seen: set<K>, xs: seq<T>, key: T -> K)
    requires KeySet(xs, key) <= seen
    ensures KeepNew(seen, xs, key) == []
    decreases |xs|
  {
    if xs != [] {
      KeepNewAllSeen(seen, xs[1..], key);
    }
  }

  /** The kept elements are in the order of `xs`. */
  lemma {:induction false} KeepNewSubseq<T, K>(seen: set<K>, xs: seq<T>, key: T -> K)
    ensures IsSubseq(KeepNew(seen, xs, key), xs)
    decreases |xs|
  {
    if xs != [] {
      if key(xs[0]) in seen {
        KeepNewSubseq(seen, xs[1..], key);
      } else {
        var seen' := seen + {key(xs[0])};
        KeepNewSubseq(seen', xs[1..], key);
        var r := KeepNew(seen, xs, key);
        assert r[0] == xs[0] && r[1..] == KeepNew(seen', xs[1..], key);
      }
    }
  }

  /** Elements of `xs[1..]` other than `xs[0]` keep their relative order of first occurrence
      in `xs`. */
  lemma ShiftOrder<T>(xs: seq<T>, t: seq<T>)
    requires xs != []
    requires forall i :: 0 <= i < |t| ==> t[i] in xs[1..] && t[i] != xs[0]
    requires forall i, j :: 0 <= i < j < |t| ==> FirstIndex(xs[1..], t[i]) < FirstIndex(xs[1..], t[j])
    ensures forall i :: 0 <= i < |t| ==> t[i] in xs && FirstIndex(xs, t[i]) > 0
    ensures forall i, j :: 0 <= i < j < |t| ==> FirstIndex(xs, t[i]) < FirstIndex(xs, t[j])
  {
    forall i | 0 <= i < |t| ensures t[i] in xs && FirstIndex(xs, t[i]) == 1 + FirstIndex(xs[1..], t[i]) {
    }
  }

  /** Putting `xs[0]` in front of elements that occur first later keeps the order. */
  lemma ConsOrder<T>(xs: seq<T>, t: seq<T>)
    requires xs != []
    requires forall i :: 0 <= i < |t| ==> t[i] in xs && FirstIndex(xs, t[i]) > 0
    requires forall i, j :: 0 <= i < j < |t| ==> FirstIndex(xs, t[i]) < FirstIndex(xs, t[j])
    ensures forall i :: 0 <= i < |[xs[0]] + t| ==> ([xs[0]] + t)[i] in xs
    ensures forall i, j :: 0 <= i < j < |[xs[0]] + t| ==>
      FirstIndex(xs, ([xs[0]] + t)[i]) < FirstIndex(xs, ([xs[0]] + t)[j])
  {
    var r := [xs[0]] + t;
    assert FirstIndex(xs, xs[0]) == 0;
    forall i | 1 <= i < |r| ensures r[i] == t[i - 1] {
    }
  }

  /** The kept elements come in the order of their first occurrences in `xs`. */
  lemma {:induction false} KeepNewOrder<T, K>(seen: set<K>, xs: seq<T>, key: T -> K)
    ensures forall i :: 0 <= i < |KeepNew(seen, xs, key)| ==> KeepNew(seen, xs, key)[i] in xs
    ensures forall i, j :: 0 <= i < j < |KeepNew(seen, xs, key)| ==>
      FirstIndex(xs, KeepNew(seen, xs, key)[i]) < FirstIndex(xs, KeepNew(seen, xs, key)[j])
    decreases |xs|
  {
    if xs != [] {
      var seen' := if key(xs[0]) in seen then seen else seen + {key(xs[0])};
      var t := KeepNew(seen', xs[1..], key);
      KeepNewOrder(seen', xs[1..], key);
      KeepNewFresh(seen', xs[1..], key);
      forall i | 0 <= i < |t| ensures t[i] in xs[1..] && t[i] != xs[0] {
        assert key(t[i]) !in seen';
      }
      ShiftOrder(xs, t);
      if key(xs[0]) !in seen {
        assert KeepNew(seen, xs, key) == [xs[0]] + t;
        ConsOrder(xs, t);
      }
    }
  }

  /** `[...new Set(xs)]` holds exactly the elements of `xs`. */
  lemma DistinctMembers<T>(xs: seq<T>, x: T)
    ensures x in Distinct(xs) <==> x in xs
  {
    var id := (y: T) => y;
    KeepNewOrder({}, xs, id);
    if x in xs {
      KeepNewFirst({}, xs, id, FirstIndex(xs, x));
    }
  }

  /** `[...new Set(xs)]` has no duplicates, keeps the first occurrence of every element in
      the order of `xs`, and holds exactly the elements of `xs`. */
  lemma DistinctSpec<T>(xs: seq<T>)
    ensures forall i, j :: 0 <= i < j < |Distinct(xs)| ==> Distinct(xs)[i] != Distinct(xs)[j]
    ensures IsSubseq(Distinct(xs), xs)
    ensures forall x :: x in Distinct(xs) <==> x in xs
    ensures forall i, j :: 0 <= i < j < |Distinct(xs)| ==>
      FirstIndex(xs, Distinct(xs)[i]) < FirstIndex(xs, Distinct(xs)[j])
  {
    var id := (x: T) => x;
    KeepNewDistinct({}, xs, id);
    KeepNewSubseq({}, xs, id);
    KeepNewOrder({}, xs, id);
    forall x ensures x in Distinct(xs) <==> x in xs {
      DistinctMembers(xs, x);
    }
  }

  /** Index of the first occurrence of `x` in `xs`. */
  ghost function FirstIndex<T>(xs: seq<T>, x: T): (k: nat)
    requires x in xs
    ensures k < |xs| && xs[k] == x
    ensures forall j :: 0 <= j < k ==> xs[j] != x
  {
    if xs[0] == x then 0 else 1 + FirstIndex(xs[1..], x)
  }
}
