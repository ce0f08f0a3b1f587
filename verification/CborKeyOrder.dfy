/** Length-first key order (RFC 8949, section 4.2.3) and the stable sort by it. */
module KeyOrder {
  import opened CborValue

  predicate LexLeq(a: Bytes, b: Bytes) {
    a == [] || (b != [] && (a[0] < b[0] || (a[0] == b[0] && LexLeq(a[1..], b[1..]))))
  }

  /** The comparison `sort_by` is given. */
  predicate KeyLeq(a: Bytes, b: Bytes) {
    |a| < |b| || (|a| == |b| && LexLeq(a, b))
  }

  lemma {:induction false} LexTotal(a: Bytes, b: Bytes)
    ensures LexLeq(a, b) || LexLeq(b, a)
    ensures LexLeq(a, b) && LexLeq(b, a) ==> a == b
  {
    if a != [] && b != [] && a[0] == b[0] {
      LexTotal(a[1..], b[1..]);
      assert a == [a[0]] + a[1..] && b == [b[0]] + b[1..];
    }
  }

  lemma {:induction false} LexTransitive(a: Bytes, b: Bytes, c: Bytes)
    requires LexLeq(a, b) && LexLeq(b, c)
    ensures LexLeq(a, c)
  {
    if a != [] && a[0] == b[0] == c[0] {
      LexTransitive(a[1..], b[1..], c[1..]);
    }
  }

  lemma {:induction false} KeyTotal(a: Bytes, b: Bytes)
    ensures KeyLeq(a, b) || KeyLeq(b, a)
    ensures KeyLeq(a, b) && KeyLeq(b, a) ==> a == b
    ensures KeyLeq(a, a)
  {
    LexTotal(a, b);
    LexTotal(a, a);
  }

  lemma {:induction false} KeyTransitive(a: Bytes, b: Bytes, c: Bytes)
    requires KeyLeq(a, b) && KeyLeq(b, c)
    ensures KeyLeq(a, c)
  {
    if |a| == |b| == |c| {
      LexTransitive(a, b, c);
    }
  }

  /** `x` before the first element whose key is not below its own. */
  function Insert<T>(x: T, xs: seq<T>, key: T -> Bytes): seq<T> {
    if xs == [] || KeyLeq(key(x), key(xs[0])) then [x] + xs
    else [xs[0]] + Insert(x, xs[1..], key)
  }

  /** The stable sort of `xs` by `key`. */
  function Sort<T>(xs: seq<T>, key: T -> Bytes): (ys: seq<T>)
    ensures |ys| == |xs|
  {
    if xs == [] then []
    else
      InsertLength(xs[0], Sort(xs[1..], key), key);
      Insert(xs[0], Sort(xs[1..], key), key)
  }

  lemma {:induction false} InsertLength<T>(x: T, xs: seq<T>, key: T -> Bytes)
    ensures |Insert(x, xs, key)| == |xs| + 1
  {
    if xs != [] && !KeyLeq(key(x), key(xs[0])) {
      InsertLength(x, xs[1..], key);
    }
  }

  predicate Sorted<T>(xs: seq<T>, key: T -> Bytes) {
    forall i, j | 0 <= i < j < |xs| :: KeyLeq(key(xs[i]), key(xs[j]))
  }

  /** The elements with a given key, in order. */
  function WithKey<T>(xs: seq<T>, key: T -> Bytes, k: Bytes): seq<T> {
    if xs == [] then []
    else (if key(xs[0]) == k then [xs[0]] else []) + WithKey(xs[1..], key, k)
  }

  lemma {:induction false} InsertSorted<T>(x: T, xs: seq<T>, key: T -> Bytes)
    requires Sorted(xs, key)
    ensures Sorted(Insert(x, xs, key), key)
    ensures forall y | y in Insert(x, xs, key) :: y == x || y in xs
    ensures x in Insert(x, xs, key) && forall y | y in xs :: y in Insert(x, xs, key)
  {
    if xs == [] {
    } else if KeyLeq(key(x), key(xs[0])) {
      forall j | 0 <= j < |xs| ensures KeyLeq(key(x), key(xs[j])) {
        if j > 0 {
          KeyTransitive(key(x), key(xs[0]), key(xs[j]));
        }
      }
    } else {
      InsertSorted(x, xs[1..], key);
      var rest := Insert(x, xs[1..], key);
      KeyTotal(key(x), key(xs[0]));
      forall j | 0 <= j < |rest| ensures KeyLeq(key(xs[0]), key(rest[j])) {
        assert rest[j] in rest;
        if rest[j] != x {
          var i :| 0 <= i < |xs[1..]| && xs[1..][i] == rest[j];
          assert rest[j] == xs[i + 1];
        }
      }
    }
  }

  lemma {:induction false} InsertWithKey<T>(x: T, xs: seq<T>, key: T -> Bytes, k: Bytes)
    ensures WithKey(Insert(x, xs, key), key, k) == WithKey([x] + xs, key, k)
  {
    assert ([x] + xs)[1..] == xs;
    if xs != [] && !KeyLeq(key(x), key(xs[0])) {
      KeyTotal(key(x), key(x));
      var rest := Insert(x, xs[1..], key);
      InsertWithKey(x, xs[1..], key, k);
      assert ([xs[0]] + rest)[1..] == rest;
      assert ([x] + xs[1..])[1..] == xs[1..];
    }
  }

  /** What a stable sort promises: sorted, the same elements, and those with
      the same key in the order they came in. */
  lemma {:induction false} SortIsStable<T>(xs: seq<T>, key: T -> Bytes, k: Bytes)
    ensures Sorted(Sort(xs, key), key)
    ensures WithKey(Sort(xs, key), key, k) == WithKey(xs, key, k)
    ensures forall y :: y in Sort(xs, key) <==> y in xs
  {
    if xs != [] {
      var rest := Sort(xs[1..], key);
      SortIsStable(xs[1..], key, k);
      InsertSorted(xs[0], rest, key);
      InsertWithKey(xs[0], rest, key, k);
      assert ([xs[0]] + rest)[1..] == rest;
      assert xs == [xs[0]] + xs[1..];
    }
  }

  /** And nothing else does: a sorted sequence that keeps the order of equal
      keys is this one, so any stable sort computes it. */
  lemma {:induction false} StableSortIsUnique<T>(xs: seq<T>, ys: seq<T>, key: T -> Bytes)
    requires Sorted(ys, key)
    requires forall k :: WithKey(ys, key, k) == WithKey(xs, key, k)
    ensures ys == Sort(xs, key)
  {
    forall k ensures WithKey(ys, key, k) == WithKey(Sort(xs, key), key, k) {
      SortIsStable(xs, key, k);
    }
    SortIsStable(xs, key, []);
    SortedByKeys(ys, Sort(xs, key), key);
  }

  lemma {:induction false} SortedByKeys<T>(xs: seq<T>, ys: seq<T>, key: T -> Bytes)
    requires Sorted(xs, key) && Sorted(ys, key)
    requires forall k :: WithKey(xs, key, k) == WithKey(ys, key, k)
    ensures xs == ys
  {
    if xs == [] {
      assert ys != [] ==> WithKey(ys, key, key(ys[0])) != WithKey(xs, key, key(ys[0]));
    } else {
      SameFirst(xs, ys, key);
      forall k ensures WithKey(xs[1..], key, k) == WithKey(ys[1..], key, k) {
        TailWithKey(xs, key, k);
        TailWithKey(ys, key, k);
      }
      SortedByKeys(xs[1..], ys[1..], key);
      assert xs == [xs[0]] + xs[1..] && ys == [ys[0]] + ys[1..];
    }
  }

  lemma {:induction false} SameFirst<T>(xs: seq<T>, ys: seq<T>, key: T -> Bytes)
    requires Sorted(xs, key) && Sorted(ys, key) && xs != []
    requires forall k :: WithKey(xs, key, k) == WithKey(ys, key, k)
    ensures ys != [] && xs[0] == ys[0]
  {
    var a := key(xs[0]);
    assert WithKey(xs, key, a)[0] == xs[0];
    var j := FirstWithKey(ys, key, a);
    var b := key(ys[0]);
    assert WithKey(ys, key, b)[0] == ys[0];
    var i := FirstWithKey(xs, key, b);
    KeyTotal(a, a);
    KeyTotal(b, b);
    assert KeyLeq(a, b) && KeyLeq(b, a);
    KeyTotal(a, b);
  }

  lemma {:induction false} TailWithKey<T>(xs: seq<T>, key: T -> Bytes, k: Bytes)
    requires xs != []
    ensures WithKey(xs[1..], key, k) == if key(xs[0]) == k then WithKey(xs, key, k)[1..] else WithKey(xs, key, k)
  {
  }

  lemma {:induction false} FirstWithKey<T>(xs: seq<T>, key: T -> Bytes, k: Bytes) returns (i: nat)
    requires WithKey(xs, key, k) != []
    ensures i < |xs| && key(xs[i]) == k
  {
    if key(xs[0]) == k {
      i := 0;
    } else {
      i := FirstWithKey(xs[1..], key, k);
      i := i + 1;
    }
  }

  lemma {:induction false} SortOfSorted<T>(xs: seq<T>, key: T -> Bytes)
    requires Sorted(xs, key)
    ensures Sort(xs, key) == xs
  {
    if xs != [] {
      SortOfSorted(xs[1..], key);
      if |xs| > 1 {
        assert xs[1..][0] == xs[1];
      }
    }
  }
}
