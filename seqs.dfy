/** Generic facts about sequences used by the table model: distinctness,
    subsequences and pandas' keep-first de-duplication. */
module Seqs {

  predicate Distinct<T(==)>(xs: seq<T>) {
    forall i, j :: 0 <= i < j < |xs| ==> xs[i] != xs[j]
  }

  /** `a` is obtained from `b` by deleting elements, keeping the order. */
  predicate IsSubsequence<T(==)>(a: seq<T>, b: seq<T>)
    decreases |b|
  {
    a == [] ||
    (b != [] &&
      ((a[|a| - 1] == b[|b| - 1] && IsSubsequence(a[..|a| - 1], b[..|b| - 1]))
       || IsSubsequence(a, b[..|b| - 1])))
  }

  /** The set of keys of the elements of `xs`. */
  function KeysOf<T, K(==)>(xs: seq<T>, key: T -> K): set<K> {
    set i | 0 <= i < |xs| :: key(xs[i])
  }

  /** No two elements of `xs` share a key. */
  ghost predicate UniqueKeys<T, K>(xs: seq<T>, key: T -> K) {
    forall i, j :: 0 <= i < j < |xs| ==> key(xs[i]) != key(xs[j])
  }

  /** Element `i` of `xs` is the first one with its key. */
  ghost predicate FirstOfItsKey<T, K>(xs: seq<T>, key: T -> K, i: nat) {
    i < |xs| && forall j :: 0 <= j < i ==> key(xs[j]) != key(xs[i])
  }

  /** `drop_duplicates(subset=..., keep='first')`: an element survives when
      no earlier element has the same key. */
  function KeepFirst<T, K(==)>(xs: seq<T>, key: T -> K): seq<T>
    decreases |xs|
  {
    if xs == [] then []
    else
      var init := xs[..|xs| - 1];
      if key(xs[|xs| - 1]) in KeysOf(init, key) then KeepFirst(init, key)
      else KeepFirst(init, key) + [xs[|xs| - 1]]
  }

  lemma KeysOfSnoc<T, K>(xs: seq<T>, x: T, key: T -> K)
    ensures KeysOf(xs + [x], key) == KeysOf(xs, key) + {key(x)}
  {
    var ys := xs + [x];
    assert forall i :: 0 <= i < |xs| ==> ys[i] == xs[i];
    assert ys[|xs|] == x;
  }

  lemma {:induction false} KeepFirstKeys<T, K>(xs: seq<T>, key: T -> K)
    ensures KeysOf(KeepFirst(xs, key), key) == KeysOf(xs, key)
    decreases |xs|
  {
    if xs != [] {
      var init, last := xs[..|xs| - 1], xs[|xs| - 1];
      assert xs == init + [last];
      KeysOfSnoc(init, last, key);
      KeepFirstKeys(init, key);
      if key(last) !in KeysOf(init, key) {
        KeysOfSnoc(KeepFirst(init, key), last, key);
      }
    }
  }

  lemma {:induction false} KeepFirstUnique<T, K>(xs: seq<T>, key: T -> K)
    ensures UniqueKeys(KeepFirst(xs, key), key)
    decreases |xs|
  {
    if xs != [] {
      var init, last := xs[..|xs| - 1], xs[|xs| - 1];
      KeepFirstUnique(init, key);
      if key(last) !in KeysOf(init, key) {
        KeepFirstKeys(init, key);
        var r := KeepFirst(init, key);
        forall i | 0 <= i < |r| ensures key(r[i]) != key(last) {
          assert key(r[i]) in KeysOf(r, key);
        }
      }
    }
  }

  lemma {:induction false} KeepFirstSubsequence<T, K>(xs: seq<T>, key: T -> K)
    ensures IsSubsequence(KeepFirst(xs, key), xs)
    decreases |xs|
  {
    if xs != [] {
      var init, last := xs[..|xs| - 1], xs[|xs| - 1];
      KeepFirstSubsequence(init, key);
      var r := KeepFirst(init, key);
      if key(last) in KeysOf(init, key) {
        if r != [] { assert IsSubsequence(r, init); }
      } else {
        assert (r + [last])[..|r|] == r;
      }
    }
  }

  /** Every survivor of keep-first is the first element of the input with its key. */
  lemma {:induction false} KeepFirstFirsts<T, K>(xs: seq<T>, key: T -> K, k: nat)
    requires k < |KeepFirst(xs, key)|
    ensures exists i :: 0 <= i < |xs| && KeepFirst(xs, key)[k] == xs[i] && FirstOfItsKey(xs, key, i)
    decreases |xs|
  {
    var init, last := xs[..|xs| - 1], xs[|xs| - 1];
    var n := |xs| - 1;
    var r := KeepFirst(init, key);
    if k < |r| {
      KeepFirstFirsts(init, key, k);
      var i :| 0 <= i < |init| && r[k] == init[i] && FirstOfItsKey(init, key, i);
      assert xs[i] == init[i];
      assert FirstOfItsKey(xs, key, i);
    } else {
      assert key(last) !in KeysOf(init, key);
      forall j | 0 <= j < n ensures key(xs[j]) != key(xs[n]) {
        assert xs[j] == init[j];
        assert key(init[j]) in KeysOf(init, key);
      }
      assert FirstOfItsKey(xs, key, n);
    }
  }

  /** An element of `xs` sharing its key with the first element of that key
      comes no earlier than it. */
  lemma FirstOfItsKeyLeast<T, K>(xs: seq<T>, key: T -> K, i: nat, m: nat)
    requires FirstOfItsKey(xs, key, i) && m < |xs| && key(xs[m]) == key(xs[i])
    ensures i <= m
  {
  }

  /** Keep-first survivors come in the order of the first occurrences of
      their keys: of two survivors, the earlier one's key occurs first. */
  lemma {:induction false} KeepFirstOrder<T, K>(xs: seq<T>, key: T -> K, t: nat, u: nat, i: nat, j: nat)
    requires t < u < |KeepFirst(xs, key)|
    requires FirstOfItsKey(xs, key, i) && key(xs[i]) == key(KeepFirst(xs, key)[t])
    requires FirstOfItsKey(xs, key, j) && key(xs[j]) == key(KeepFirst(xs, key)[u])
    ensures i < j
    decreases |xs|
  {
    var init, last := xs[..|xs| - 1], xs[|xs| - 1];
    var n := |xs| - 1;
    var r := KeepFirst(init, key);
    KeepFirstSubsequence(init, key);
    SubsequenceMembers(r, init);
    assert r[t] in init;
    var mt :| 0 <= mt < |init| && init[mt] == r[t];
    assert xs[mt] == init[mt];
    FirstOfItsKeyLeast(xs, key, i, mt);
    assert FirstOfItsKey(init, key, i) by {
      forall k | 0 <= k < i ensures key(init[k]) != key(init[i]) {
        assert init[k] == xs[k] && init[i] == xs[i];
      }
    }
    if u < |r| {
      assert KeepFirst(xs, key)[u] == r[u];
      assert r[u] in init;
      var mu :| 0 <= mu < |init| && init[mu] == r[u];
      assert xs[mu] == init[mu];
      FirstOfItsKeyLeast(xs, key, j, mu);
      assert FirstOfItsKey(init, key, j) by {
        forall k | 0 <= k < j ensures key(init[k]) != key(init[j]) {
          assert init[k] == xs[k] && init[j] == xs[j];
        }
      }
      KeepFirstOrder(init, key, t, u, i, j);
    } else {
      assert KeepFirst(xs, key) == r + [last];
      assert key(xs[j]) == key(last);
      forall k | 0 <= k < n ensures key(xs[k]) != key(last) {
        assert xs[k] == init[k];
        assert key(init[k]) in KeysOf(init, key);
      }
    }
  }

  /** On input whose keys are already unique, keep-first removes nothing. */
  lemma {:induction false} KeepFirstOfUnique<T, K>(xs: seq<T>, key: T -> K)
    requires UniqueKeys(xs, key)
    ensures KeepFirst(xs, key) == xs
    decreases |xs|
  {
    if xs != [] {
      var init, last := xs[..|xs| - 1], xs[|xs| - 1];
      assert UniqueKeys(init, key);
      KeepFirstOfUnique(init, key);
      forall i | 0 <= i < |init| ensures key(init[i]) != key(last) {
        assert key(xs[i]) != key(xs[|xs| - 1]);
      }
      assert key(last) !in KeysOf(init, key);
      assert init + [last] == xs;
    }
  }

  /** Keep-first never lengthens its input. */
  lemma {:induction false} KeepFirstLength<T, K>(xs: seq<T>, key: T -> K)
    ensures |KeepFirst(xs, key)| <= |xs|
    decreases |xs|
  {
    if xs != [] {
      KeepFirstLength(xs[..|xs| - 1], key);
    }
  }

  /** Distinct elements have distinct keys under the identity key. */
  lemma DistinctIsUniqueIdentity<T>(xs: seq<T>)
    requires Distinct(xs)
    ensures UniqueKeys(xs, (x: T) => x)
  {
  }

  /** Unique keys make the elements themselves distinct. */
  lemma UniqueKeysDistinct<T, K>(xs: seq<T>, key: T -> K)
    requires UniqueKeys(xs, key)
    ensures Distinct(xs)
  {
    forall i, j | 0 <= i < j < |xs| ensures xs[i] != xs[j] {
      assert key(xs[i]) != key(xs[j]);
    }
  }

  /** The elements of `xs` that satisfy `p`, in order (a boolean-mask selection). */
  function Filter<T>(xs: seq<T>, p: T -> bool): (r: seq<T>)
    ensures |r| <= |xs|
    ensures forall k :: 0 <= k < |r| ==> p(r[k])
    ensures forall k :: 0 <= k < |r| ==> r[k] in xs
    ensures forall k :: 0 <= k < |xs| && p(xs[k]) ==> xs[k] in r
    decreases |xs|
  {
    if xs == [] then []
    else
      var init, last := xs[..|xs| - 1], xs[|xs| - 1];
      assert xs == init + [last];
      Filter(init, p) + (if p(last) then [last] else [])
  }

  /** Filtering keeps the order of the survivors. */
  lemma {:induction false} FilterSubsequence<T>(xs: seq<T>, p: T -> bool)
    ensures IsSubsequence(Filter(xs, p), xs)
    decreases |xs|
  {
    if xs != [] {
      var init, last := xs[..|xs| - 1], xs[|xs| - 1];
      FilterSubsequence(init, p);
      var r := Filter(init, p);
      assert Filter(xs, p) == r + (if p(last) then [last] else []);
      if p(last) {
        assert (r + [last])[..|r|] == r;
      } else {
        assert r + [] == r;
        if r != [] {
          assert IsSubsequence(r, init);
        }
      }
    }
  }

  /** Nothing is removed when every element passes. */
  lemma {:induction false} FilterAll<T>(xs: seq<T>, p: T -> bool)
    requires forall k :: 0 <= k < |xs| ==> p(xs[k])
    ensures Filter(xs, p) == xs
    decreases |xs|
  {
    if xs != [] {
      var init := xs[..|xs| - 1];
      FilterAll(init, p);
      assert init + [xs[|xs| - 1]] == xs;
    }
  }

  /** Every element of a subsequence is an element of the sequence. */
  lemma {:induction false} SubsequenceMembers<T>(a: seq<T>, b: seq<T>)
    requires IsSubsequence(a, b)
    ensures forall k :: 0 <= k < |a| ==> a[k] in b
    decreases |b|
  {
    if a != [] {
      var a', b' := a[..|a| - 1], b[..|b| - 1];
      if a[|a| - 1] == b[|b| - 1] && IsSubsequence(a', b') {
        SubsequenceMembers(a', b');
        forall k | 0 <= k < |a| ensures a[k] in b {
          if k < |a'| { assert a[k] == a'[k] && a'[k] in b'; }
        }
      } else {
        SubsequenceMembers(a, b');
      }
    }
  }

  /** Every sequence is a subsequence of itself. */
  lemma {:induction false} SubsequenceReflexive<T>(a: seq<T>)
    ensures IsSubsequence(a, a)
    decreases |a|
  {
    if a != [] {
      SubsequenceReflexive(a[..|a| - 1]);
    }
  }

  /** A subsequence is never longer than the sequence. */
  lemma {:induction false} SubsequenceLength<T>(a: seq<T>, b: seq<T>)
    requires IsSubsequence(a, b)
    ensures |a| <= |b|
    decreases |b|
  {
    if a != [] {
      if a[|a| - 1] == b[|b| - 1] && IsSubsequence(a[..|a| - 1], b[..|b| - 1]) {
        SubsequenceLength(a[..|a| - 1], b[..|b| - 1]);
      } else {
        SubsequenceLength(a, b[..|b| - 1]);
      }
    }
  }

  /** A subsequence of a sequence without repeats has none either. */
  lemma {:induction false} SubsequenceDistinct<T>(a: seq<T>, b: seq<T>)
    requires IsSubsequence(a, b) && Distinct(b)
    ensures Distinct(a)
    decreases |b|
  {
    if a != [] {
      var a', b' := a[..|a| - 1], b[..|b| - 1];
      assert Distinct(b');
      if a[|a| - 1] == b[|b| - 1] && IsSubsequence(a', b') {
        SubsequenceDistinct(a', b');
        SubsequenceMembers(a', b');
        forall i, j | 0 <= i < j < |a| ensures a[i] != a[j] {
          if j == |a| - 1 {
            assert a[i] == a'[i] && a'[i] in b';
          } else {
            assert a[i] == a'[i] && a[j] == a'[j];
          }
        }
      } else {
        SubsequenceDistinct(a, b');
      }
    }
  }

  /** The first position holding an element seen earlier, scanning from `k`;
      `|xs|` when there is none. */
  function RepeatFrom<T(==)>(xs: seq<T>, k: nat): (r: nat)
    requires k <= |xs|
    ensures k <= r <= |xs|
    ensures forall j :: k <= j < r ==> xs[j] !in xs[..j]
    ensures r < |xs| ==> xs[r] in xs[..r]
    decreases |xs| - k
  {
    if k == |xs| then k else if xs[k] in xs[..k] then k else RepeatFrom(xs, k + 1)
  }

  /** The first position holding an element seen earlier; `|xs|` exactly when
      the elements are distinct. */
  function FirstRepeat<T(==)>(xs: seq<T>): (r: nat)
    ensures r <= |xs|
    ensures r == |xs| <==> Distinct(xs)
    ensures r < |xs| ==> xs[r] in xs[..r]
  {
    var r := RepeatFrom(xs, 0);
    if r == |xs| then
      assert Distinct(xs) by {
        forall i, j | 0 <= i < j < |xs| ensures xs[i] != xs[j] {
          assert xs[j] !in xs[..j] && xs[i] == xs[..j][i];
        }
      }
      r
    else
      assert !Distinct(xs) by {
        var i :| 0 <= i < r && xs[..r][i] == xs[r];
      }
      r
  }

  /** Filtering a sequence without repeats leaves none. */
  lemma FilterDistinct<T>(xs: seq<T>, p: T -> bool)
    ensures Distinct(xs) ==> Distinct(Filter(xs, p))
  {
    if Distinct(xs) {
      FilterSubsequence(xs, p);
      SubsequenceDistinct(Filter(xs, p), xs);
    }
  }

  /** Nothing survives when no element passes. */
  lemma {:induction false} FilterNone<T>(xs: seq<T>, p: T -> bool)
    requires forall k :: 0 <= k < |xs| ==> !p(xs[k])
    ensures Filter(xs, p) == []
    decreases |xs|
  {
    if xs != [] {
      FilterNone(xs[..|xs| - 1], p);
    }
  }

  /** Element `x` of `xs` `Count(xs, x)` times. */
  function Count<T(==)>(xs: seq<T>, x: T): (r: nat)
    ensures r <= |xs|
    ensures r == 0 <==> x !in xs
    decreases |xs|
  {
    if xs == [] then 0
    else
      var init := xs[..|xs| - 1];
      assert xs == init + [xs[|xs| - 1]];
      Count(init, x) + (if xs[|xs| - 1] == x then 1 else 0)
  }

  lemma TakeAll<T>(xs: seq<T>)
    ensures xs[..|xs|] == xs
  {
  }

  lemma AppendAssociative<T>(a: seq<T>, b: seq<T>, c: seq<T>)
    ensures (a + b) + c == a + (b + c)
  {
  }

  lemma {:induction false} CountAppend<T>(a: seq<T>, b: seq<T>, x: T)
    ensures Count(a + b, x) == Count(a, x) + Count(b, x)
    decreases |b|
  {
    if b == [] {
      assert a + b == a;
    } else {
      var init := b[..|b| - 1];
      CountAppend(a, init, x);
      assert (a + b)[..|a + b| - 1] == a + init;
      assert (a + b)[|a + b| - 1] == b[|b| - 1];
    }
  }

  lemma CountOne<T>(x: T, y: T)
    ensures Count([x], y) == if x == y then 1 else 0
  {
    assert [x][..0] == [];
  }

  /** `x` occurs more than once exactly when some other position holds it too
      (`duplicated(keep=False)`). */
  lemma CountRepeated<T>(xs: seq<T>, i: nat)
    requires i < |xs|
    ensures Count(xs, xs[i]) > 1 <==> exists j :: 0 <= j < |xs| && j != i && xs[j] == xs[i]
  {
    var a, b := xs[..i], xs[i + 1..];
    CountAround(xs, i);
    if Count(xs, xs[i]) > 1 {
      OtherPosition(xs, i, a, b);
    }
    if exists j :: 0 <= j < |xs| && j != i && xs[j] == xs[i] {
      var j :| 0 <= j < |xs| && j != i && xs[j] == xs[i];
      if j < i { assert a[j] == xs[j]; } else { assert b[j - i - 1] == xs[j]; }
    }
  }

  lemma CountAround<T>(xs: seq<T>, i: nat)
    requires i < |xs|
    ensures Count(xs, xs[i]) == Count(xs[..i], xs[i]) + 1 + Count(xs[i + 1..], xs[i])
  {
    var x, a, b := xs[i], xs[..i], xs[i + 1..];
    var ax := a + [x];
    assert xs == ax + b;
    CountAppend(a, [x], x);
    CountOne(x, x);
    CountAppend(ax, b, x);
  }

  lemma OtherPosition<T>(xs: seq<T>, i: nat, a: seq<T>, b: seq<T>)
    requires i < |xs| && a == xs[..i] && b == xs[i + 1..]
    requires xs[i] in a || xs[i] in b
    ensures exists j :: 0 <= j < |xs| && j != i && xs[j] == xs[i]
  {
    if xs[i] in a {
      var j :| 0 <= j < |a| && a[j] == xs[i];
      assert xs[j] == a[j];
    } else {
      var j :| 0 <= j < |b| && b[j] == xs[i];
      assert xs[i + 1 + j] == b[j];
    }
  }

  /** The sizes of the groups `ds` within `xs`, added up. */
  function SumCounts<T(==)>(xs: seq<T>, ds: seq<T>): nat
    decreases |ds|
  {
    if ds == [] then 0 else SumCounts(xs, ds[..|ds| - 1]) + Count(xs, ds[|ds| - 1])
  }

  lemma {:induction false} SumCountsEmpty<T>(ds: seq<T>)
    ensures SumCounts([], ds) == 0
    decreases |ds|
  {
    if ds != [] {
      SumCountsEmpty(ds[..|ds| - 1]);
    }
  }

  lemma {:induction false} SumCountsSnoc<T>(xs: seq<T>, x: T, ds: seq<T>)
    ensures SumCounts(xs + [x], ds) == SumCounts(xs, ds) + Count(ds, x)
    decreases |ds|
  {
    if ds != [] {
      SumCountsSnoc(xs, x, ds[..|ds| - 1]);
      assert (xs + [x])[..|xs|] == xs;
    }
  }

  lemma {:induction false} CountOfDistinct<T>(ds: seq<T>, x: T)
    requires Distinct(ds) && x in ds
    ensures Count(ds, x) == 1
    decreases |ds|
  {
    var init := ds[..|ds| - 1];
    if ds[|ds| - 1] == x {
      assert x !in init by {
        forall k | 0 <= k < |init| ensures init[k] != x {
          assert init[k] == ds[k];
        }
      }
    } else {
      var k :| 0 <= k < |ds| && ds[k] == x;
      assert init[k] == x;
      CountOfDistinct(init, x);
    }
  }

  /** Over distinct groups that cover `xs`, the group sizes add up to `|xs|`. */
  lemma {:induction false} SumCountsCovers<T>(xs: seq<T>, ds: seq<T>)
    requires Distinct(ds) && forall k :: 0 <= k < |xs| ==> xs[k] in ds
    ensures SumCounts(xs, ds) == |xs|
    decreases |xs|
  {
    if xs == [] {
      SumCountsEmpty(ds);
    } else {
      var init, last := xs[..|xs| - 1], xs[|xs| - 1];
      assert forall k :: 0 <= k < |init| ==> init[k] == xs[k];
      SumCountsCovers(init, ds);
      SumCountsSnoc(init, last, ds);
      CountOfDistinct(ds, last);
      assert init + [last] == xs;
    }
  }

  /** Filtering twice is filtering once by both predicates. */
  lemma {:induction false} FilterFilter<T>(xs: seq<T>, p: T -> bool, q: T -> bool, pq: T -> bool)
    requires forall x :: pq(x) == (p(x) && q(x))
    ensures Filter(Filter(xs, p), q) == Filter(xs, pq)
    decreases |xs|
  {
    if xs != [] {
      var init, last := xs[..|xs| - 1], xs[|xs| - 1];
      FilterFilter(init, p, q, pq);
      var a := Filter(init, p);
      if p(last) {
        assert (a + [last])[..|a|] == a;
      } else {
        assert a + [] == a;
      }
    }
  }

  /** The positions listed grow strictly. */
  predicate Increasing(w: seq<nat>) {
    forall s, t :: 0 <= s < t < |w| ==> w[s] < w[t]
  }

  /** The elements of `xs` at positions `w`, in that order (`xs.loc[w]`). */
  function Pick<T>(xs: seq<T>, w: seq<nat>): (r: seq<T>)
    requires forall t :: 0 <= t < |w| ==> w[t] < |xs|
    ensures |r| == |w| && forall t :: 0 <= t < |w| ==> r[t] == xs[w[t]]
  {
    seq(|w|, t requires 0 <= t < |w| => xs[w[t]])
  }

  /** Picking at increasing positions gives a subsequence. */
  lemma {:induction false} PickSubsequence<T>(xs: seq<T>, w: seq<nat>)
    requires Increasing(w) && forall t :: 0 <= t < |w| ==> w[t] < |xs|
    ensures IsSubsequence(Pick(xs, w), xs)
    decreases |xs|
  {
    var a := Pick(xs, w);
    if w != [] {
      assert w[0] < |xs|;
      var ys, w' := xs[..|xs| - 1], w[..|w| - 1];
      if w[|w| - 1] == |xs| - 1 {
        assert forall t :: 0 <= t < |w'| ==> w'[t] < w[|w| - 1];
        PickSubsequence(ys, w');
        assert a[..|a| - 1] == Pick(ys, w');
      } else {
        assert forall t :: 0 <= t < |w| ==> w[t] <= w[|w| - 1];
        PickSubsequence(ys, w);
        assert Pick(ys, w) == a;
        assert a[..|a| - 1] == Pick(ys, w)[..|a| - 1];
        if IsSubsequence(a, ys) {
        }
      }
    }
  }
}
