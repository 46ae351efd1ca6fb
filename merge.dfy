/** `pd.merge(left, right, left_on=lk, right_on=rk, how=..., suffixes=(sl, sr))`
    for the two join kinds the pipeline uses. The output is described by its
    pairs: for each left row in order, one pair per matching right row in
    right order, or, in a left join, one pair padded with NaN when nothing
    matches. Keys match when their cells are equal. */
module Merge {
  import opened Base
  import opened Seqs
  import opened Frames

  datatype How = Left | Inner

  /** The positions among the first `n` right keys equal to `v`, ascending. */
  function MatchesUpTo(rkeys: seq<Cell>, v: Cell, n: nat): (r: seq<nat>)
    requires n <= |rkeys|
    ensures |r| <= n
  {
    if n == 0 then []
    else MatchesUpTo(rkeys, v, n - 1) + (if rkeys[n - 1] == v then [n - 1] else [])
  }

  /** The right rows whose key is `v`. */
  function Matches(rkeys: seq<Cell>, v: Cell): seq<nat> {
    MatchesUpTo(rkeys, v, |rkeys|)
  }

  /** `MatchesUpTo` lists exactly the matching positions, each once, ascending. */
  lemma {:induction false} MatchesUpToSpec(rkeys: seq<Cell>, v: Cell, n: nat)
    requires n <= |rkeys|
    ensures forall t :: 0 <= t < |MatchesUpTo(rkeys, v, n)| ==>
      MatchesUpTo(rkeys, v, n)[t] < n && rkeys[MatchesUpTo(rkeys, v, n)[t]] == v
    ensures forall j :: 0 <= j < n && rkeys[j] == v ==> j in MatchesUpTo(rkeys, v, n)
    ensures forall s, t :: 0 <= s < t < |MatchesUpTo(rkeys, v, n)| ==>
      MatchesUpTo(rkeys, v, n)[s] < MatchesUpTo(rkeys, v, n)[t]
  {
    if n > 0 {
      MatchesUpToSpec(rkeys, v, n - 1);
      var ms := MatchesUpTo(rkeys, v, n - 1);
      var r := MatchesUpTo(rkeys, v, n);
      assert forall t :: 0 <= t < |ms| ==> r[t] == ms[t];
    }
  }

  /** For each left key, the right rows it matches. */
  function MatchLists(lkeys: seq<Cell>, rkeys: seq<Cell>): (r: seq<seq<nat>>)
    ensures |r| == |lkeys|
    ensures forall i :: 0 <= i < |lkeys| ==> r[i] == Matches(rkeys, lkeys[i])
  {
    seq(|lkeys|, i requires 0 <= i < |lkeys| => Matches(rkeys, lkeys[i]))
  }

  /** One output row: a left row and the right row joined to it, if any. */
  datatype Pair = Pair(left: nat, right: Option<nat>)

  /** Left row `i` joined to each of the right rows `ms`, in order. */
  function Tag(i: nat, ms: seq<nat>): (r: seq<Pair>)
    ensures |r| == |ms|
    ensures forall t :: 0 <= t < |ms| ==> r[t] == Pair(i, Some(ms[t]))
  {
    seq(|ms|, t requires 0 <= t < |ms| => Pair(i, Some(ms[t])))
  }

  /** The output rows contributed by left row `i`, whose matches are `ms`. */
  function Block(ms: seq<nat>, how: How, i: nat): (r: seq<Pair>)
    ensures how == Left ==> |r| >= 1
    ensures |ms| > 0 ==> |r| == |ms|
    ensures |ms| == 0 ==> r == (if how == Left then [Pair(i, None)] else [])
    ensures |ms| > 0 ==> forall t :: 0 <= t < |ms| ==> r[t] == Pair(i, Some(ms[t]))
    ensures forall t :: 0 <= t < |r| ==> r[t].left == i
  {
    if |ms| == 0 then (if how == Left then [Pair(i, None)] else []) else Tag(i, ms)
  }

  /** The output rows contributed by the first `n` left rows, in order. */
  function Pairs(mls: seq<seq<nat>>, how: How, n: nat): seq<Pair>
    requires n <= |mls|
  {
    if n == 0 then [] else Pairs(mls, how, n - 1) + Block(mls[n - 1], how, n - 1)
  }

  /** A pair joins a left row to one of its matches, or, in a left join only,
      a left row without matches to nothing. */
  predicate PairFrom(mls: seq<seq<nat>>, how: How, n: nat, p: Pair)
    requires n <= |mls|
  {
    && p.left < n
    && (p.right.Some? ==> p.right.value in mls[p.left])
    && (p.right.None? ==> how == Left && |mls[p.left]| == 0)
  }

  lemma {:induction false} PairsFrom(mls: seq<seq<nat>>, how: How, n: nat)
    requires n <= |mls|
    ensures forall t :: 0 <= t < |Pairs(mls, how, n)| ==> PairFrom(mls, how, n, Pairs(mls, how, n)[t])
  {
    if n > 0 {
      PairsFrom(mls, how, n - 1);
      var ps: seq<Pair> := Pairs(mls, how, n - 1);
      var b: seq<Pair> := Block(mls[n - 1], how, n - 1);
      forall t | 0 <= t < |ps + b| ensures PairFrom(mls, how, n, (ps + b)[t]) {
        if t < |ps| {
          assert (ps + b)[t] == ps[t];
          assert PairFrom(mls, how, n - 1, ps[t]);
        } else {
          assert (ps + b)[t] == b[t - |ps|];
        }
      }
    }
  }

  /** Pairs come grouped by left row, in left order. */
  lemma {:induction false} PairsOrdered(mls: seq<seq<nat>>, how: How, n: nat)
    requires n <= |mls|
    ensures forall s, t :: 0 <= s < t < |Pairs(mls, how, n)| ==> Pairs(mls, how, n)[s].left <= Pairs(mls, how, n)[t].left
  {
    if n > 0 {
      PairsOrdered(mls, how, n - 1);
      PairsFrom(mls, how, n - 1);
      var ps: seq<Pair> := Pairs(mls, how, n - 1);
      var b: seq<Pair> := Block(mls[n - 1], how, n - 1);
      forall s, t | 0 <= s < t < |ps + b| ensures (ps + b)[s].left <= (ps + b)[t].left {
        if t < |ps| {
          assert (ps + b)[s] == ps[s] && (ps + b)[t] == ps[t];
        } else if s < |ps| {
          assert PairFrom(mls, how, n - 1, ps[s]);
          assert (ps + b)[s] == ps[s] && (ps + b)[t] == b[t - |ps|];
        } else {
          assert (ps + b)[s] == b[s - |ps|] && (ps + b)[t] == b[t - |ps|];
        }
      }
    }
  }

  /** Every left row with a match contributes an output row, and in a left
      join so does every other left row. */
  lemma {:induction false} JoinCoversRow(mls: seq<seq<nat>>, how: How, n: nat, i: nat)
    requires n <= |mls| && i < n && (how == Left || |mls[i]| > 0)
    ensures exists t :: 0 <= t < |Pairs(mls, how, n)| && Pairs(mls, how, n)[t].left == i
  {
    var ps: seq<Pair> := Pairs(mls, how, n - 1);
    var b: seq<Pair> := Block(mls[n - 1], how, n - 1);
    assert Pairs(mls, how, n) == ps + b;
    if i == n - 1 {
      assert Pairs(mls, how, n)[|ps|].left == i by {
        assert (ps + b)[|ps|] == b[0];
      }
    } else {
      JoinCoversRow(mls, how, n - 1, i);
      var t :| 0 <= t < |ps| && ps[t].left == i;
      assert Pairs(mls, how, n)[t].left == i by {
        assert (ps + b)[t] == ps[t];
      }
    }
  }

  /** A left join never has fewer rows than its left table. */
  lemma {:induction false} LeftJoinLength(mls: seq<seq<nat>>, n: nat)
    requires n <= |mls|
    ensures |Pairs(mls, Left, n)| >= n
  {
    if n > 0 {
      LeftJoinLength(mls, n - 1);
    }
  }

  /** A left row with two matches contributes two output rows, so a left join
      then has more rows than its left table. */
  lemma {:induction false} DoubleMatchAddsRow(mls: seq<seq<nat>>, n: nat, i: nat)
    requires n <= |mls| && i < n && |mls[i]| >= 2
    ensures |Pairs(mls, Left, n)| >= n + 1
    decreases n
  {
    PairsLength(mls, Left, n);
    if i < n - 1 {
      DoubleMatchAddsRow(mls, n - 1, i);
    } else {
      LeftJoinLength(mls, n - 1);
    }
  }

  lemma PairsLength(mls: seq<seq<nat>>, how: How, n: nat)
    requires 0 < n <= |mls|
    ensures |Pairs(mls, how, n)| == |Pairs(mls, how, n - 1)| + |Block(mls[n - 1], how, n - 1)|
    ensures how == Left ==> |Block(mls[n - 1], how, n - 1)| == if |mls[n - 1]| == 0 then 1 else |mls[n - 1]|
  {
  }

  /** When no left row has two matches, a left join has exactly one output row
      per left row: row `i` with its match or with padding. */
  lemma {:induction false} LeftJoinOneToOne(mls: seq<seq<nat>>, n: nat)
    requires n <= |mls| && forall i :: 0 <= i < |mls| ==> |mls[i]| <= 1
    ensures |Pairs(mls, Left, n)| == n
    ensures forall i :: 0 <= i < n ==>
      Pairs(mls, Left, n)[i] == Pair(i, if |mls[i]| == 0 then None else Some(mls[i][0]))
  {
    if n > 0 {
      LeftJoinOneToOne(mls, n - 1);
      var ps: seq<Pair> := Pairs(mls, Left, n - 1);
      var b: seq<Pair> := Block(mls[n - 1], Left, n - 1);
      assert Pairs(mls, Left, n) == ps + b;
      assert |b| == 1 && b[0] == Pair(n - 1, if |mls[n - 1]| == 0 then None else Some(mls[n - 1][0]));
      forall i | 0 <= i < n
        ensures (ps + b)[i] == Pair(i, if |mls[i]| == 0 then None else Some(mls[i][0]))
      {
        if i < n - 1 { assert (ps + b)[i] == ps[i]; }
      }
    }
  }

  /** When no left row has two matches, each left row gives at most one
      output row: the pairs' left rows strictly increase. */
  lemma {:induction false} AtMostOnePairEach(mls: seq<seq<nat>>, how: How, n: nat)
    requires n <= |mls| && forall i :: 0 <= i < |mls| ==> |mls[i]| <= 1
    ensures forall s, t :: 0 <= s < t < |Pairs(mls, how, n)| ==> Pairs(mls, how, n)[s].left < Pairs(mls, how, n)[t].left
  {
    if n > 0 {
      AtMostOnePairEach(mls, how, n - 1);
      PairsFrom(mls, how, n - 1);
      var ps: seq<Pair> := Pairs(mls, how, n - 1);
      var b: seq<Pair> := Block(mls[n - 1], how, n - 1);
      assert |b| <= 1;
      forall s, t | 0 <= s < t < |ps + b| ensures (ps + b)[s].left < (ps + b)[t].left {
        assert t < |ps| || s < |ps|;
        if t < |ps| {
          assert (ps + b)[s] == ps[s] && (ps + b)[t] == ps[t];
        } else {
          assert PairFrom(mls, how, n - 1, ps[s]);
          assert (ps + b)[s] == ps[s] && (ps + b)[t] == b[t - |ps|];
        }
      }
    }
  }

  /** A left row with two matches gives two output rows. */
  lemma {:induction false} TwoPairsFor(mls: seq<seq<nat>>, how: How, n: nat, i: nat)
    requires n <= |mls| && i < n && |mls[i]| >= 2
    ensures exists s, t :: 0 <= s < t < |Pairs(mls, how, n)| && Pairs(mls, how, n)[s].left == i && Pairs(mls, how, n)[t].left == i
  {
    var ps: seq<Pair> := Pairs(mls, how, n - 1);
    var b: seq<Pair> := Block(mls[n - 1], how, n - 1);
    assert Pairs(mls, how, n) == ps + b;
    if i == n - 1 {
      assert |b| >= 2 && b[0].left == i && b[1].left == i;
      TwoInSuffix(ps, b, i);
    } else {
      TwoPairsFor(mls, how, n - 1, i);
      TwoInPrefix(ps, b, i);
    }
  }

  lemma TwoInPrefix(ps: seq<Pair>, b: seq<Pair>, i: nat)
    requires exists s, t :: 0 <= s < t < |ps| && ps[s].left == i && ps[t].left == i
    ensures exists s, t :: 0 <= s < t < |ps + b| && (ps + b)[s].left == i && (ps + b)[t].left == i
  {
    var s, t :| 0 <= s < t < |ps| && ps[s].left == i && ps[t].left == i;
    assert (ps + b)[s] == ps[s] && (ps + b)[t] == ps[t];
  }

  lemma TwoInSuffix(ps: seq<Pair>, b: seq<Pair>, i: nat)
    requires |b| >= 2 && b[0].left == i && b[1].left == i
    ensures exists s, t :: 0 <= s < t < |ps + b| && (ps + b)[s].left == i && (ps + b)[t].left == i
  {
    assert (ps + b)[|ps|] == b[0] && (ps + b)[|ps| + 1] == b[1];
  }

  /** In an inner join every output row has a partner. */
  lemma InnerJoinAllMatched(mls: seq<seq<nat>>, n: nat)
    requires n <= |mls|
    ensures forall t :: 0 <= t < |Pairs(mls, Inner, n)| ==> Pairs(mls, Inner, n)[t].right.Some?
  {
    PairsFrom(mls, Inner, n);
  }

  /** Two matches for one key mean the right keys repeat. */
  lemma TwoMatchesRepeat(rkeys: seq<Cell>, v: Cell)
    ensures |Matches(rkeys, v)| >= 2 ==> !Distinct(rkeys)
  {
    MatchesUpToSpec(rkeys, v, |rkeys|);
    var ms := Matches(rkeys, v);
    if |ms| >= 2 {
      assert ms[0] < ms[1] && rkeys[ms[0]] == v == rkeys[ms[1]];
    }
  }

  /** Two right rows with one left row's key give that left row two matches. */
  lemma SharedKeyTwoMatches(lkeys: seq<Cell>, rkeys: seq<Cell>, i: nat, j1: nat, j2: nat)
    requires i < |lkeys| && j1 < j2 < |rkeys| && rkeys[j1] == lkeys[i] && rkeys[j2] == lkeys[i]
    ensures |MatchLists(lkeys, rkeys)[i]| >= 2
  {
    var ms := Matches(rkeys, lkeys[i]);
    MatchesUpToSpec(rkeys, lkeys[i], |rkeys|);
    assert j1 in ms && j2 in ms;
    var s :| 0 <= s < |ms| && ms[s] == j1;
    var t :| 0 <= t < |ms| && ms[t] == j2;
    assert s != t;
  }

  /** Unique right keys give each left key at most one match. */
  lemma UniqueKeysAtMostOne(lkeys: seq<Cell>, rkeys: seq<Cell>)
    requires Distinct(rkeys)
    ensures forall i :: 0 <= i < |lkeys| ==> |MatchLists(lkeys, rkeys)[i]| <= 1
  {
    forall i | 0 <= i < |lkeys| ensures |MatchLists(lkeys, rkeys)[i]| <= 1 {
      TwoMatchesRepeat(rkeys, lkeys[i]);
    }
  }

  /** A pair of a merge on key columns joins rows with equal keys; a padded
      pair is a left row whose key no right row has. */
  lemma PairsMatchKeys(lkeys: seq<Cell>, rkeys: seq<Cell>, how: How)
    ensures forall t :: 0 <= t < |Pairs(MatchLists(lkeys, rkeys), how, |lkeys|)| ==>
      var p := Pairs(MatchLists(lkeys, rkeys), how, |lkeys|)[t];
      && p.left < |lkeys|
      && (p.right.Some? ==> p.right.value < |rkeys| && rkeys[p.right.value] == lkeys[p.left])
      && (p.right.None? ==> how == Left && forall j :: 0 <= j < |rkeys| ==> rkeys[j] != lkeys[p.left])
  {
    var mls := MatchLists(lkeys, rkeys);
    PairsFrom(mls, how, |lkeys|);
    forall t | 0 <= t < |Pairs(mls, how, |lkeys|)|
      ensures var p := Pairs(mls, how, |lkeys|)[t];
        && p.left < |lkeys|
        && (p.right.Some? ==> p.right.value < |rkeys| && rkeys[p.right.value] == lkeys[p.left])
        && (p.right.None? ==> how == Left && forall j :: 0 <= j < |rkeys| ==> rkeys[j] != lkeys[p.left])
    {
      var p := Pairs(mls, how, |lkeys|)[t];
      assert PairFrom(mls, how, |lkeys|, p);
      MatchesUpToSpec(rkeys, lkeys[p.left], |rkeys|);
    }
  }

  /** Whether label `c` is suffixed: it is on both sides and is not the one
      shared join key. */
  predicate Overlaps(lcols: seq<string>, rcols: seq<string>, lk: string, rk: string, c: string) {
    c in lcols && c in rcols && !(lk == rk && c == lk)
  }

  /** The right columns carried into the output: all of them, except the key
      when both keys have one name (the output then holds it once). */
  function RightKept(rcols: seq<string>, lk: string, rk: string): (r: seq<string>)
    ensures Distinct(rcols) ==> Distinct(r)
    ensures forall c :: c in r ==> c in rcols
    ensures lk == rk ==> rk !in r
    ensures lk != rk ==> r == rcols
  {
    if lk == rk then Remaining(rcols, [rk]) else rcols
  }

  function Suffixed(lcols: seq<string>, rcols: seq<string>, lk: string, rk: string, c: string, sfx: string): string {
    if Overlaps(lcols, rcols, lk, rk, c) then c + sfx else c
  }

  /** The output header: left labels, then the kept right labels, each label
      found on both sides taking its side's suffix. */
  function MergedColumns(lcols: seq<string>, rcols: seq<string>, lk: string, rk: string, sl: string, sr: string): (r: seq<string>)
    ensures |r| == |lcols| + |RightKept(rcols, lk, rk)|
    ensures forall k :: 0 <= k < |lcols| ==> r[k] == Suffixed(lcols, rcols, lk, rk, lcols[k], sl)
    ensures forall k :: 0 <= k < |RightKept(rcols, lk, rk)| ==>
      r[|lcols| + k] == Suffixed(lcols, rcols, lk, rk, RightKept(rcols, lk, rk)[k], sr)
  {
    var kept := RightKept(rcols, lk, rk);
    seq(|lcols|, k requires 0 <= k < |lcols| => Suffixed(lcols, rcols, lk, rk, lcols[k], sl))
    + seq(|kept|, k requires 0 <= k < |kept| => Suffixed(lcols, rcols, lk, rk, kept[k], sr))
  }

  /** The cells a right row contributes: those under the kept labels. */
  function RightCells(right: Frame, lk: string, rk: string, row: Row): (r: Row)
    ensures |r| == |RightKept(right.columns, lk, rk)|
  {
    var kept := RightKept(right.columns, lk, rk);
    seq(|kept|, k requires 0 <= k < |kept| => At(right.columns, row, kept[k]))
  }

  /** The output row of one pair. */
  function JoinedRow(left: Frame, right: Frame, lk: string, rk: string, p: Pair): (r: Row)
    requires p.left < |left.rows| && (p.right.Some? ==> p.right.value < |right.rows|)
    ensures |r| == |left.rows[p.left]| + |RightKept(right.columns, lk, rk)|
    ensures r[..|left.rows[p.left]|] == left.rows[p.left]
    ensures forall k :: 0 <= k < |RightKept(right.columns, lk, rk)| ==>
      r[|left.rows[p.left]| + k] ==
        if p.right.Some? then At(right.columns, right.rows[p.right.value], RightKept(right.columns, lk, rk)[k]) else NaN
  {
    var pad := seq(|RightKept(right.columns, lk, rk)|, k => NaN);
    left.rows[p.left] + (if p.right.Some? then RightCells(right, lk, rk, right.rows[p.right.value]) else pad)
  }

  /** The pairs of `MergeFrames`: joined on the left and right key columns. */
  function MergePairs(left: Frame, right: Frame, lk: string, rk: string, how: How): seq<Pair> {
    Pairs(MatchLists(Column(left, lk), Column(right, rk)), how, |left.rows|)
  }

  /** The merge. A missing key column raises KeyError; suffixes that leave two
      columns with one label raise too (pandas refuses duplicate output labels). */
  function MergeFrames(left: Frame, right: Frame, lk: string, rk: string, how: How, sl: string, sr: string): (r: Result<Frame>)
    requires WellFormed(left) && WellFormed(right)
    ensures lk !in left.columns ==> r == Err(KeyError(lk))
    ensures lk in left.columns && rk !in right.columns ==> r == Err(KeyError(rk))
    ensures r.Ok? <==> lk in left.columns && rk in right.columns && Distinct(MergedColumns(left.columns, right.columns, lk, rk, sl, sr))
    ensures r.Ok? ==> WellFormed(r.value)
    ensures r.Ok? ==> r.value.columns == MergedColumns(left.columns, right.columns, lk, rk, sl, sr)
    ensures r.Ok? ==> |r.value.rows| == |MergePairs(left, right, lk, rk, how)|
    ensures r.Ok? ==> forall t :: 0 <= t < |r.value.rows| ==>
      var p := MergePairs(left, right, lk, rk, how)[t];
      && p.left < |left.rows|
      && (p.right.Some? ==> p.right.value < |right.rows| && Get(right, p.right.value, rk) == Get(left, p.left, lk))
      && (p.right.None? ==> how == Left && forall j :: 0 <= j < |right.rows| ==> Get(right, j, rk) != Get(left, p.left, lk))
      && r.value.rows[t] == JoinedRow(left, right, lk, rk, p)
  {
    if lk !in left.columns then Err(KeyError(lk))
    else if rk !in right.columns then Err(KeyError(rk))
    else
      var cols := MergedColumns(left.columns, right.columns, lk, rk, sl, sr);
      var k := FirstRepeat(cols);
      if k < |cols| then Err(DuplicateColumn(cols[k]))
      else
        var ps := MergePairs(left, right, lk, rk, how);
        PairsMatchKeys(Column(left, lk), Column(right, rk), how);
        var rows := seq(|ps|, t requires 0 <= t < |ps| => JoinedRow(left, right, lk, rk, ps[t]));
        Ok(Frame(cols, rows))
  }

  /** A left column that takes no suffix reads, in every output row, the
      value of the left row that row came from. */
  lemma MergeGetLeft(left: Frame, right: Frame, lk: string, rk: string, how: How, sl: string, sr: string, t: nat, c: string)
    requires WellFormed(left) && WellFormed(right) && MergeFrames(left, right, lk, rk, how, sl, sr).Ok?
    requires t < |MergeFrames(left, right, lk, rk, how, sl, sr).value.rows|
    requires c in left.columns && !Overlaps(left.columns, right.columns, lk, rk, c)
    ensures MergePairs(left, right, lk, rk, how)[t].left < |left.rows|
    ensures Get(MergeFrames(left, right, lk, rk, how, sl, sr).value, t, c) ==
      Get(left, MergePairs(left, right, lk, rk, how)[t].left, c)
  {
    var out := MergeFrames(left, right, lk, rk, how, sl, sr).value;
    var p := MergePairs(left, right, lk, rk, how)[t];
    var k := IndexOf(left.columns, c).value;
    assert out.columns[k] == c;
    IndexOfDistinct(out.columns, k);
    IndexOfDistinct(left.columns, k);
    assert out.rows[t][..|left.columns|] == left.rows[p.left];
    assert out.rows[t][k] == out.rows[t][..|left.columns|][k];
  }

  /** Under the merged header, a kept right label that takes no suffix reads
      a joined row's right cell. */
  lemma JoinedRowRight(left: Frame, right: Frame, lk: string, rk: string, sl: string, sr: string, p: Pair, c: string)
    requires WellFormed(left) && WellFormed(right) && Distinct(MergedColumns(left.columns, right.columns, lk, rk, sl, sr))
    requires p.left < |left.rows| && (p.right.Some? ==> p.right.value < |right.rows|)
    requires c in RightKept(right.columns, lk, rk) && !Overlaps(left.columns, right.columns, lk, rk, c)
    ensures At(MergedColumns(left.columns, right.columns, lk, rk, sl, sr), JoinedRow(left, right, lk, rk, p), c) ==
      if p.right.Some? then Get(right, p.right.value, c) else NaN
  {
    var cols := MergedColumns(left.columns, right.columns, lk, rk, sl, sr);
    var kept := RightKept(right.columns, lk, rk);
    var k := IndexOf(kept, c).value;
    var n := |left.columns|;
    assert cols[n + k] == c;
    IndexOfDistinct(cols, n + k);
    assert |left.rows[p.left]| == n;
  }

  /** A kept right column that takes no suffix reads the joined right row's
      value, or NaN on a padded row. */
  lemma MergeGetRight(left: Frame, right: Frame, lk: string, rk: string, how: How, sl: string, sr: string, t: nat, c: string)
    requires WellFormed(left) && WellFormed(right) && MergeFrames(left, right, lk, rk, how, sl, sr).Ok?
    requires t < |MergeFrames(left, right, lk, rk, how, sl, sr).value.rows|
    requires c in RightKept(right.columns, lk, rk) && !Overlaps(left.columns, right.columns, lk, rk, c)
    ensures MergePairs(left, right, lk, rk, how)[t].right.Some? ==>
      MergePairs(left, right, lk, rk, how)[t].right.value < |right.rows| &&
      Get(MergeFrames(left, right, lk, rk, how, sl, sr).value, t, c) ==
        Get(right, MergePairs(left, right, lk, rk, how)[t].right.value, c)
    ensures MergePairs(left, right, lk, rk, how)[t].right.None? ==>
      Get(MergeFrames(left, right, lk, rk, how, sl, sr).value, t, c) == NaN
  {
    var p := MergePairs(left, right, lk, rk, how)[t];
    JoinedRowRight(left, right, lk, rk, sl, sr, p, c);
  }

  /** A left join on a right key without repeats has one output row per left
      row, in left order. */
  lemma MergeLeftUnique(left: Frame, right: Frame, lk: string, rk: string, sl: string, sr: string)
    requires WellFormed(left) && WellFormed(right) && Distinct(Column(right, rk))
    ensures |MergePairs(left, right, lk, rk, Left)| == |left.rows|
    ensures forall i :: 0 <= i < |left.rows| ==> MergePairs(left, right, lk, rk, Left)[i].left == i
  {
    var lkeys, rkeys := Column(left, lk), Column(right, rk);
    UniqueKeysAtMostOne(lkeys, rkeys);
    LeftJoinOneToOne(MatchLists(lkeys, rkeys), |left.rows|);
  }

  /** Every left row reaches the output of a left join; of an inner join,
      every left row whose key some right row shares. */
  lemma MergeCovers(left: Frame, right: Frame, lk: string, rk: string, how: How, i: nat)
    requires WellFormed(left) && WellFormed(right) && i < |left.rows|
    requires how == Left || exists j :: 0 <= j < |right.rows| && Get(right, j, rk) == Get(left, i, lk)
    ensures exists t :: 0 <= t < |MergePairs(left, right, lk, rk, how)| && MergePairs(left, right, lk, rk, how)[t].left == i
  {
    var lkeys, rkeys := Column(left, lk), Column(right, rk);
    var mls := MatchLists(lkeys, rkeys);
    if how == Inner {
      var j :| 0 <= j < |right.rows| && Get(right, j, rk) == Get(left, i, lk);
      MatchesUpToSpec(rkeys, lkeys[i], |rkeys|);
      assert j in mls[i];
    }
    JoinCoversRow(mls, how, |left.rows|, i);
    assert MergePairs(left, right, lk, rk, how) == Pairs(mls, how, |left.rows|);
  }

  /** Two right rows sharing a left row's key make a left join longer than
      its left table. */
  lemma MergeLeftGrows(left: Frame, right: Frame, lk: string, rk: string, i: nat, j1: nat, j2: nat)
    requires WellFormed(left) && WellFormed(right) && i < |left.rows| && j1 < j2 < |right.rows|
    requires Get(right, j1, rk) == Get(left, i, lk) && Get(right, j2, rk) == Get(left, i, lk)
    ensures |MergePairs(left, right, lk, rk, Left)| > |left.rows|
  {
    var lkeys, rkeys := Column(left, lk), Column(right, rk);
    SharedKeyTwoMatches(lkeys, rkeys, i, j1, j2);
    DoubleMatchAddsRow(MatchLists(lkeys, rkeys), |left.rows|, i);
  }

  /** On a right key without repeats, each left row gives at most one output
      row: the output rows come from strictly increasing left rows. */
  lemma MergeUniqueRight(left: Frame, right: Frame, lk: string, rk: string, how: How)
    requires Distinct(Column(right, rk))
    ensures forall s, t :: 0 <= s < t < |MergePairs(left, right, lk, rk, how)| ==>
      MergePairs(left, right, lk, rk, how)[s].left < MergePairs(left, right, lk, rk, how)[t].left
  {
    var lkeys, rkeys := Column(left, lk), Column(right, rk);
    UniqueKeysAtMostOne(lkeys, rkeys);
    AtMostOnePairEach(MatchLists(lkeys, rkeys), how, |left.rows|);
  }

  /** Two right rows sharing a left row's key give that left row two output
      rows, in either join. */
  lemma MergeSharedKey(left: Frame, right: Frame, lk: string, rk: string, how: How, i: nat, j1: nat, j2: nat)
    requires i < |left.rows| && j1 < j2 < |right.rows|
    requires Get(right, j1, rk) == Get(left, i, lk) && Get(right, j2, rk) == Get(left, i, lk)
    ensures exists s, t :: (0 <= s < t < |MergePairs(left, right, lk, rk, how)| &&
      MergePairs(left, right, lk, rk, how)[s].left == i && MergePairs(left, right, lk, rk, how)[t].left == i)
  {
    var lkeys, rkeys := Column(left, lk), Column(right, rk);
    SharedKeyTwoMatches(lkeys, rkeys, i, j1, j2);
    TwoPairsFor(MatchLists(lkeys, rkeys), how, |left.rows|, i);
    assert MergePairs(left, right, lk, rk, how) == Pairs(MatchLists(lkeys, rkeys), how, |left.rows|);
  }

  /** A left label that takes no suffix is a label of the output. */
  lemma MergedKeepsLeft(lcols: seq<string>, rcols: seq<string>, lk: string, rk: string, sl: string, sr: string, c: string)
    requires c in lcols && !Overlaps(lcols, rcols, lk, rk, c)
    ensures c in MergedColumns(lcols, rcols, lk, rk, sl, sr)
  {
    var k :| 0 <= k < |lcols| && lcols[k] == c;
    assert MergedColumns(lcols, rcols, lk, rk, sl, sr)[k] == c;
  }

  /** On a right key without repeats, output row `i` of a left join is left
      row `i`, with its own cells under the labels that take no suffix. */
  lemma MergeUniqueLeftCells(left: Frame, right: Frame, lk: string, rk: string, sl: string, sr: string, i: nat)
    requires WellFormed(left) && WellFormed(right) && MergeFrames(left, right, lk, rk, Left, sl, sr).Ok?
    requires Distinct(Column(right, rk)) && i < |left.rows|
    ensures |MergeFrames(left, right, lk, rk, Left, sl, sr).value.rows| == |left.rows|
    ensures forall c :: c in left.columns && !Overlaps(left.columns, right.columns, lk, rk, c) ==>
      Get(MergeFrames(left, right, lk, rk, Left, sl, sr).value, i, c) == Get(left, i, c)
  {
    MergeLeftUnique(left, right, lk, rk, sl, sr);
    assert MergePairs(left, right, lk, rk, Left)[i].left == i;
    forall c | c in left.columns && !Overlaps(left.columns, right.columns, lk, rk, c)
      ensures Get(MergeFrames(left, right, lk, rk, Left, sl, sr).value, i, c) == Get(left, i, c)
    {
      MergeGetLeft(left, right, lk, rk, Left, sl, sr, i, c);
    }
  }

  /** On a right key without repeats, the pair of output row `i` of a left
      join is left row `i` with the right row `j` that shares its key. */
  lemma MergeUniquePair(left: Frame, right: Frame, lk: string, rk: string, i: nat, j: nat)
    requires Distinct(Column(right, rk)) && i < |left.rows|
    requires j < |right.rows| && Get(right, j, rk) == Get(left, i, lk)
    ensures |MergePairs(left, right, lk, rk, Left)| == |left.rows|
    ensures MergePairs(left, right, lk, rk, Left)[i] == Pair(i, Some(j))
  {
    var lkeys, rkeys := Column(left, lk), Column(right, rk);
    var mls := MatchLists(lkeys, rkeys);
    UniqueKeysAtMostOne(lkeys, rkeys);
    LeftJoinOneToOne(mls, |left.rows|);
    MatchesUpToSpec(rkeys, lkeys[i], |rkeys|);
    assert j in mls[i];
  }

  /** On a right key without repeats, output row `i` of a left join holds,
      under each kept right label that takes no suffix, the cell of the
      right row `j` that shares its key. */
  lemma MergeUniqueMatched(left: Frame, right: Frame, lk: string, rk: string, sl: string, sr: string, i: nat, j: nat)
    requires WellFormed(left) && WellFormed(right) && MergeFrames(left, right, lk, rk, Left, sl, sr).Ok?
    requires Distinct(Column(right, rk)) && i < |left.rows|
    requires j < |right.rows| && Get(right, j, rk) == Get(left, i, lk)
    ensures i < |MergeFrames(left, right, lk, rk, Left, sl, sr).value.rows|
    ensures forall c :: c in RightKept(right.columns, lk, rk) && !Overlaps(left.columns, right.columns, lk, rk, c) ==>
      Get(MergeFrames(left, right, lk, rk, Left, sl, sr).value, i, c) == Get(right, j, c)
  {
    MergeUniquePair(left, right, lk, rk, i, j);
    forall c | c in RightKept(right.columns, lk, rk) && !Overlaps(left.columns, right.columns, lk, rk, c)
      ensures Get(MergeFrames(left, right, lk, rk, Left, sl, sr).value, i, c) == Get(right, j, c)
    {
      MergeGetRight(left, right, lk, rk, Left, sl, sr, i, c);
    }
  }

  /** Output row `i` of a left join on a right key without repeats holds NaN
      under each kept right label that takes no suffix, when no right row
      shares its key. */
  lemma MergeUniqueUnmatched(left: Frame, right: Frame, lk: string, rk: string, sl: string, sr: string, i: nat)
    requires WellFormed(left) && WellFormed(right) && MergeFrames(left, right, lk, rk, Left, sl, sr).Ok?
    requires Distinct(Column(right, rk)) && i < |left.rows|
    requires forall j :: 0 <= j < |right.rows| ==> Get(right, j, rk) != Get(left, i, lk)
    ensures i < |MergeFrames(left, right, lk, rk, Left, sl, sr).value.rows|
    ensures forall c :: c in RightKept(right.columns, lk, rk) && !Overlaps(left.columns, right.columns, lk, rk, c) ==>
      Get(MergeFrames(left, right, lk, rk, Left, sl, sr).value, i, c) == NaN
  {
    MergeLeftUnique(left, right, lk, rk, sl, sr);
    var p := MergePairs(left, right, lk, rk, Left)[i];
    assert p.left == i;
    assert p.right.None?;
    forall c | c in RightKept(right.columns, lk, rk) && !Overlaps(left.columns, right.columns, lk, rk, c)
      ensures Get(MergeFrames(left, right, lk, rk, Left, sl, sr).value, i, c) == NaN
    {
      MergeGetRight(left, right, lk, rk, Left, sl, sr, i, c);
    }
  }

  /** Every match of a left row is paired with it. */
  lemma {:induction false} JoinHasPair(mls: seq<seq<nat>>, how: How, n: nat, i: nat, j: nat)
    requires n <= |mls| && i < n && j in mls[i]
    ensures exists t :: 0 <= t < |Pairs(mls, how, n)| && Pairs(mls, how, n)[t] == Pair(i, Some(j))
  {
    var ps: seq<Pair> := Pairs(mls, how, n - 1);
    var b: seq<Pair> := Block(mls[n - 1], how, n - 1);
    assert Pairs(mls, how, n) == ps + b;
    if i == n - 1 {
      var x :| 0 <= x < |mls[i]| && mls[i][x] == j;
      assert Pairs(mls, how, n)[|ps| + x] == Pair(i, Some(j)) by {
        assert b == Tag(i, mls[i]);
        assert (ps + b)[|ps| + x] == b[x];
      }
    } else {
      JoinHasPair(mls, how, n - 1, i, j);
      var t :| 0 <= t < |ps| && ps[t] == Pair(i, Some(j));
      assert Pairs(mls, how, n)[t] == Pair(i, Some(j)) by {
        assert (ps + b)[t] == ps[t];
      }
    }
  }

  /** A left row and a right row with one key make one output pair, in
      either join. */
  lemma MergeHasPair(left: Frame, right: Frame, lk: string, rk: string, how: How, i: nat, j: nat)
    requires i < |left.rows| && j < |right.rows| && Get(right, j, rk) == Get(left, i, lk)
    ensures exists t :: 0 <= t < |MergePairs(left, right, lk, rk, how)| && MergePairs(left, right, lk, rk, how)[t] == Pair(i, Some(j))
  {
    var lkeys, rkeys := Column(left, lk), Column(right, rk);
    var mls := MatchLists(lkeys, rkeys);
    MatchesUpToSpec(rkeys, lkeys[i], |rkeys|);
    assert j in mls[i];
    JoinHasPair(mls, how, |left.rows|, i, j);
    assert MergePairs(left, right, lk, rk, how) == Pairs(mls, how, |left.rows|);
  }

  /** Joined on two different key labels, an output row is the left row
      followed by the whole right row. */
  lemma JoinedRowWhole(left: Frame, right: Frame, lk: string, rk: string, i: nat, j: nat)
    requires WellFormed(right) && lk != rk && i < |left.rows| && j < |right.rows|
    ensures JoinedRow(left, right, lk, rk, Pair(i, Some(j))) == left.rows[i] + right.rows[j]
  {
    var row := JoinedRow(left, right, lk, rk, Pair(i, Some(j)));
    var n := |left.rows[i]|;
    forall k | 0 <= k < |right.columns| ensures row[n + k] == right.rows[j][k] {
      IndexOfDistinct(right.columns, k);
    }
    assert row == row[..n] + row[n..];
  }
}
