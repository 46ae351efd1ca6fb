/** The thresholded best match and the two fuzzy merges built on it:
    `fuzzy_merge_benef2019_2022` (beneficiary keys against INEGI keys, left
    join, cutoff 85) and `fuzzy_merge` (INEGI keys against producer keys,
    inner join, cutoff 96). thefuzz's scorer, with its pre-processing, is a
    parameter `score` with real values in 0..100. `extractOne` compares the
    unrounded score with the cutoff, keeps the first candidate of the highest
    unrounded score, and reports that score rounded to an integer. A scorer
    whose values are whole numbers gives the behaviour of the integer-scoring
    versions of thefuzz. */
module Fuzzy {
  import opened Base
  import opened Seqs
  import opened Frames
  import opened Merge
  import opened Tables

  type Score = x: real | 0.0 <= x <= 100.0

  /** The default cutoff of `fuzzy_merge_benef2019_2022`. */
  const BenefThreshold: real := 85.0
  /** The default cutoff of `fuzzy_merge`. */
  const ProdThreshold: real := 96.0

  /** Python's `round` followed by `int`: the nearest integer, a tie going to
      the even one. */
  function Round(x: real): (r: int)
    ensures r as real - 0.5 <= x <= r as real + 0.5
    ensures x == x.Floor as real ==> r == x.Floor
    ensures x - x.Floor as real == 0.5 ==> r % 2 == 0
  {
    var f := x.Floor;
    var d := x - f as real;
    if d < 0.5 then f else if d > 0.5 then f + 1 else if f % 2 == 0 then f else f + 1
  }

  /** A rounded score is a whole number in 0..100, the score itself when it
      already is one. */
  lemma RoundScore(x: Score)
    ensures 0 <= Round(x) <= 100
    ensures x == x.Floor as real ==> Round(x) as real == x
  {
  }

  /** What `extractOne` returns: the chosen candidate and its unrounded score. */
  datatype Match = Match(choice: string, score: Score)

  /** The position `extractOne` picks among the first `n` candidates: the
      first one of the highest score, provided that score reaches `cutoff`. */
  function BestUpTo(q: string, cs: seq<string>, score: (string, string) -> Score, cutoff: real, n: nat): (r: Option<nat>)
    requires n <= |cs|
    ensures r.Some? ==> r.value < n
  {
    if n == 0 then None
    else
      var b := BestUpTo(q, cs, score, cutoff, n - 1);
      var s := score(q, cs[n - 1]);
      if s >= cutoff && (b.None? || s > score(q, cs[b.value])) then Some(n - 1) else b
  }

  /** No pick exactly when nothing reaches the cutoff; a pick reaches it, is
      scored at least as high as every candidate, and higher than every
      earlier one. */
  lemma {:induction false} BestUpToSpec(q: string, cs: seq<string>, score: (string, string) -> Score, cutoff: real, n: nat)
    requires n <= |cs|
    ensures BestUpTo(q, cs, score, cutoff, n).None? <==> forall j :: 0 <= j < n ==> score(q, cs[j]) < cutoff
    ensures BestUpTo(q, cs, score, cutoff, n).Some? ==>
      var k := BestUpTo(q, cs, score, cutoff, n).value;
      && score(q, cs[k]) >= cutoff
      && (forall j :: 0 <= j < n ==> score(q, cs[j]) <= score(q, cs[k]))
      && (forall j :: 0 <= j < k ==> score(q, cs[j]) < score(q, cs[k]))
  {
    if n > 0 {
      BestUpToSpec(q, cs, score, cutoff, n - 1);
    }
  }

  /** `process.extractOne(q, cs, score_cutoff=cutoff)`. */
  function ExtractOne(q: string, cs: seq<string>, score: (string, string) -> Score, cutoff: real): Option<Match> {
    match BestUpTo(q, cs, score, cutoff, |cs|)
    case None => None
    case Some(k) => Some(Match(cs[k], score(q, cs[k])))
  }

  /** `extractOne` finds nothing exactly when every candidate scores below the
      cutoff; what it finds is a candidate, scored at or above the cutoff,
      with no candidate scoring higher and every earlier one scoring lower. */
  lemma ExtractOneSpec(q: string, cs: seq<string>, score: (string, string) -> Score, cutoff: real)
    ensures ExtractOne(q, cs, score, cutoff).None? <==> forall j :: 0 <= j < |cs| ==> score(q, cs[j]) < cutoff
    ensures ExtractOne(q, cs, score, cutoff).Some? ==>
      var m := ExtractOne(q, cs, score, cutoff).value;
      && m.choice in cs && m.score == score(q, m.choice) && m.score >= cutoff
      && (forall j :: 0 <= j < |cs| ==> score(q, cs[j]) <= m.score)
      && exists k :: 0 <= k < |cs| && cs[k] == m.choice && forall j :: 0 <= j < k ==> score(q, cs[j]) < m.score
  {
    BestUpToSpec(q, cs, score, cutoff, |cs|);
  }

  predicate AllText(cs: seq<Cell>) {
    forall i :: 0 <= i < |cs| ==> cs[i].Str?
  }

  function Texts(cs: seq<Cell>): (r: seq<string>)
    requires AllText(cs)
    ensures |r| == |cs| && forall i :: 0 <= i < |cs| ==> cs[i] == Str(r[i])
  {
    seq(|cs|, i requires 0 <= i < |cs| => cs[i].s)
  }

  /** `extractOne` on one query cell: a query or a candidate that is not text
      raises TypeError. */
  function ExtractCell(q: Cell, cs: seq<Cell>, score: (string, string) -> Score, cutoff: real): (r: Result<Option<Match>>)
    ensures r.Ok? <==> q.Str? && AllText(cs)
    ensures r.Err? ==> r.error == TypeError
  {
    if q.Str? && AllText(cs) then Ok(ExtractOne(q.s, Texts(cs), score, cutoff)) else Err(TypeError)
  }

  /** `queries.apply(lambda x: extractOne(x, cs, score_cutoff=cutoff))`: the first
      failing query raises. */
  function ExtractColumn(qs: seq<Cell>, cs: seq<Cell>, score: (string, string) -> Score, cutoff: real): (r: Result<seq<Option<Match>>>)
    ensures r.Ok? <==> forall i :: 0 <= i < |qs| ==> ExtractCell(qs[i], cs, score, cutoff).Ok?
    ensures r.Err? ==> r.error == TypeError
    ensures r.Ok? ==> |r.value| == |qs| && forall i :: 0 <= i < |qs| ==> Ok(r.value[i]) == ExtractCell(qs[i], cs, score, cutoff)
  {
    if qs == [] then Ok([])
    else
      match ExtractCell(qs[0], cs, score, cutoff)
      case Err(e) => Err(e)
      case Ok(m) =>
        match ExtractColumn(qs[1..], cs, score, cutoff)
        case Err(e) => Err(e)
        case Ok(rest) =>
          assert forall i :: 1 <= i < |qs| ==> qs[i] == qs[1..][i - 1];
          Ok([m] + rest)
  }

  /** `[match[0] if match else None for match in matches]`. */
  function BestMatchCells(ms: seq<Option<Match>>): (r: seq<Cell>)
    ensures |r| == |ms|
    ensures forall i :: 0 <= i < |ms| ==> r[i] == if ms[i].Some? then Str(ms[i].value.choice) else NaN
  {
    seq(|ms|, i requires 0 <= i < |ms| => if ms[i].Some? then Str(ms[i].value.choice) else NaN)
  }

  /** `[match[1] if match else None for match in matches]`. */
  function ScoreCells(ms: seq<Option<Match>>): (r: seq<Cell>)
    ensures |r| == |ms|
    ensures forall i :: 0 <= i < |ms| ==> r[i] == if ms[i].Some? then Num(Round(ms[i].value.score)) else NaN
  {
    seq(|ms|, i requires 0 <= i < |ms| => if ms[i].Some? then Num(Round(ms[i].value.score)) else NaN)
  }

  /** The table `f` after the two assignments the fuzzy merges make to it:
      `best_match` and `match_score` for the queries in column `key1`
      against the candidates in column `key2` of `ref`. */
  function Annotate(f: Frame, key1: string, ref: Frame, key2: string, score: (string, string) -> Score, cutoff: real): (r: Result<Frame>)
    requires WellFormed(f)
    ensures key2 !in ref.columns ==> r == Err(KeyError(key2))
    ensures key2 in ref.columns && key1 !in f.columns ==> r == Err(KeyError(key1))
    ensures r.Ok? ==> WellFormed(r.value) && |r.value.rows| == |f.rows|
  {
    if key2 !in ref.columns then Err(KeyError(key2))
    else if key1 !in f.columns then Err(KeyError(key1))
    else
      var ms :- ExtractColumn(Column(f, key1), Column(ref, key2), score, cutoff);
      Ok(WithMatches(f, ms))
  }

  /** `f` with the `best_match` and `match_score` columns for `ms`. */
  function WithMatches(f: Frame, ms: seq<Option<Match>>): (r: Frame)
    requires WellFormed(f) && |ms| == |f.rows|
    ensures WellFormed(r) && |r.rows| == |f.rows|
    ensures forall c :: c in r.columns <==> c in f.columns || c == "best_match" || c == "match_score"
    ensures forall i :: 0 <= i < |f.rows| ==>
      && Get(r, i, "best_match") == (if ms[i].Some? then Str(ms[i].value.choice) else NaN)
      && Get(r, i, "match_score") == (if ms[i].Some? then Num(Round(ms[i].value.score)) else NaN)
    ensures forall i, c :: 0 <= i < |f.rows| && c != "best_match" && c != "match_score" ==> Get(r, i, c) == Get(f, i, c)
  {
    var a := AssignColumn(f, "best_match", BestMatchCells(ms));
    AssignColumn(a, "match_score", ScoreCells(ms))
  }

  /** `best` and `sc` are what the fuzzy merges record for query `q` against
      the candidates `cs`: both missing exactly when no candidate reaches the
      cutoff; otherwise `best` is a candidate, `sc` is its score, which
      reaches the cutoff, and no candidate scores higher. */
  predicate IsBestMatch(q: Cell, cs: seq<Cell>, best: Cell, sc: Cell, score: (string, string) -> Score, cutoff: real)
    requires AllText(cs)
  {
    && q.Str?
    && (best.NaN? <==> sc.NaN?)
    && (best.NaN? <==> forall j :: 0 <= j < |cs| ==> score(q.s, cs[j].s) < cutoff)
    && (!best.NaN? ==>
          && best.Str? && best in cs
          && sc == Num(Round(score(q.s, best.s))) && score(q.s, best.s) >= cutoff
          && forall j :: 0 <= j < |cs| ==> score(q.s, cs[j].s) <= score(q.s, best.s))
  }

  /** One row of an annotated table records the best match of its query. */
  lemma AnnotateRow(f: Frame, key1: string, ref: Frame, key2: string, score: (string, string) -> Score, cutoff: real, i: nat)
    requires WellFormed(f) && Annotate(f, key1, ref, key2, score, cutoff).Ok? && i < |f.rows|
    ensures AllText(Column(ref, key2))
    ensures var a := Annotate(f, key1, ref, key2, score, cutoff).value;
      IsBestMatch(Get(f, i, key1), Column(ref, key2), Get(a, i, "best_match"), Get(a, i, "match_score"), score, cutoff)
  {
    var qs, cs := Column(f, key1), Column(ref, key2);
    assert ExtractCell(qs[i], cs, score, cutoff).Ok?;
    var ts := Texts(cs);
    ExtractOneSpec(qs[i].s, ts, score, cutoff);
  }

  /** Annotation adds `best_match` and `match_score` and keeps every other
      column; each row records the best match of its query. */
  lemma AnnotateSpec(f: Frame, key1: string, ref: Frame, key2: string, score: (string, string) -> Score, cutoff: real)
    requires WellFormed(f) && Annotate(f, key1, ref, key2, score, cutoff).Ok?
    ensures var a := Annotate(f, key1, ref, key2, score, cutoff).value;
      && (forall c :: c in f.columns ==> c in a.columns)
      && "best_match" in a.columns && "match_score" in a.columns
      && (forall i, c :: 0 <= i < |f.rows| && c != "best_match" && c != "match_score" ==> Get(a, i, c) == Get(f, i, c))
      && forall i :: 0 <= i < |f.rows| ==>
           (AllText(Column(ref, key2)) &&
            IsBestMatch(Get(f, i, key1), Column(ref, key2), Get(a, i, "best_match"), Get(a, i, "match_score"), score, cutoff))
  {
    var a := Annotate(f, key1, ref, key2, score, cutoff).value;
    forall i | 0 <= i < |f.rows| ensures AllText(Column(ref, key2)) &&
        IsBestMatch(Get(f, i, key1), Column(ref, key2), Get(a, i, "best_match"), Get(a, i, "match_score"), score, cutoff)
    {
      AnnotateRow(f, key1, ref, key2, score, cutoff, i);
    }
  }

  /** The labels of an annotated table: the old ones, then `best_match` and
      `match_score` unless already present. */
  lemma AnnotateColumns(f: Frame, key1: string, ref: Frame, key2: string, score: (string, string) -> Score, cutoff: real, c: string)
    requires WellFormed(f) && Annotate(f, key1, ref, key2, score, cutoff).Ok?
    ensures c in Annotate(f, key1, ref, key2, score, cutoff).value.columns <==>
      c in f.columns || c == "best_match" || c == "match_score"
  {
    var ms := ExtractColumn(Column(f, key1), Column(ref, key2), score, cutoff).value;
    assert Annotate(f, key1, ref, key2, score, cutoff).value == WithMatches(f, ms);
  }

  /** `fuzzy_merge_benef2019_2022(benef, inegi, key1, key2, threshold)`: the
      annotated beneficiary table left-joined to `inegi` on `best_match` =
      `key2`, suffixes `_benef` and `_inegi`. */
  function FuzzyMergeBenef(benef: Frame, inegi: Frame, key1: string, key2: string, score: (string, string) -> Score, threshold: real): (r: Result<Frame>)
    requires WellFormed(benef) && WellFormed(inegi)
    ensures key2 !in inegi.columns ==> r == Err(KeyError(key2))
    ensures key2 in inegi.columns && key1 !in benef.columns ==> r == Err(KeyError(key1))
    ensures r.Ok? ==> WellFormed(r.value)
  {
    var a :- Annotate(benef, key1, inegi, key2, score, threshold);
    MergeFrames(a, inegi, "best_match", key2, Left, "_benef", "_inegi")
  }

  /** `fuzzy_merge(inegi, prod, key1, key2, threshold)`: the annotated INEGI
      table inner-joined to `prod` on `best_match` = `key2`, suffixes `_inegi`
      and `_prod`. */
  function FuzzyMergeProd(inegi: Frame, prod: Frame, key1: string, key2: string, score: (string, string) -> Score, threshold: real): (r: Result<Frame>)
    requires WellFormed(inegi) && WellFormed(prod)
    ensures key2 !in prod.columns ==> r == Err(KeyError(key2))
    ensures key2 in prod.columns && key1 !in inegi.columns ==> r == Err(KeyError(key1))
    ensures r.Ok? ==> WellFormed(r.value)
  {
    var a :- Annotate(inegi, key1, prod, key2, score, threshold);
    MergeFrames(a, prod, "best_match", key2, Inner, "_inegi", "_prod")
  }

  /** The left row of each pair. */
  function Lefts(ps: seq<Pair>): (r: seq<nat>)
    ensures |r| == |ps| && forall t :: 0 <= t < |ps| ==> r[t] == ps[t].left
  {
    if |ps| == 0 then [] else Lefts(ps[..|ps| - 1]) + [ps[|ps| - 1].left]
  }

  /** The INEGI row each output row of the inner fuzzy merge comes from. */
  function ProdSources(inegi: Frame, prod: Frame, key1: string, key2: string, score: (string, string) -> Score, threshold: real): (r: seq<nat>)
    requires WellFormed(inegi) && WellFormed(prod) && FuzzyMergeProd(inegi, prod, key1, key2, score, threshold).Ok?
    ensures |r| == |FuzzyMergeProd(inegi, prod, key1, key2, score, threshold).value.rows|
    ensures forall t :: 0 <= t < |r| ==> r[t] < |inegi.rows|
  {
    ProdMerge(inegi, prod, key1, key2, score, threshold);
    var a := Annotate(inegi, key1, prod, key2, score, threshold).value;
    Lefts(MergePairs(a, prod, "best_match", key2, Inner))
  }

  /** A successful inner fuzzy merge is the merge of the annotated table. */
  lemma ProdMerge(inegi: Frame, prod: Frame, key1: string, key2: string, score: (string, string) -> Score, threshold: real)
    requires WellFormed(inegi) && WellFormed(prod) && FuzzyMergeProd(inegi, prod, key1, key2, score, threshold).Ok?
    ensures Annotate(inegi, key1, prod, key2, score, threshold).Ok?
    ensures var a := Annotate(inegi, key1, prod, key2, score, threshold).value;
      && |a.rows| == |inegi.rows|
      && FuzzyMergeProd(inegi, prod, key1, key2, score, threshold) == MergeFrames(a, prod, "best_match", key2, Inner, "_inegi", "_prod")
    ensures var ps := MergePairs(Annotate(inegi, key1, prod, key2, score, threshold).value, prod, "best_match", key2, Inner);
      && |FuzzyMergeProd(inegi, prod, key1, key2, score, threshold).value.rows| == |ps|
      && forall t :: 0 <= t < |ps| ==> ps[t].left < |inegi.rows|
  {
    var a := Annotate(inegi, key1, prod, key2, score, threshold).value;
    PairsFrom(MatchLists(Column(a, "best_match"), Column(prod, key2)), Inner, |a.rows|);
  }

  lemma ProdSourcesPairs(inegi: Frame, prod: Frame, key1: string, key2: string, score: (string, string) -> Score, threshold: real)
    requires WellFormed(inegi) && WellFormed(prod) && FuzzyMergeProd(inegi, prod, key1, key2, score, threshold).Ok?
    ensures var ps := MergePairs(Annotate(inegi, key1, prod, key2, score, threshold).value, prod, "best_match", key2, Inner);
      |ProdSources(inegi, prod, key1, key2, score, threshold)| == |ps| &&
      forall t :: 0 <= t < |ps| ==> ProdSources(inegi, prod, key1, key2, score, threshold)[t] == ps[t].left
  {
  }

  /** Output row `t` holds beneficiary `i`'s own cells: those under the
      labels the INEGI table and the annotation do not use. */
  predicate CarriesRow(out: Frame, t: nat, benef: Frame, i: nat, inegiColumns: seq<string>)
    requires t < |out.rows| && i < |benef.rows|
  {
    forall c :: c in benef.columns && c !in inegiColumns && c != "best_match" && c != "match_score" ==>
      Get(out, t, c) == Get(benef, i, c)
  }

  /** Every beneficiary row reaches the output of the left fuzzy merge, its
      own cells unchanged: no beneficiary is lost, matched or not. */
  lemma FuzzyMergeBenefKeepsRows(benef: Frame, inegi: Frame, key1: string, key2: string, score: (string, string) -> Score, threshold: real, i: nat)
    requires WellFormed(benef) && WellFormed(inegi) && FuzzyMergeBenef(benef, inegi, key1, key2, score, threshold).Ok?
    requires i < |benef.rows|
    ensures var out := FuzzyMergeBenef(benef, inegi, key1, key2, score, threshold).value;
      exists t :: 0 <= t < |out.rows| && CarriesRow(out, t, benef, i, inegi.columns)
  {
    var a := Annotate(benef, key1, inegi, key2, score, threshold).value;
    var out := FuzzyMergeBenef(benef, inegi, key1, key2, score, threshold).value;
    MergeCovers(a, inegi, "best_match", key2, Left, i);
    var ps := MergePairs(a, inegi, "best_match", key2, Left);
    var t :| 0 <= t < |ps| && ps[t].left == i;
    AnnotateSpec(benef, key1, inegi, key2, score, threshold);
    forall c | c in benef.columns && c !in inegi.columns && c != "best_match" && c != "match_score"
      ensures Get(out, t, c) == Get(benef, i, c)
    {
      AnnotateColumns(benef, key1, inegi, key2, score, threshold, c);
      MergeGetLeft(a, inegi, "best_match", key2, Left, "_benef", "_inegi", t, c);
    }
    assert CarriesRow(out, t, benef, i, inegi.columns);
  }

  /** When the INEGI keys are unique the left fuzzy merge is one-to-one: row
      `i` of the output is beneficiary `i`, with its own cells, its best
      match and its score. */
  lemma FuzzyMergeBenefRow(benef: Frame, inegi: Frame, key1: string, key2: string, score: (string, string) -> Score, threshold: real, i: nat)
    requires WellFormed(benef) && WellFormed(inegi) && FuzzyMergeBenef(benef, inegi, key1, key2, score, threshold).Ok?
    requires "best_match" !in inegi.columns && "match_score" !in inegi.columns
    requires Distinct(Column(inegi, key2)) && i < |benef.rows|
    ensures var out := FuzzyMergeBenef(benef, inegi, key1, key2, score, threshold).value;
      && |out.rows| == |benef.rows|
      && AllText(Column(inegi, key2))
      && IsBestMatch(Get(benef, i, key1), Column(inegi, key2), Get(out, i, "best_match"), Get(out, i, "match_score"), score, threshold)
      && CarriesRow(out, i, benef, i, inegi.columns)
  {
    var a := Annotate(benef, key1, inegi, key2, score, threshold).value;
    var out := FuzzyMergeBenef(benef, inegi, key1, key2, score, threshold).value;
    MergeLeftUnique(a, inegi, "best_match", key2, "_benef", "_inegi");
    assert MergePairs(a, inegi, "best_match", key2, Left)[i].left == i;
    AnnotateRow(benef, key1, inegi, key2, score, threshold, i);
    AnnotateColumns(benef, key1, inegi, key2, score, threshold, "best_match");
    AnnotateColumns(benef, key1, inegi, key2, score, threshold, "match_score");
    MergeGetLeft(a, inegi, "best_match", key2, Left, "_benef", "_inegi", i, "best_match");
    MergeGetLeft(a, inegi, "best_match", key2, Left, "_benef", "_inegi", i, "match_score");
    AnnotateSpec(benef, key1, inegi, key2, score, threshold);
    forall c | c in benef.columns && c !in inegi.columns && c != "best_match" && c != "match_score"
      ensures Get(out, i, c) == Get(benef, i, c)
    {
      AnnotateColumns(benef, key1, inegi, key2, score, threshold, c);
      MergeGetLeft(a, inegi, "best_match", key2, Left, "_benef", "_inegi", i, c);
    }
  }

  /** With unique INEGI keys, row `i` of the left fuzzy merge carries the
      INEGI row whose key is its best match, or NaN throughout the INEGI
      columns when nothing reached the threshold. */
  lemma FuzzyMergeBenefPartner(benef: Frame, inegi: Frame, key1: string, key2: string, score: (string, string) -> Score, threshold: real, i: nat)
    requires WellFormed(benef) && WellFormed(inegi) && FuzzyMergeBenef(benef, inegi, key1, key2, score, threshold).Ok?
    requires "best_match" !in inegi.columns && "match_score" !in inegi.columns
    requires Distinct(Column(inegi, key2)) && i < |benef.rows|
    ensures var out := FuzzyMergeBenef(benef, inegi, key1, key2, score, threshold).value;
      && |out.rows| == |benef.rows|
      && (Get(out, i, "best_match").Str? ==>
            exists j :: 0 <= j < |inegi.rows| && Get(inegi, j, key2) == Get(out, i, "best_match") &&
              forall c :: c in inegi.columns && c !in benef.columns ==> Get(out, i, c) == Get(inegi, j, c))
      && (Get(out, i, "best_match").NaN? ==>
            forall c :: c in inegi.columns && c !in benef.columns ==> Get(out, i, c) == NaN)
  {
    var a := Annotate(benef, key1, inegi, key2, score, threshold).value;
    var out := FuzzyMergeBenef(benef, inegi, key1, key2, score, threshold).value;
    FuzzyMergeBenefRow(benef, inegi, key1, key2, score, threshold, i);
    MergeLeftUnique(a, inegi, "best_match", key2, "_benef", "_inegi");
    var p := MergePairs(a, inegi, "best_match", key2, Left)[i];
    assert p.left == i;
    AnnotateColumns(benef, key1, inegi, key2, score, threshold, "best_match");
    MergeGetLeft(a, inegi, "best_match", key2, Left, "_benef", "_inegi", i, "best_match");
    var best := Get(a, i, "best_match");
    if best.Str? {
      assert p.right.Some? by {
        var j :| 0 <= j < |inegi.rows| && Column(inegi, key2)[j] == best;
      }
      var j := p.right.value;
      forall c | c in inegi.columns && c !in benef.columns ensures Get(out, i, c) == Get(inegi, j, c) {
        AnnotateColumns(benef, key1, inegi, key2, score, threshold, c);
        MergeGetRight(a, inegi, "best_match", key2, Left, "_benef", "_inegi", i, c);
      }
    } else {
      assert best.NaN?;
      assert forall j :: 0 <= j < |inegi.rows| ==> Get(inegi, j, key2) != best by {
        forall j | 0 <= j < |inegi.rows| ensures Get(inegi, j, key2).Str? {
          assert Column(inegi, key2)[j] == Get(inegi, j, key2);
        }
      }
      assert p.right.None?;
      forall c | c in inegi.columns && c !in benef.columns ensures Get(out, i, c) == NaN {
        AnnotateColumns(benef, key1, inegi, key2, score, threshold, c);
        MergeGetRight(a, inegi, "best_match", key2, Left, "_benef", "_inegi", i, c);
      }
    }
  }

  /** Every row of the inner fuzzy merge joins an INEGI row, with its own
      cells and its best match, which reached the threshold, to a producer
      row whose key is that match. */
  lemma FuzzyMergeProdRow(inegi: Frame, prod: Frame, key1: string, key2: string, score: (string, string) -> Score, threshold: real, t: nat)
    requires WellFormed(inegi) && WellFormed(prod) && FuzzyMergeProd(inegi, prod, key1, key2, score, threshold).Ok?
    requires "best_match" !in prod.columns && "match_score" !in prod.columns
    requires t < |FuzzyMergeProd(inegi, prod, key1, key2, score, threshold).value.rows|
    ensures var out := FuzzyMergeProd(inegi, prod, key1, key2, score, threshold).value;
      && AllText(Column(prod, key2))
      && Get(out, t, "best_match").Str?
      && var i := ProdSources(inegi, prod, key1, key2, score, threshold)[t];
      && CarriesRow(out, t, inegi, i, prod.columns)
      && IsBestMatch(Get(inegi, i, key1), Column(prod, key2), Get(out, t, "best_match"), Get(out, t, "match_score"), score, threshold)
      && exists j :: 0 <= j < |prod.rows| && Get(prod, j, key2) == Get(out, t, "best_match") &&
           forall c :: c in prod.columns && c !in inegi.columns ==> Get(out, t, c) == Get(prod, j, c)
  {
    var a := Annotate(inegi, key1, prod, key2, score, threshold).value;
    var out := FuzzyMergeProd(inegi, prod, key1, key2, score, threshold).value;
    var p := MergePairs(a, prod, "best_match", key2, Inner)[t];
    var i := p.left;
    var j := p.right.value;
    AnnotateRow(inegi, key1, prod, key2, score, threshold, i);
    AnnotateSpec(inegi, key1, prod, key2, score, threshold);
    AnnotateColumns(inegi, key1, prod, key2, score, threshold, "best_match");
    AnnotateColumns(inegi, key1, prod, key2, score, threshold, "match_score");
    MergeGetLeft(a, prod, "best_match", key2, Inner, "_inegi", "_prod", t, "best_match");
    MergeGetLeft(a, prod, "best_match", key2, Inner, "_inegi", "_prod", t, "match_score");
    forall c | c in inegi.columns && c !in prod.columns && c != "best_match" && c != "match_score"
      ensures Get(out, t, c) == Get(inegi, i, c)
    {
      AnnotateColumns(inegi, key1, prod, key2, score, threshold, c);
      MergeGetLeft(a, prod, "best_match", key2, Inner, "_inegi", "_prod", t, c);
    }
    assert CarriesRow(out, t, inegi, i, prod.columns);
    forall c | c in prod.columns && c !in inegi.columns ensures Get(out, t, c) == Get(prod, j, c) {
      AnnotateColumns(inegi, key1, prod, key2, score, threshold, c);
      MergeGetRight(a, prod, "best_match", key2, Inner, "_inegi", "_prod", t, c);
    }
  }

  /** An INEGI row with a producer key scoring at least the threshold
      reaches the output of the inner fuzzy merge, its own cells unchanged. */
  lemma FuzzyMergeProdCovers(inegi: Frame, prod: Frame, key1: string, key2: string, score: (string, string) -> Score, threshold: real, i: nat, j: nat)
    requires WellFormed(inegi) && WellFormed(prod) && FuzzyMergeProd(inegi, prod, key1, key2, score, threshold).Ok?
    requires i < |inegi.rows| && j < |prod.rows|
    requires Get(inegi, i, key1).Str? && Get(prod, j, key2).Str? && score(Get(inegi, i, key1).s, Get(prod, j, key2).s) >= threshold
    ensures var out := FuzzyMergeProd(inegi, prod, key1, key2, score, threshold).value;
      exists t :: 0 <= t < |out.rows| && ProdSources(inegi, prod, key1, key2, score, threshold)[t] == i &&
        CarriesRow(out, t, inegi, i, prod.columns)
  {
    var a := Annotate(inegi, key1, prod, key2, score, threshold).value;
    var out := FuzzyMergeProd(inegi, prod, key1, key2, score, threshold).value;
    AnnotateRow(inegi, key1, prod, key2, score, threshold, i);
    AnnotateSpec(inegi, key1, prod, key2, score, threshold);
    var best := Get(a, i, "best_match");
    assert !best.NaN? by {
      assert Column(prod, key2)[j] == Get(prod, j, key2);
    }
    var k :| 0 <= k < |prod.rows| && Column(prod, key2)[k] == best;
    AnnotateColumns(inegi, key1, prod, key2, score, threshold, "best_match");
    MergeCovers(a, prod, "best_match", key2, Inner, i);
    var ps := MergePairs(a, prod, "best_match", key2, Inner);
    var t :| 0 <= t < |ps| && ps[t].left == i;
    ProdSourcesPairs(inegi, prod, key1, key2, score, threshold);
    assert ProdSources(inegi, prod, key1, key2, score, threshold)[t] == i;
    forall c | c in inegi.columns && c !in prod.columns && c != "best_match" && c != "match_score"
      ensures Get(out, t, c) == Get(inegi, i, c)
    {
      AnnotateColumns(inegi, key1, prod, key2, score, threshold, c);
      MergeGetLeft(a, prod, "best_match", key2, Inner, "_inegi", "_prod", t, c);
    }
    assert CarriesRow(out, t, inegi, i, prod.columns);
  }

  /** The two assignments as the source makes them, into the caller's table:
      nothing changes when reading a key column or matching raises. */
  method AnnotateTable(t: Table, key1: string, ref: Frame, key2: string, score: (string, string) -> Score, cutoff: real)
    returns (err: Option<Error>)
    requires t.Valid()
    modifies t
    ensures t.Valid()
    ensures Annotate(old(t.Value()), key1, ref, key2, score, cutoff).Ok? ==>
      err.None? && t.Value() == Annotate(old(t.Value()), key1, ref, key2, score, cutoff).value
    ensures Annotate(old(t.Value()), key1, ref, key2, score, cutoff).Err? ==>
      err == Some(Annotate(old(t.Value()), key1, ref, key2, score, cutoff).error) && t.Value() == old(t.Value())
  {
    if key2 !in ref.columns {
      return Some(KeyError(key2));
    }
    if key1 !in t.columns {
      return Some(KeyError(key1));
    }
    var ms := ExtractColumn(Column(t.Value(), key1), Column(ref, key2), score, cutoff);
    if ms.Err? {
      return Some(ms.error);
    }
    t.Assign("best_match", BestMatchCells(ms.value));
    t.Assign("match_score", ScoreCells(ms.value));
    err := None;
  }

  /** `fuzzy_merge_benef2019_2022` on the caller's beneficiary table, which
      keeps the two new columns even when the merge then raises. */
  method FuzzyMergeBenefTable(benef: Table, inegi: Frame, key1: string, key2: string, score: (string, string) -> Score, threshold: real)
    returns (r: Result<Frame>)
    requires benef.Valid() && WellFormed(inegi)
    modifies benef
    ensures benef.Valid()
    ensures r == FuzzyMergeBenef(old(benef.Value()), inegi, key1, key2, score, threshold)
    ensures Annotate(old(benef.Value()), key1, inegi, key2, score, threshold).Ok? ==>
      benef.Value() == Annotate(old(benef.Value()), key1, inegi, key2, score, threshold).value
    ensures Annotate(old(benef.Value()), key1, inegi, key2, score, threshold).Err? ==> benef.Value() == old(benef.Value())
  {
    var err := AnnotateTable(benef, key1, inegi, key2, score, threshold);
    if err.Some? {
      return Err(err.value);
    }
    r := MergeFrames(benef.Value(), inegi, "best_match", key2, Left, "_benef", "_inegi");
  }

  /** `fuzzy_merge` on the caller's INEGI table, which keeps the two new
      columns even when the merge then raises. */
  method FuzzyMergeProdTable(inegi: Table, prod: Frame, key1: string, key2: string, score: (string, string) -> Score, threshold: real)
    returns (r: Result<Frame>)
    requires inegi.Valid() && WellFormed(prod)
    modifies inegi
    ensures inegi.Valid()
    ensures r == FuzzyMergeProd(old(inegi.Value()), prod, key1, key2, score, threshold)
    ensures Annotate(old(inegi.Value()), key1, prod, key2, score, threshold).Ok? ==>
      inegi.Value() == Annotate(old(inegi.Value()), key1, prod, key2, score, threshold).value
    ensures Annotate(old(inegi.Value()), key1, prod, key2, score, threshold).Err? ==> inegi.Value() == old(inegi.Value())
  {
    var err := AnnotateTable(inegi, key1, prod, key2, score, threshold);
    if err.Some? {
      return Err(err.value);
    }
    r := MergeFrames(inegi.Value(), prod, "best_match", key2, Inner, "_inegi", "_prod");
  }

  /** On producer keys without repeats, each INEGI row gives at most one
      output row of the inner fuzzy merge, and the rows keep INEGI order. */
  lemma FuzzyMergeProdOnce(inegi: Frame, prod: Frame, key1: string, key2: string, score: (string, string) -> Score, threshold: real)
    requires WellFormed(inegi) && WellFormed(prod) && FuzzyMergeProd(inegi, prod, key1, key2, score, threshold).Ok?
    requires Distinct(Column(prod, key2))
    ensures Increasing(ProdSources(inegi, prod, key1, key2, score, threshold))
  {
    var a := Annotate(inegi, key1, prod, key2, score, threshold).value;
    MergeUniqueRight(a, prod, "best_match", key2, Inner);
    ProdSourcesPairs(inegi, prod, key1, key2, score, threshold);
  }

  /** Two producer rows with the key an INEGI row is matched to give that
      INEGI row two output rows. */
  lemma FuzzyMergeProdTwice(inegi: Frame, prod: Frame, key1: string, key2: string, score: (string, string) -> Score, threshold: real, i: nat, j1: nat, j2: nat)
    requires WellFormed(inegi) && WellFormed(prod) && FuzzyMergeProd(inegi, prod, key1, key2, score, threshold).Ok?
    requires i < |inegi.rows| && j1 < j2 < |prod.rows|
    requires Get(Annotate(inegi, key1, prod, key2, score, threshold).value, i, "best_match") == Get(prod, j1, key2) == Get(prod, j2, key2)
    ensures exists s, t :: (0 <= s < t < |ProdSources(inegi, prod, key1, key2, score, threshold)| &&
      ProdSources(inegi, prod, key1, key2, score, threshold)[s] == i && ProdSources(inegi, prod, key1, key2, score, threshold)[t] == i)
  {
    var a := Annotate(inegi, key1, prod, key2, score, threshold).value;
    var ps := MergePairs(a, prod, "best_match", key2, Inner);
    MergeSharedKey(a, prod, "best_match", key2, Inner, i, j1, j2);
    var s, t :| 0 <= s < t < |ps| && ps[s].left == i && ps[t].left == i;
    ProdSourcesPairs(inegi, prod, key1, key2, score, threshold);
    assert ProdSources(inegi, prod, key1, key2, score, threshold)[s] == i;
    assert ProdSources(inegi, prod, key1, key2, score, threshold)[t] == i;
  }
}
