/** Column expressions the pipeline assigns into tables:
    `df[c].apply(clean_text)`, `df[a].astype(str) + '-' + df[b].astype(str)`
    and `df[c].astype(str).str.zfill(w)`. Reading an absent column raises
    KeyError. */
module Derive {
  import opened Base
  import opened Text
  import opened Keys
  import opened Normalizer
  import opened Frames

  /** `apply(clean_text)` over a list of cells: the first number raises. */
  function CleanCells(tr: string -> string, cs: seq<Cell>): (r: Result<seq<Cell>>)
    ensures r.Ok? <==> forall i :: 0 <= i < |cs| ==> !cs[i].Num?
    ensures r.Err? ==> r.error == AttributeError
    ensures r.Ok? ==> |r.value| == |cs| && forall i :: 0 <= i < |cs| ==> Ok(r.value[i]) == CleanText(tr, cs[i])
  {
    if cs == [] then Ok([])
    else
      match CleanText(tr, cs[0])
      case Err(e) => Err(e)
      case Ok(c) =>
        match CleanCells(tr, cs[1..])
        case Err(e) => Err(e)
        case Ok(rest) =>
          assert forall i :: 1 <= i < |cs| ==> cs[i] == cs[1..][i - 1];
          Ok([c] + rest)
  }

  /** `f[c].apply(clean_text)`. */
  function CleanColumn(tr: string -> string, f: Frame, c: string): (r: Result<seq<Cell>>)
    ensures c !in f.columns ==> r == Err(KeyError(c))
    ensures c in f.columns ==> r == CleanCells(tr, Column(f, c))
    ensures r.Ok? ==> |r.value| == |f.rows| && forall i :: 0 <= i < |f.rows| ==> Ok(r.value[i]) == CleanText(tr, Get(f, i, c))
  {
    if c !in f.columns then Err(KeyError(c)) else CleanCells(tr, Column(f, c))
  }

  /** `f[a].astype(str) + '-' + f[b].astype(str)`. */
  function KeyColumn(f: Frame, a: string, b: string): (r: Result<seq<Cell>>)
    ensures a !in f.columns ==> r == Err(KeyError(a))
    ensures a in f.columns && b !in f.columns ==> r == Err(KeyError(b))
    ensures r.Ok? <==> a in f.columns && b in f.columns
    ensures r.Ok? ==> |r.value| == |f.rows| && forall i :: 0 <= i < |f.rows| ==> r.value[i] == JoinKey(Get(f, i, a), Get(f, i, b))
  {
    if a !in f.columns then Err(KeyError(a))
    else if b !in f.columns then Err(KeyError(b))
    else Ok(seq(|f.rows|, i requires 0 <= i < |f.rows| => JoinKey(Get(f, i, a), Get(f, i, b))))
  }

  /** `f[c].astype(str).str.zfill(w)`. */
  function ZFillColumn(f: Frame, c: string, w: nat): (r: Result<seq<Cell>>)
    ensures c !in f.columns ==> r == Err(KeyError(c))
    ensures r.Ok? <==> c in f.columns
    ensures r.Ok? ==> |r.value| == |f.rows| && forall i :: 0 <= i < |f.rows| ==> r.value[i] == ZFillCell(Get(f, i, c), w)
  {
    if c !in f.columns then Err(KeyError(c))
    else Ok(seq(|f.rows|, i requires 0 <= i < |f.rows| => ZFillCell(Get(f, i, c), w)))
  }

  /** `f[c].astype(str)`: a missing cell becomes the text "nan". */
  function TextColumn(f: Frame, c: string): (r: Result<seq<Cell>>)
    ensures c !in f.columns ==> r == Err(KeyError(c))
    ensures r.Ok? <==> c in f.columns
    ensures r.Ok? ==> |r.value| == |f.rows| && forall i :: 0 <= i < |f.rows| ==> r.value[i] == Str(AsStr(Get(f, i, c)))
  {
    if c !in f.columns then Err(KeyError(c))
    else Ok(seq(|f.rows|, i requires 0 <= i < |f.rows| => Str(AsStr(Get(f, i, c)))))
  }

  /** The pieces `str.split('-')` makes of one cell; a cell that is not text
      gives none (NaN in every output column). */
  function Pieces(c: Cell): seq<string> {
    if c.Str? then Split(c.s, '-') else []
  }

  /** Output column `k` of the split for one cell: NaN past its last piece. */
  function Piece(c: Cell, k: nat): Cell {
    if k < |Pieces(c)| then Str(Pieces(c)[k]) else NaN
  }

  /** `str.split('-', expand=True)` gives two columns: no cell has more than
      two pieces and some cell has two. */
  predicate SplitsInTwo(f: Frame, c: string) {
    && (forall i :: 0 <= i < |f.rows| ==> |Pieces(Get(f, i, c))| <= 2)
    && exists i :: 0 <= i < |f.rows| && |Pieces(Get(f, i, c))| == 2
  }

  /** Output column `k` of the split of column `c`. */
  function PieceColumn(f: Frame, c: string, k: nat): (r: seq<Cell>)
    ensures |r| == |f.rows| && forall i :: 0 <= i < |f.rows| ==> r[i] == Piece(Get(f, i, c), k)
  {
    seq(|f.rows|, i requires 0 <= i < |f.rows| => Piece(Get(f, i, c), k))
  }

  /** `f` with the first two split pieces of column `c` assigned to `a` and `b`. */
  function WithPieces(f: Frame, c: string, a: string, b: string): (r: Frame)
    requires WellFormed(f)
    ensures WellFormed(r) && |r.rows| == |f.rows|
    ensures forall d :: d in r.columns <==> d in f.columns || d == a || d == b
    ensures a != b ==> forall i :: 0 <= i < |f.rows| ==> Get(r, i, a) == Piece(Get(f, i, c), 0)
    ensures forall i :: 0 <= i < |f.rows| ==> Get(r, i, b) == Piece(Get(f, i, c), 1)
    ensures forall i, d :: 0 <= i < |f.rows| && d != a && d != b ==> Get(r, i, d) == Get(f, i, d)
  {
    var g := AssignColumn(f, a, PieceColumn(f, c, 0));
    AssignColumn(g, b, PieceColumn(f, c, 1))
  }

  /** `f[[a, b]] = f[c].str.split('-', expand=True)`: the split must give
      exactly two columns, or the assignment raises ValueError. */
  function SplitColumn(f: Frame, c: string, a: string, b: string): (r: Result<Frame>)
    requires WellFormed(f)
    ensures c !in f.columns ==> r == Err(KeyError(c))
    ensures c in f.columns ==> (r.Ok? <==> SplitsInTwo(f, c))
    ensures c in f.columns && r.Err? ==> r.error == SplitShape
    ensures r.Ok? ==> r.value == WithPieces(f, c, a, b)
  {
    if c !in f.columns then Err(KeyError(c))
    else if !SplitsInTwo(f, c) then Err(SplitShape)
    else Ok(WithPieces(f, c, a, b))
  }

  /** Column `c` holds no number, so `clean_text` can be applied to each cell. */
  predicate NoNumbers(f: Frame, c: string) {
    forall i :: 0 <= i < |f.rows| ==> !Get(f, i, c).Num?
  }

  /** A column that holds, row by row, the key of columns `a` and `b`, none
      of whose cells holds a hyphen, splits back into them, as text. */
  lemma SplitKeyColumn(f: Frame, c: string, a: string, b: string)
    requires WellFormed(f) && c in f.columns && a != b && |f.rows| > 0
    requires forall i :: 0 <= i < |f.rows| ==> '-' !in AsStr(Get(f, i, a)) && '-' !in AsStr(Get(f, i, b))
    requires forall i :: 0 <= i < |f.rows| ==> Get(f, i, c) == JoinKey(Get(f, i, a), Get(f, i, b))
    ensures SplitColumn(f, c, a, b).Ok?
    ensures forall i :: 0 <= i < |f.rows| ==>
      Get(SplitColumn(f, c, a, b).value, i, a) == Str(AsStr(Get(f, i, a))) &&
      Get(SplitColumn(f, c, a, b).value, i, b) == Str(AsStr(Get(f, i, b)))
  {
    forall i | 0 <= i < |f.rows| ensures Pieces(Get(f, i, c)) == [AsStr(Get(f, i, a)), AsStr(Get(f, i, b))] {
      SplitJoinKey(Get(f, i, a), Get(f, i, b));
    }
    assert |Pieces(Get(f, 0, c))| == 2;
  }

  /** `f[t] = f[c].apply(clean_text)`. */
  function AssignClean(tr: string -> string, f: Frame, c: string, t: string): (r: Result<Frame>)
    requires WellFormed(f)
    ensures r.Ok? <==> c in f.columns && NoNumbers(f, c)
    ensures r.Err? ==> r.error == if c in f.columns then AttributeError else KeyError(c)
    ensures r.Ok? ==> WellFormed(r.value) && |r.value.rows| == |f.rows|
    ensures r.Ok? ==> r.value.columns == WithLabel(f.columns, t)
    ensures r.Ok? ==> forall i :: 0 <= i < |f.rows| ==>
      CleanText(tr, Get(f, i, c)).Ok? && Get(r.value, i, t) == CleanText(tr, Get(f, i, c)).value
    ensures r.Ok? ==> forall i, d :: 0 <= i < |f.rows| && d != t ==> Get(r.value, i, d) == Get(f, i, d)
  {
    var vals :- CleanColumn(tr, f, c);
    Ok(AssignColumn(f, t, vals))
  }

  /** `f[c] = f[c].astype(str)`. */
  function AssignText(f: Frame, c: string): (r: Result<Frame>)
    requires WellFormed(f)
    ensures r.Ok? <==> c in f.columns
    ensures r.Err? ==> r.error == KeyError(c)
    ensures r.Ok? ==> WellFormed(r.value) && |r.value.rows| == |f.rows| && r.value.columns == f.columns
    ensures r.Ok? ==> forall i :: 0 <= i < |f.rows| ==> Get(r.value, i, c) == Str(AsStr(Get(f, i, c)))
    ensures r.Ok? ==> forall i, d :: 0 <= i < |f.rows| && d != c ==> Get(r.value, i, d) == Get(f, i, d)
  {
    var vals :- TextColumn(f, c);
    Ok(AssignColumn(f, c, vals))
  }

  /** `f[t] = f[a].astype(str) + '-' + f[b].astype(str)`. */
  function AssignKey(f: Frame, a: string, b: string, t: string): (r: Result<Frame>)
    requires WellFormed(f)
    ensures r.Ok? <==> a in f.columns && b in f.columns
    ensures r.Err? ==> r.error == KeyError(a) || r.error == KeyError(b)
    ensures r.Ok? ==> WellFormed(r.value) && |r.value.rows| == |f.rows|
    ensures r.Ok? ==> r.value.columns == WithLabel(f.columns, t)
    ensures r.Ok? ==> forall i :: 0 <= i < |f.rows| ==> Get(r.value, i, t) == JoinKey(Get(f, i, a), Get(f, i, b))
    ensures r.Ok? ==> forall i, d :: 0 <= i < |f.rows| && d != t ==> Get(r.value, i, d) == Get(f, i, d)
  {
    var vals :- KeyColumn(f, a, b);
    Ok(AssignColumn(f, t, vals))
  }

  /** `f[ta] = f[a].apply(clean_text)`, `f[tb] = f[b].apply(clean_text)`,
      then `f[ta] = f[ta].astype(str)` and `f[tb] = f[tb].astype(str)`: two
      names cleaned into text columns, a missing name as "nan". */
  function AssignCleanPair(tr: string -> string, f: Frame, a: string, b: string, ta: string, tb: string): (r: Result<Frame>)
    requires WellFormed(f) && ta != tb && ta != b
    ensures r.Ok? <==> a in f.columns && b in f.columns && NoNumbers(f, a) && NoNumbers(f, b)
    ensures r.Err? ==> r.error.KeyError? || r.error == AttributeError
    ensures r.Err? && a in f.columns && b in f.columns ==> r.error == AttributeError
    ensures r.Ok? ==> WellFormed(r.value) && |r.value.rows| == |f.rows|
    ensures r.Ok? ==> r.value.columns == WithLabel(WithLabel(f.columns, ta), tb)
    ensures r.Ok? ==> forall i :: 0 <= i < |f.rows| ==>
      && CleanText(tr, Get(f, i, a)).Ok? && CleanText(tr, Get(f, i, b)).Ok?
      && Get(r.value, i, ta) == Str(AsStr(CleanText(tr, Get(f, i, a)).value))
      && Get(r.value, i, tb) == Str(AsStr(CleanText(tr, Get(f, i, b)).value))
    ensures r.Ok? ==> forall i, d :: 0 <= i < |f.rows| && d != ta && d != tb ==> Get(r.value, i, d) == Get(f, i, d)
  {
    var g1 :- AssignClean(tr, f, a, ta);
    assert NoNumbers(g1, b) == NoNumbers(f, b) by {
      assert forall i :: 0 <= i < |f.rows| ==> Get(g1, i, b) == Get(f, i, b);
    }
    var g2 :- AssignClean(tr, g1, b, tb);
    var g3 := AssignText(g2, ta).value;
    AssignText(g3, tb)
  }

  /** The state-municipality key of two name cells: each cleaned with
      `clean_text`, converted to text (a missing name as "nan") and joined
      with '-'. */
  function NameKey(tr: string -> string, e: Cell, m: Cell): (r: Cell)
    requires !e.Num? && !m.Num?
  {
    JoinKey(CleanText(tr, e).value, CleanText(tr, m).value)
  }

  /** When neither cleaned name holds a hyphen, splitting the name key at
      '-' gives back the two cleaned names. */
  lemma NameKeySplits(tr: string -> string, e: Cell, m: Cell)
    requires !e.Num? && !m.Num?
    requires '-' !in AsStr(CleanText(tr, e).value) && '-' !in AsStr(CleanText(tr, m).value)
    ensures NameKey(tr, e, m).Str?
    ensures Split(NameKey(tr, e, m).s, '-') == [AsStr(CleanText(tr, e).value), AsStr(CleanText(tr, m).value)]
  {
    SplitJoinKey(CleanText(tr, e).value, CleanText(tr, m).value);
  }

  /** Two names cleaned into text columns `ta` and `tb`, then
      `f[k] = f[ta] + '-' + f[tb]`: the state-municipality key of cleaned
      names that both sides of the producer dictionary build. */
  function AssignNameKey(tr: string -> string, f: Frame, a: string, b: string, ta: string, tb: string, k: string): (r: Result<Frame>)
    requires WellFormed(f) && ta != tb && ta != b && k != ta && k != tb
    ensures r.Ok? <==> a in f.columns && b in f.columns && NoNumbers(f, a) && NoNumbers(f, b)
    ensures r.Err? ==> r.error.KeyError? || r.error == AttributeError
    ensures r.Err? && a in f.columns && b in f.columns ==> r.error == AttributeError
    ensures r.Ok? ==> WellFormed(r.value) && |r.value.rows| == |f.rows|
    ensures r.Ok? ==> r.value.columns == WithLabel(WithLabel(WithLabel(f.columns, ta), tb), k)
    ensures r.Ok? ==> forall i :: 0 <= i < |f.rows| ==>
      && CleanText(tr, Get(f, i, a)).Ok? && CleanText(tr, Get(f, i, b)).Ok?
      && Get(r.value, i, ta) == Str(AsStr(CleanText(tr, Get(f, i, a)).value))
      && Get(r.value, i, tb) == Str(AsStr(CleanText(tr, Get(f, i, b)).value))
      && Get(r.value, i, k) == NameKey(tr, Get(f, i, a), Get(f, i, b))
    ensures r.Ok? ==> forall i, d :: 0 <= i < |f.rows| && d != ta && d != tb && d != k ==> Get(r.value, i, d) == Get(f, i, d)
  {
    var g :- AssignCleanPair(tr, f, a, b, ta, tb);
    AssignKey(g, ta, tb, k)
  }

  /** `f[ta] = f[a].apply(clean_text)`, `f[tb] = f[b].apply(clean_text)`,
      then `f[k] = f[ta].astype(str) + '-' + f[tb].astype(str)`: the same key
      as `AssignNameKey`, with the cleaned names left as they are (a missing
      name stays missing). */
  function AssignCleanKey(tr: string -> string, f: Frame, a: string, b: string, ta: string, tb: string, k: string): (r: Result<Frame>)
    requires WellFormed(f) && ta != tb && ta != b && k != ta && k != tb
    ensures r.Ok? <==> a in f.columns && b in f.columns && NoNumbers(f, a) && NoNumbers(f, b)
    ensures r.Err? ==> r.error.KeyError? || r.error == AttributeError
    ensures r.Err? && a in f.columns && b in f.columns ==> r.error == AttributeError
    ensures r.Ok? ==> WellFormed(r.value) && |r.value.rows| == |f.rows|
    ensures r.Ok? ==> r.value.columns == WithLabel(WithLabel(WithLabel(f.columns, ta), tb), k)
    ensures r.Ok? ==> forall i :: 0 <= i < |f.rows| ==>
      && CleanText(tr, Get(f, i, a)).Ok? && CleanText(tr, Get(f, i, b)).Ok?
      && Get(r.value, i, ta) == CleanText(tr, Get(f, i, a)).value
      && Get(r.value, i, tb) == CleanText(tr, Get(f, i, b)).value
      && Get(r.value, i, k) == NameKey(tr, Get(f, i, a), Get(f, i, b))
    ensures r.Ok? ==> forall i, d :: 0 <= i < |f.rows| && d != ta && d != tb && d != k ==> Get(r.value, i, d) == Get(f, i, d)
  {
    var g1 :- AssignClean(tr, f, a, ta);
    assert NoNumbers(g1, b) == NoNumbers(f, b) by {
      assert forall i :: 0 <= i < |f.rows| ==> Get(g1, i, b) == Get(f, i, b);
    }
    var g2 :- AssignClean(tr, g1, b, tb);
    AssignKey(g2, ta, tb, k)
  }

  /** `f[cu] = f[ca] + '-' + f[cb]` on the codes, then the name key of
      `AssignNameKey`: the two keys the INEGI catalogue gets. What the new
      cells hold is stated by the lemmas below. */
  function AssignCodeAndNameKeys(tr: string -> string, f: Frame, ca: string, cb: string, cu: string,
                                 a: string, b: string, ta: string, tb: string, k: string): (r: Result<Frame>)
    requires WellFormed(f) && ta != tb && ta != b && k != ta && k != tb
    requires cu != a && cu != b && cu != ta && cu != tb && cu != k
    ensures r.Err? ==> r.error.KeyError? || r.error == AttributeError
    ensures r.Ok? ==> WellFormed(r.value) && |r.value.rows| == |f.rows|
    ensures r.Ok? ==> r.value.columns == WithLabel(WithLabel(WithLabel(WithLabel(f.columns, cu), ta), tb), k)
  {
    var g :- AssignKey(f, ca, cb, cu);
    AssignNameKey(tr, g, a, b, ta, tb, k)
  }

  /** Both keys can be built exactly when the four source columns exist and
      neither name column holds a number. */
  lemma AssignCodeAndNameKeysOk(tr: string -> string, f: Frame, ca: string, cb: string, cu: string,
                                a: string, b: string, ta: string, tb: string, k: string)
    requires WellFormed(f) && ta != tb && ta != b && k != ta && k != tb
    requires cu != a && cu != b && cu != ta && cu != tb && cu != k
    ensures AssignCodeAndNameKeys(tr, f, ca, cb, cu, a, b, ta, tb, k).Ok? <==>
      ca in f.columns && cb in f.columns && a in f.columns && b in f.columns && NoNumbers(f, a) && NoNumbers(f, b)
  {
    var g := AssignKey(f, ca, cb, cu);
    if g.Ok? {
      forall i | 0 <= i < |f.rows| ensures Get(g.value, i, a) == Get(f, i, a) && Get(g.value, i, b) == Get(f, i, b) {
      }
      assert NoNumbers(g.value, a) == NoNumbers(f, a) && NoNumbers(g.value, b) == NoNumbers(f, b);
    }
  }

  /** Row by row: the code key, the two cleaned names, and the key of those. */
  lemma AssignCodeAndNameKeysRows(tr: string -> string, f: Frame, ca: string, cb: string, cu: string,
                                  a: string, b: string, ta: string, tb: string, k: string, i: nat)
    requires WellFormed(f) && ta != tb && ta != b && k != ta && k != tb
    requires cu != a && cu != b && cu != ta && cu != tb && cu != k
    requires i < |f.rows|
    ensures var r := AssignCodeAndNameKeys(tr, f, ca, cb, cu, a, b, ta, tb, k);
      r.Ok? ==>
        && CleanText(tr, Get(f, i, a)).Ok? && CleanText(tr, Get(f, i, b)).Ok?
        && Get(r.value, i, cu) == JoinKey(Get(f, i, ca), Get(f, i, cb))
        && Get(r.value, i, ta) == Str(AsStr(CleanText(tr, Get(f, i, a)).value))
        && Get(r.value, i, tb) == Str(AsStr(CleanText(tr, Get(f, i, b)).value))
        && Get(r.value, i, k) == NameKey(tr, Get(f, i, a), Get(f, i, b))
  {
    var g := AssignKey(f, ca, cb, cu);
    if g.Ok? {
      assert Get(g.value, i, a) == Get(f, i, a) && Get(g.value, i, b) == Get(f, i, b);
    }
  }

  /** Row by row, every other column keeps its cell. */
  lemma AssignCodeAndNameKeysOthers(tr: string -> string, f: Frame, ca: string, cb: string, cu: string,
                                    a: string, b: string, ta: string, tb: string, k: string, i: nat, d: string)
    requires WellFormed(f) && ta != tb && ta != b && k != ta && k != tb
    requires cu != a && cu != b && cu != ta && cu != tb && cu != k
    requires i < |f.rows| && d != cu && d != ta && d != tb && d != k
    ensures var r := AssignCodeAndNameKeys(tr, f, ca, cb, cu, a, b, ta, tb, k);
      r.Ok? ==> Get(r.value, i, d) == Get(f, i, d)
  {
    var g := AssignKey(f, ca, cb, cu);
    if g.Ok? {
      assert Get(g.value, i, d) == Get(f, i, d);
    }
  }
}
