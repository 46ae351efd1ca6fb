/** A pandas DataFrame as a header of column labels over a sequence of rows,
    and the pure table operations the pipeline applies to it: column access,
    column assignment, `drop`, selection, `drop_duplicates`, `dropna`,
    boolean-mask filters, `rename` and `concat`. The default integer index is
    not modelled: a row is identified by its position. */
module Frames {
  import opened Base
  import opened Seqs

  type Row = seq<Cell>

  datatype Frame = Frame(columns: seq<string>, rows: seq<Row>)

  /** Labels are distinct and every row has one cell per label. */
  predicate WellFormed(f: Frame) {
    Distinct(f.columns) && forall i :: 0 <= i < |f.rows| ==> |f.rows[i]| == |f.columns|
  }

  /** The position of label `c` in `cols`. */
  function IndexOf(cols: seq<string>, c: string): (r: Option<nat>)
    ensures r.None? <==> c !in cols
    ensures r.Some? ==> r.value < |cols| && cols[r.value] == c
    decreases |cols|
  {
    if cols == [] then None
    else if cols[0] == c then Some(0)
    else match IndexOf(cols[1..], c)
      case Some(k) => Some(k + 1)
      case None => None
  }

  /** With distinct labels, a label's position is the one it sits at. */
  lemma IndexOfDistinct(cols: seq<string>, k: nat)
    requires Distinct(cols) && k < |cols|
    ensures IndexOf(cols, cols[k]) == Some(k)
  {
  }

  /** The cell of `row` under label `c` of header `cols`; NaN when there is no
      such column. */
  function At(cols: seq<string>, row: Row, c: string): Cell {
    match IndexOf(cols, c)
    case Some(k) => if k < |row| then row[k] else NaN
    case None => NaN
  }

  /** `f[c].iloc[i]`. */
  function Get(f: Frame, i: nat, c: string): Cell
    requires i < |f.rows|
  {
    At(f.columns, f.rows[i], c)
  }

  /** `f[c].tolist()`. */
  function Column(f: Frame, c: string): (r: seq<Cell>)
    ensures |r| == |f.rows|
    ensures forall i :: 0 <= i < |r| ==> r[i] == Get(f, i, c)
  {
    seq(|f.rows|, i requires 0 <= i < |f.rows| => Get(f, i, c))
  }

  /** The first label of `cs` that `cols` lacks. */
  function FirstMissing(cols: seq<string>, cs: seq<string>): (r: Option<string>)
    ensures r.None? <==> forall t :: 0 <= t < |cs| ==> cs[t] in cols
    ensures r.Some? ==> r.value in cs && r.value !in cols
    decreases |cs|
  {
    if cs == [] then None
    else if cs[0] !in cols then Some(cs[0])
    else
      var r := FirstMissing(cols, cs[1..]);
      assert forall t :: 1 <= t < |cs| ==> cs[t] == cs[1..][t - 1];
      r
  }

  /** The table re-laid on header `cols`: each cell looked up by label, NaN
      where `f` has no such column (pandas `reindex`). */
  function Reindex(f: Frame, cols: seq<string>): (r: Frame)
    ensures r.columns == cols && |r.rows| == |f.rows|
    ensures forall i :: 0 <= i < |r.rows| ==> |r.rows[i]| == |cols|
    ensures forall i, t :: 0 <= i < |r.rows| && 0 <= t < |cols| ==> r.rows[i][t] == Get(f, i, cols[t])
  {
    Frame(cols, seq(|f.rows|, i requires 0 <= i < |f.rows| =>
      seq(|cols|, t requires 0 <= t < |cols| => Get(f, i, cols[t]))))
  }

  /** Re-laying keeps the value under every label of the new header. */
  lemma ReindexGet(f: Frame, cols: seq<string>, i: nat, c: string)
    requires i < |f.rows| && c in cols
    ensures Get(Reindex(f, cols), i, c) == Get(f, i, c)
  {
    var t := IndexOf(cols, c).value;
    assert Reindex(f, cols).rows[i][t] == Get(f, i, cols[t]);
  }

  /** Re-laying a table on its own header changes nothing. */
  lemma ReindexSelf(f: Frame)
    requires WellFormed(f)
    ensures Reindex(f, f.columns) == f
  {
    var r := Reindex(f, f.columns);
    forall i | 0 <= i < |f.rows| ensures r.rows[i] == f.rows[i] {
      forall t | 0 <= t < |f.columns| ensures r.rows[i][t] == f.rows[i][t] {
        IndexOfDistinct(f.columns, t);
      }
    }
  }

  /** Re-laying on distinct labels gives a well-formed table. */
  lemma ReindexWellFormed(f: Frame, cols: seq<string>)
    requires Distinct(cols)
    ensures WellFormed(Reindex(f, cols))
  {
  }

  /** The header after assigning column `c`: unchanged when `c` is already
      there, `c` appended on the right otherwise. */
  function WithLabel(cols: seq<string>, c: string): (r: seq<string>)
    ensures forall d :: d in r <==> d in cols || d == c
    ensures Distinct(cols) ==> Distinct(r)
  {
    if c in cols then cols else cols + [c]
  }

  /** `f[c] = vals`: an existing column is overwritten where it stands, a new
      one is appended on the right; every other cell is kept. */
  function AssignColumn(f: Frame, c: string, vals: seq<Cell>): (r: Frame)
    requires WellFormed(f) && |vals| == |f.rows|
    ensures WellFormed(r)
    ensures r.columns == WithLabel(f.columns, c)
    ensures |r.rows| == |f.rows|
    ensures forall i :: 0 <= i < |r.rows| ==> Get(r, i, c) == vals[i]
    ensures forall i, d :: 0 <= i < |r.rows| && d != c ==> Get(r, i, d) == Get(f, i, d)
  {
    var cols := if c in f.columns then f.columns else f.columns + [c];
    var k := if c in f.columns then IndexOf(f.columns, c).value else |f.columns|;
    var rows := seq(|f.rows|, i requires 0 <= i < |f.rows| =>
      if k < |f.columns| then f.rows[i][k := vals[i]] else f.rows[i] + [vals[i]]);
    var r := Frame(cols, rows);
    assert Distinct(cols);
    assert cols[k] == c;
    IndexOfDistinct(cols, k);
    forall i, d | 0 <= i < |rows| && d != c ensures Get(r, i, d) == Get(f, i, d) {
      if d in f.columns {
        var t := IndexOf(f.columns, d).value;
        IndexOfDistinct(cols, t);
      }
    }
    r
  }

  /** `f[cs]`: the listed columns in the listed order. An absent label raises
      KeyError; a repeated one would give two columns one label. */
  function Select(f: Frame, cs: seq<string>): (r: Result<Frame>)
    requires WellFormed(f)
    ensures FirstMissing(f.columns, cs).Some? ==> r == Err(KeyError(FirstMissing(f.columns, cs).value))
    ensures FirstMissing(f.columns, cs).None? && !Distinct(cs) ==> r.Err? && r.error.DuplicateColumn?
    ensures r.Ok? <==> FirstMissing(f.columns, cs).None? && Distinct(cs)
    ensures r.Ok? ==> WellFormed(r.value) && r.value.columns == cs && |r.value.rows| == |f.rows|
    ensures r.Ok? ==> forall i, c :: 0 <= i < |f.rows| && c in cs ==> Get(r.value, i, c) == Get(f, i, c)
  {
    match FirstMissing(f.columns, cs)
    case Some(c) => Err(KeyError(c))
    case None =>
      var k := FirstRepeat(cs);
      if k < |cs| then Err(DuplicateColumn(cs[k]))
      else
        ReindexWellFormed(f, cs);
        assert forall i, c :: 0 <= i < |f.rows| && c in cs ==> Get(Reindex(f, cs), i, c) == Get(f, i, c) by {
          forall i, c | 0 <= i < |f.rows| && c in cs ensures Get(Reindex(f, cs), i, c) == Get(f, i, c) {
            ReindexGet(f, cs, i, c);
          }
        }
        Ok(Reindex(f, cs))
  }

  function NotIn(cs: seq<string>): string -> bool {
    (c: string) => c !in cs
  }

  /** The labels of `cols` that are not in `cs`, in order. */
  function Remaining(cols: seq<string>, cs: seq<string>): (r: seq<string>)
    ensures forall t :: 0 <= t < |r| ==> r[t] in cols && r[t] !in cs
    ensures forall t :: 0 <= t < |cols| && cols[t] !in cs ==> cols[t] in r
    ensures Distinct(cols) ==> Distinct(r)
    ensures (forall t :: 0 <= t < |cols| ==> cols[t] in cs) ==> r == []
  {
    var r := Filter(cols, NotIn(cs));
    FilterDistinct(cols, NotIn(cs));
    if forall t :: 0 <= t < |cols| ==> cols[t] in cs then
      FilterNone(cols, NotIn(cs));
      r
    else r
  }

  /** `f.drop(columns=cs)`: every listed column goes, all others stay in order
      with their values. An absent label raises KeyError. */
  function Drop(f: Frame, cs: seq<string>): (r: Result<Frame>)
    requires WellFormed(f)
    ensures FirstMissing(f.columns, cs).Some? ==> r == Err(KeyError(FirstMissing(f.columns, cs).value))
    ensures r.Ok? <==> FirstMissing(f.columns, cs).None?
    ensures r.Ok? ==> WellFormed(r.value) && r.value.columns == Remaining(f.columns, cs)
    ensures r.Ok? ==> |r.value.rows| == |f.rows|
    ensures r.Ok? ==> forall c :: c in r.value.columns <==> c in f.columns && c !in cs
    ensures r.Ok? ==> forall i, c :: 0 <= i < |f.rows| && c in r.value.columns ==> Get(r.value, i, c) == Get(f, i, c)
  {
    match FirstMissing(f.columns, cs)
    case Some(c) => Err(KeyError(c))
    case None =>
      var cols := Remaining(f.columns, cs);
      ReindexWellFormed(f, cols);
      assert forall i, c :: 0 <= i < |f.rows| && c in cols ==> Get(Reindex(f, cols), i, c) == Get(f, i, c) by {
        forall i, c | 0 <= i < |f.rows| && c in cols ensures Get(Reindex(f, cols), i, c) == Get(f, i, c) {
          ReindexGet(f, cols, i, c);
        }
      }
      Ok(Reindex(f, cols))
  }

  /** The identity key: `drop_duplicates()` compares whole rows. */
  function WholeRow(row: Row): Row {
    row
  }

  /** `f.drop_duplicates()`: a row goes when an identical row comes earlier;
      the survivors keep their order. */
  function DropDuplicates(f: Frame): (r: Frame)
    requires WellFormed(f)
    ensures WellFormed(r) && r.columns == f.columns
    ensures IsSubsequence(r.rows, f.rows)
    ensures Distinct(r.rows)
    ensures KeysOf(r.rows, WholeRow) == KeysOf(f.rows, WholeRow)
  {
    var rows := KeepFirst(f.rows, WholeRow);
    KeepFirstSubsequence(f.rows, WholeRow);
    SubsequenceMembers(rows, f.rows);
    KeepFirstUnique(f.rows, WholeRow);
    UniqueKeysDistinct(rows, WholeRow);
    KeepFirstKeys(f.rows, WholeRow);
    Frame(f.columns, rows)
  }

  /** Two rows of a well-formed table that agree under every label are the
      same row. */
  lemma SameCellsSameRow(f: Frame, s: nat, t: nat)
    requires WellFormed(f) && s < |f.rows| && t < |f.rows|
    requires forall c :: c in f.columns ==> Get(f, s, c) == Get(f, t, c)
    ensures f.rows[s] == f.rows[t]
  {
    forall k | 0 <= k < |f.columns| ensures f.rows[s][k] == f.rows[t][k] {
      IndexOfDistinct(f.columns, k);
      assert Get(f, s, f.columns[k]) == Get(f, t, f.columns[k]);
    }
  }

  /** Every row `drop_duplicates` keeps is a row of the input. */
  lemma DropDuplicatesFrom(f: Frame, t: nat)
    requires WellFormed(f) && t < |DropDuplicates(f).rows|
    ensures exists j :: 0 <= j < |f.rows| && DropDuplicates(f).rows[t] == f.rows[j]
  {
    var r := DropDuplicates(f);
    SubsequenceMembers(r.rows, f.rows);
    assert r.rows[t] in f.rows;
  }

  /** Every input row has an equal row among those `drop_duplicates` keeps. */
  lemma DropDuplicatesCovers(f: Frame, j: nat)
    requires WellFormed(f) && j < |f.rows|
    ensures exists t :: 0 <= t < |DropDuplicates(f).rows| && DropDuplicates(f).rows[t] == f.rows[j]
  {
    var r := DropDuplicates(f);
    assert WholeRow(f.rows[j]) in KeysOf(f.rows, WholeRow);
    assert WholeRow(f.rows[j]) in KeysOf(r.rows, WholeRow);
  }

  /** Every row `drop_duplicates` keeps is the first occurrence of that row
      in the input (keep='first'): no earlier input row equals it. */
  lemma DropDuplicatesKeepsFirst(f: Frame, t: nat)
    requires WellFormed(f) && t < |DropDuplicates(f).rows|
    ensures exists i :: (0 <= i < |f.rows| && DropDuplicates(f).rows[t] == f.rows[i] &&
      forall j :: 0 <= j < i ==> f.rows[j] != f.rows[i])
  {
    KeepFirstFirsts(f.rows, WholeRow, t);
    var i :| 0 <= i < |f.rows| && KeepFirst(f.rows, WholeRow)[t] == f.rows[i] && FirstOfItsKey(f.rows, WholeRow, i);
    forall j | 0 <= j < i ensures f.rows[j] != f.rows[i] {
      assert WholeRow(f.rows[j]) != WholeRow(f.rows[i]);
    }
  }

  /** The rows `drop_duplicates` keeps come in the order in which they first
      occur in the input. */
  lemma DropDuplicatesFirstOrder(f: Frame, t: nat, u: nat, i: nat, j: nat)
    requires WellFormed(f) && t < u < |DropDuplicates(f).rows|
    requires i < |f.rows| && f.rows[i] == DropDuplicates(f).rows[t] && forall k :: 0 <= k < i ==> f.rows[k] != f.rows[i]
    requires j < |f.rows| && f.rows[j] == DropDuplicates(f).rows[u] && forall k :: 0 <= k < j ==> f.rows[k] != f.rows[j]
    ensures i < j
  {
    assert FirstOfItsKey(f.rows, WholeRow, i) && FirstOfItsKey(f.rows, WholeRow, j);
    KeepFirstOrder(f.rows, WholeRow, t, u, i, j);
  }

  /** The cells of `row` under the labels `cs`. */
  function KeyOn(cols: seq<string>, cs: seq<string>): Row -> seq<Cell> {
    (row: Row) => seq(|cs|, t requires 0 <= t < |cs| => At(cols, row, cs[t]))
  }

  /** `f.drop_duplicates(subset=cs, keep='first')`: a row goes when an earlier
      row has the same cells under `cs`. An absent label raises KeyError. */
  function DropDuplicatesOn(f: Frame, cs: seq<string>): (r: Result<Frame>)
    requires WellFormed(f)
    ensures FirstMissing(f.columns, cs).Some? ==> r == Err(KeyError(FirstMissing(f.columns, cs).value))
    ensures r.Ok? <==> FirstMissing(f.columns, cs).None?
    ensures r.Ok? ==> WellFormed(r.value) && r.value.columns == f.columns
    ensures r.Ok? ==> IsSubsequence(r.value.rows, f.rows)
    ensures r.Ok? ==> UniqueKeys(r.value.rows, KeyOn(f.columns, cs))
    ensures r.Ok? ==> KeysOf(r.value.rows, KeyOn(f.columns, cs)) == KeysOf(f.rows, KeyOn(f.columns, cs))
  {
    match FirstMissing(f.columns, cs)
    case Some(c) => Err(KeyError(c))
    case None =>
      var key := KeyOn(f.columns, cs);
      var rows := KeepFirst(f.rows, key);
      KeepFirstSubsequence(f.rows, key);
      SubsequenceMembers(rows, f.rows);
      KeepFirstUnique(f.rows, key);
      KeepFirstKeys(f.rows, key);
      Ok(Frame(f.columns, rows))
  }

  /** After de-duplicating on one column no two rows share its value. */
  lemma DropDuplicatesOnOneColumn(f: Frame, c: string)
    requires WellFormed(f) && DropDuplicatesOn(f, [c]).Ok?
    ensures forall i, j :: 0 <= i < j < |DropDuplicatesOn(f, [c]).value.rows| ==>
      Get(DropDuplicatesOn(f, [c]).value, i, c) != Get(DropDuplicatesOn(f, [c]).value, j, c)
  {
    var r := DropDuplicatesOn(f, [c]).value;
    var key := KeyOn(f.columns, [c]);
    forall i, j | 0 <= i < j < |r.rows| ensures Get(r, i, c) != Get(r, j, c) {
      assert key(r.rows[i]) != key(r.rows[j]);
      assert key(r.rows[i]) == [Get(r, i, c)] && key(r.rows[j]) == [Get(r, j, c)];
    }
  }

  /** After de-duplicating on one column every value of it keeps a row. */
  lemma DropDuplicatesOnOneColumnCovers(f: Frame, c: string, i: nat)
    requires WellFormed(f) && DropDuplicatesOn(f, [c]).Ok? && i < |f.rows|
    ensures exists t :: 0 <= t < |DropDuplicatesOn(f, [c]).value.rows| && Get(DropDuplicatesOn(f, [c]).value, t, c) == Get(f, i, c)
  {
    var r := DropDuplicatesOn(f, [c]).value;
    var key := KeyOn(f.columns, [c]);
    assert key(f.rows[i]) in KeysOf(f.rows, key);
    var t :| 0 <= t < |r.rows| && key(r.rows[t]) == key(f.rows[i]);
    assert key(r.rows[t]) == [Get(r, t, c)];
    assert key(f.rows[i]) == [Get(f, i, c)];
  }

  /** Each survivor of a keep-first de-duplication on `cs` is the first row
      of the input with its key. */
  lemma DropDuplicatesOnKeepsFirst(f: Frame, cs: seq<string>, t: nat)
    requires WellFormed(f) && DropDuplicatesOn(f, cs).Ok? && t < |DropDuplicatesOn(f, cs).value.rows|
    ensures exists i :: (0 <= i < |f.rows| && DropDuplicatesOn(f, cs).value.rows[t] == f.rows[i] &&
      FirstOfItsKey(f.rows, KeyOn(f.columns, cs), i))
  {
    KeepFirstFirsts(f.rows, KeyOn(f.columns, cs), t);
  }

  /** The rows `drop_duplicates(subset)` keeps come in the order in which
      their keys first occur in the input. */
  lemma DropDuplicatesOnFirstOrder(f: Frame, cs: seq<string>, t: nat, u: nat, i: nat, j: nat)
    requires WellFormed(f) && DropDuplicatesOn(f, cs).Ok? && t < u < |DropDuplicatesOn(f, cs).value.rows|
    requires FirstOfItsKey(f.rows, KeyOn(f.columns, cs), i)
    requires KeyOn(f.columns, cs)(f.rows[i]) == KeyOn(f.columns, cs)(DropDuplicatesOn(f, cs).value.rows[t])
    requires FirstOfItsKey(f.rows, KeyOn(f.columns, cs), j)
    requires KeyOn(f.columns, cs)(f.rows[j]) == KeyOn(f.columns, cs)(DropDuplicatesOn(f, cs).value.rows[u])
    ensures i < j
  {
    KeepFirstOrder(f.rows, KeyOn(f.columns, cs), t, u, i, j);
  }

  /** The row has no missing cell. */
  predicate Complete(row: Row) {
    NaN !in row
  }

  /** `f.dropna()`: exactly the rows without a missing cell stay, in order. */
  function DropNa(f: Frame): (r: Frame)
    requires WellFormed(f)
    ensures WellFormed(r) && r.columns == f.columns
    ensures IsSubsequence(r.rows, f.rows)
    ensures forall i :: 0 <= i < |r.rows| ==> Complete(r.rows[i])
    ensures forall i :: 0 <= i < |f.rows| && Complete(f.rows[i]) ==> f.rows[i] in r.rows
  {
    FilterSubsequence(f.rows, Complete);
    Frame(f.columns, Filter(f.rows, Complete))
  }

  /** `f[f[c] == v]` for a text `v`: the rows whose cell under `c` is exactly
      `v`; a missing cell never equals. An absent label raises KeyError. */
  function FilterEq(f: Frame, c: string, v: string): (r: Result<Frame>)
    requires WellFormed(f)
    ensures c !in f.columns ==> r == Err(KeyError(c))
    ensures c in f.columns ==> r.Ok? && WellFormed(r.value) && r.value.columns == f.columns
    ensures r.Ok? ==> IsSubsequence(r.value.rows, f.rows)
    ensures r.Ok? ==> forall i :: 0 <= i < |r.value.rows| ==> Get(r.value, i, c) == Str(v)
    ensures r.Ok? ==> forall i :: 0 <= i < |f.rows| && Get(f, i, c) == Str(v) ==> f.rows[i] in r.value.rows
  {
    if c !in f.columns then Err(KeyError(c))
    else
      var keep := (row: Row) => At(f.columns, row, c) == Str(v);
      FilterSubsequence(f.rows, keep);
      Ok(Frame(f.columns, Filter(f.rows, keep)))
  }

  /** `f[f[c] != v]` for a text `v`: the rows whose cell under `c` is not `v`;
      a missing cell is kept. An absent label raises KeyError. */
  function FilterNe(f: Frame, c: string, v: string): (r: Result<Frame>)
    requires WellFormed(f)
    ensures c !in f.columns ==> r == Err(KeyError(c))
    ensures c in f.columns ==> r.Ok? && WellFormed(r.value) && r.value.columns == f.columns
    ensures r.Ok? ==> IsSubsequence(r.value.rows, f.rows)
    ensures r.Ok? ==> forall i :: 0 <= i < |r.value.rows| ==> Get(r.value, i, c) != Str(v)
    ensures r.Ok? ==> forall i :: 0 <= i < |f.rows| && Get(f, i, c) != Str(v) ==> f.rows[i] in r.value.rows
  {
    if c !in f.columns then Err(KeyError(c))
    else
      var keep := (row: Row) => At(f.columns, row, c) != Str(v);
      FilterSubsequence(f.rows, keep);
      Ok(Frame(f.columns, Filter(f.rows, keep)))
  }

  /** The new label of `c` under mapping `m`; unmapped labels keep theirs. */
  function Renamed(m: map<string, string>, c: string): string {
    if c in m then m[c] else c
  }

  /** `f.rename(columns=m)`: labels change, cells do not. A mapping that would
      give two columns one label is reported. */
  function Rename(f: Frame, m: map<string, string>): (r: Result<Frame>)
    requires WellFormed(f)
    ensures r.Ok? <==> Distinct(seq(|f.columns|, k requires 0 <= k < |f.columns| => Renamed(m, f.columns[k])))
    ensures r.Err? ==> r.error.DuplicateColumn?
    ensures r.Ok? ==> WellFormed(r.value) && r.value.rows == f.rows && |r.value.columns| == |f.columns|
    ensures r.Ok? ==> forall k :: 0 <= k < |f.columns| ==> r.value.columns[k] == Renamed(m, f.columns[k])
    ensures r.Ok? ==> forall i, c :: 0 <= i < |f.rows| && c in f.columns ==> Get(r.value, i, Renamed(m, c)) == Get(f, i, c)
  {
    var cols := seq(|f.columns|, k requires 0 <= k < |f.columns| => Renamed(m, f.columns[k]));
    var k := FirstRepeat(cols);
    if k < |cols| then Err(DuplicateColumn(cols[k]))
    else
      var r := Frame(cols, f.rows);
      forall i, c | 0 <= i < |f.rows| && c in f.columns ensures Get(r, i, Renamed(m, c)) == Get(f, i, c) {
        var t := IndexOf(f.columns, c).value;
        IndexOfDistinct(cols, t);
      }
      Ok(r)
  }

  /** The header of `concat([a, b])`: the labels of `a`, then the new labels of `b`. */
  function UnionColumns(a: seq<string>, b: seq<string>): (r: seq<string>)
    ensures Distinct(a) && Distinct(b) ==> Distinct(r)
    ensures forall c :: c in r <==> c in a || c in b
  {
    var extra := Remaining(b, a);
    assert forall c :: c in extra ==> c !in a;
    a + extra
  }

  /** `pd.concat([a, b])`: the rows of `a` then those of `b`, on the union of
      the headers; a cell a table lacks is NaN. */
  function Concat(a: Frame, b: Frame): (r: Frame)
    requires WellFormed(a) && WellFormed(b)
    ensures WellFormed(r) && r.columns == UnionColumns(a.columns, b.columns)
    ensures |r.rows| == |a.rows| + |b.rows|
    ensures forall i, c :: 0 <= i < |a.rows| ==> Get(r, i, c) == Get(a, i, c)
    ensures forall i, c :: 0 <= i < |b.rows| ==> Get(r, |a.rows| + i, c) == Get(b, i, c)
  {
    var cols := UnionColumns(a.columns, b.columns);
    var ra, rb := Reindex(a, cols), Reindex(b, cols);
    ReindexKeeps(a, cols);
    ReindexKeeps(b, cols);
    assert WellFormed(ra) && WellFormed(rb);
    AppendWellFormed(ra, rb);
    AppendRows(ra, rb);
    Frame(cols, ra.rows + rb.rows)
  }

  /** Appending the rows of a well-formed table with the same header keeps
      the table well formed. */
  lemma AppendWellFormed(x: Frame, y: Frame)
    requires WellFormed(x) && WellFormed(y) && x.columns == y.columns
    ensures WellFormed(Frame(x.columns, x.rows + y.rows))
  {
    var rows := x.rows + y.rows;
    forall i | 0 <= i < |rows| ensures |rows[i]| == |x.columns| {
      if i >= |x.rows| { assert rows[i] == y.rows[i - |x.rows|]; }
    }
  }

  /** Appending the rows of a table with the same header keeps both tables' cells. */
  lemma AppendRows(x: Frame, y: Frame)
    requires x.columns == y.columns
    ensures forall i, c :: 0 <= i < |x.rows| ==> Get(Frame(x.columns, x.rows + y.rows), i, c) == Get(x, i, c)
    ensures forall i, c :: 0 <= i < |y.rows| ==> Get(Frame(x.columns, x.rows + y.rows), |x.rows| + i, c) == Get(y, i, c)
  {
    var r := Frame(x.columns, x.rows + y.rows);
    forall i, c | 0 <= i < |x.rows| ensures Get(r, i, c) == Get(x, i, c) {
      assert r.rows[i] == x.rows[i];
    }
    forall i, c | 0 <= i < |y.rows| ensures Get(r, |x.rows| + i, c) == Get(y, i, c) {
      assert r.rows[|x.rows| + i] == y.rows[i];
    }
  }

  /** Re-laying a table on a header that holds all its labels keeps every cell. */
  lemma ReindexKeeps(f: Frame, cols: seq<string>)
    requires forall c :: c in f.columns ==> c in cols
    ensures forall i, c :: 0 <= i < |f.rows| ==> Get(Reindex(f, cols), i, c) == Get(f, i, c)
  {
    forall i, c | 0 <= i < |f.rows| ensures Get(Reindex(f, cols), i, c) == Get(f, i, c) {
      if c in cols { ReindexGet(f, cols, i, c); }
    }
  }

  /** Tables with one header concatenate by appending their rows. */
  lemma ConcatSameColumns(a: Frame, b: Frame)
    requires WellFormed(a) && WellFormed(b) && a.columns == b.columns
    ensures Concat(a, b) == Frame(a.columns, a.rows + b.rows)
  {
    assert UnionColumns(a.columns, b.columns) == a.columns;
    ReindexSelf(a);
    ReindexSelf(b);
  }

  /** The number of rows of the tables in `fs`, together. */
  function TotalRows(fs: seq<Frame>): nat
    decreases |fs|
  {
    if fs == [] then 0 else TotalRows(fs[..|fs| - 1]) + |fs[|fs| - 1].rows|
  }

  /** Table `k` ends within the rows of the tables up to `n`. */
  lemma {:induction false} TotalRowsPrefix(fs: seq<Frame>, k: nat, n: nat)
    requires k < n <= |fs|
    ensures TotalRows(fs[..k]) + |fs[k].rows| <= TotalRows(fs[..n])
    decreases n
  {
    assert fs[..n][..n - 1] == fs[..n - 1];
    if k < n - 1 {
      TotalRowsPrefix(fs, k, n - 1);
    } else {
      assert fs[..n][n - 1] == fs[k];
    }
  }

  /** The labels of all of `fs`, in order of first appearance. */
  function AllColumns(fs: seq<Frame>): (r: seq<string>)
    ensures (forall k :: 0 <= k < |fs| ==> Distinct(fs[k].columns)) ==> Distinct(r)
    ensures forall k, c :: 0 <= k < |fs| && c in fs[k].columns ==> c in r
    decreases |fs|
  {
    if fs == [] then []
    else
      var init := fs[..|fs| - 1];
      var a := AllColumns(init);
      var r := UnionColumns(a, fs[|fs| - 1].columns);
      AllColumnsStep(fs, init, a, r);
      r
  }

  /** The step of `AllColumns`: labels of the earlier tables are in `a`, and
      the union adds the last table's. */
  lemma AllColumnsStep(fs: seq<Frame>, init: seq<Frame>, a: seq<string>, r: seq<string>)
    requires |fs| > 0 && init == fs[..|fs| - 1]
    requires (forall k :: 0 <= k < |init| ==> Distinct(init[k].columns)) ==> Distinct(a)
    requires forall k, c :: 0 <= k < |init| && c in init[k].columns ==> c in a
    requires Distinct(a) && Distinct(fs[|fs| - 1].columns) ==> Distinct(r)
    requires forall c :: c in r <==> c in a || c in fs[|fs| - 1].columns
    ensures (forall k :: 0 <= k < |fs| ==> Distinct(fs[k].columns)) ==> Distinct(r)
    ensures forall k, c :: 0 <= k < |fs| && c in fs[k].columns ==> c in r
  {
    assert forall k :: 0 <= k < |init| ==> init[k] == fs[k];
  }

  /** The rows of `fs` one table after another, each re-laid on `cols`. */
  function StackedRows(fs: seq<Frame>, cols: seq<string>): (r: seq<Row>)
    ensures |r| == TotalRows(fs)
    ensures forall j :: 0 <= j < |r| ==> |r[j]| == |cols|
    decreases |fs|
  {
    if fs == [] then []
    else StackedRows(fs[..|fs| - 1], cols) + Reindex(fs[|fs| - 1], cols).rows
  }

  /** Row `i` of table `k` sits after the rows of the tables before it. */
  lemma {:induction false} StackedRowsAt(fs: seq<Frame>, cols: seq<string>, k: nat, i: nat)
    requires k < |fs| && i < |fs[k].rows|
    ensures TotalRows(fs[..k]) + i < TotalRows(fs)
    ensures StackedRows(fs, cols)[TotalRows(fs[..k]) + i] == Reindex(fs[k], cols).rows[i]
    decreases |fs|
  {
    var n := |fs| - 1;
    var init := fs[..n];
    if k < n {
      assert init[k] == fs[k] && init[..k] == fs[..k];
      StackedRowsAt(init, cols, k, i);
    } else {
      assert fs[..k] == init;
    }
  }

  /** `pd.concat(fs, axis=0)`: the rows of the tables one after another under
      the labels of all of them, NaN where a table lacks a label. */
  function ConcatAll(fs: seq<Frame>): (r: Frame)
    requires forall k :: 0 <= k < |fs| ==> WellFormed(fs[k])
    ensures WellFormed(r) && |r.rows| == TotalRows(fs)
    ensures forall k, c :: 0 <= k < |fs| && c in fs[k].columns ==> c in r.columns
  {
    var cols := AllColumns(fs);
    assert forall k :: 0 <= k < |fs| ==> WellFormed(fs[k]) && Distinct(fs[k].columns);
    Frame(cols, StackedRows(fs, cols))
  }

  /** Row `i` of table `k` is row `TotalRows(fs[..k]) + i` of the
      concatenation, every cell kept. */
  lemma ConcatAllCarries(fs: seq<Frame>, k: nat, i: nat, c: string)
    requires forall j :: 0 <= j < |fs| ==> WellFormed(fs[j])
    requires k < |fs| && i < |fs[k].rows|
    ensures TotalRows(fs[..k]) + i < |ConcatAll(fs).rows|
    ensures Get(ConcatAll(fs), TotalRows(fs[..k]) + i, c) == Get(fs[k], i, c)
  {
    var cols := AllColumns(fs);
    var r := ConcatAll(fs);
    assert r == Frame(cols, StackedRows(fs, cols));
    var f := Reindex(fs[k], cols);
    StackedRowsAt(fs, cols, k, i);
    assert r.rows[TotalRows(fs[..k]) + i] == f.rows[i];
    assert Get(r, TotalRows(fs[..k]) + i, c) == Get(f, i, c);
    ReindexKeeps(fs[k], cols);
  }
}
