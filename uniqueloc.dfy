/** `inegi_uniqueloc.py`: for one state of a cleaned INEGI catalogue, add the
    municipality and locality keys, keep that state's distinct rows, report
    how many rows repeat a (state, municipality, locality) name triple, keep
    per (municipality, locality) name pair the row of largest population,
    drop the municipality key and save the table under a per-state name. */
module UniqueLoc {
  import opened Base
  import opened Seqs
  import opened Text
  import opened Keys
  import opened Frames
  import opened Derive
  import opened Tables

  /** The cleaned names `clean_inegi` writes, from which the keys are joined. */
  const EntidadClean := "Entidad_c_inegi"
  const MunicipioClean := "Municipio_c_inegi"
  const LocalidadClean := "Localidad_c_inegi"
  const Entidad := "Entidad_inegi"
  const Municipio := "Municipio_inegi"
  const Localidad := "Localidad_inegi"
  const Population := "POB_TOTAL"
  const MunicipioKey := "KEY_inegi_municipio"
  const LocalidadKey := "KEY_inegi_localidad"

  /** The labels the duplicate report groups by. */
  const Place := [Entidad, Municipio, Localidad]
  /** The labels the population selection groups by. */
  const Pair := [Municipio, Localidad]

  /** The cells of every row of `f` under the labels `cs`. */
  function KeysOn(f: Frame, cs: seq<string>): (r: seq<seq<Cell>>)
    ensures |r| == |f.rows|
    ensures forall i :: 0 <= i < |f.rows| ==> r[i] == KeyOn(f.columns, cs)(f.rows[i])
  {
    seq(|f.rows|, i requires 0 <= i < |f.rows| => KeyOn(f.columns, cs)(f.rows[i]))
  }

  /** No component of a group key is missing; `groupby` drops the other rows. */
  predicate NoMissing(k: seq<Cell>) {
    forall t :: 0 <= t < |k| ==> !k[t].NaN?
  }

  // ---------------------------------------------------------------------
  // The duplicate report (lines 18-33)
  // ---------------------------------------------------------------------

  /** The mask of `duplicated(keep=False)`: the key occurs more than once. */
  function Repeated(ks: seq<seq<Cell>>): seq<Cell> -> bool {
    k => Count(ks, k) > 1
  }

  function Grouped(): seq<Cell> -> bool {
    k => NoMissing(k)
  }

  /** A repeated key that `groupby` keeps. */
  function RepeatedGrouped(ks: seq<seq<Cell>>): seq<Cell> -> bool {
    k => NoMissing(k) && Count(ks, k) > 1
  }

  /** `duplicated(keep=False)` selects every row whose key occurs more than
      once, `groupby(...).size()` counts the rows of each group whose key has
      no missing component, and the report adds the counts up. */
  function DuplicateTotal(ks: seq<seq<Cell>>): nat {
    var duplicated := Filter(ks, Repeated(ks));
    var grouped := Filter(duplicated, Grouped());
    var groups := KeepFirst(grouped, (k: seq<Cell>) => k);
    SumCounts(grouped, groups)
  }

  /** The total reported is the number of rows whose key has no missing
      component and is shared with another row. */
  lemma DuplicateTotalCounts(ks: seq<seq<Cell>>)
    ensures DuplicateTotal(ks) == |Filter(ks, RepeatedGrouped(ks))|
    ensures forall i :: 0 <= i < |ks| ==>
      (RepeatedGrouped(ks)(ks[i]) <==> NoMissing(ks[i]) && exists j :: 0 <= j < |ks| && j != i && ks[j] == ks[i])
  {
    var id := (k: seq<Cell>) => k;
    var grouped := Filter(Filter(ks, Repeated(ks)), Grouped());
    var groups := KeepFirst(grouped, id);
    FilterFilter(ks, Repeated(ks), Grouped(), RepeatedGrouped(ks));
    KeepFirstUnique(grouped, id);
    UniqueKeysDistinct(groups, id);
    KeepFirstKeys(grouped, id);
    forall k | 0 <= k < |grouped| ensures grouped[k] in groups {
      assert id(grouped[k]) in KeysOf(grouped, id);
      var m :| 0 <= m < |groups| && id(groups[m]) == id(grouped[k]);
    }
    SumCountsCovers(grouped, groups);
    forall i | 0 <= i < |ks| ensures
      RepeatedGrouped(ks)(ks[i]) <==> NoMissing(ks[i]) && exists j :: 0 <= j < |ks| && j != i && ks[j] == ks[i]
    {
      CountRepeated(ks, i);
    }
  }

  /** With no repeated key nothing is reported. */
  lemma DuplicateTotalOfDistinct(ks: seq<seq<Cell>>)
    requires Distinct(ks)
    ensures DuplicateTotal(ks) == 0
  {
    DuplicateTotalCounts(ks);
    forall k | 0 <= k < |ks| ensures !RepeatedGrouped(ks)(ks[k]) {
      CountRepeated(ks, k);
    }
    FilterNone(ks, RepeatedGrouped(ks));
  }

  /** The report on `f`; an absent label raises KeyError. */
  function DuplicateReport(f: Frame): (r: Result<nat>)
    ensures FirstMissing(f.columns, Place).Some? ==> r == Err(KeyError(FirstMissing(f.columns, Place).value))
    ensures r.Ok? <==> FirstMissing(f.columns, Place).None?
  {
    match FirstMissing(f.columns, Place)
    case Some(c) => Err(KeyError(c))
    case None => Ok(DuplicateTotal(KeysOn(f, Place)))
  }

  // ---------------------------------------------------------------------
  // The largest locality of each (municipality, locality) pair (line 36)
  // ---------------------------------------------------------------------

  /** The earliest position holding the largest number of `pops` among the
      first `n` rows whose key is `g`; None when none of them holds a number
      (`idxmax` skips NaN). */
  function ArgMaxUpTo(ks: seq<seq<Cell>>, pops: seq<Cell>, g: seq<Cell>, n: nat): (r: Option<nat>)
    requires |ks| == |pops| && n <= |ks|
    ensures r.None? <==> forall j :: 0 <= j < n && ks[j] == g ==> !pops[j].Num?
    ensures r.Some? ==> r.value < n && ks[r.value] == g && pops[r.value].Num?
    ensures r.Some? ==> forall j :: 0 <= j < n && ks[j] == g && pops[j].Num? ==> pops[j].n <= pops[r.value].n
    ensures r.Some? ==> forall j :: 0 <= j < r.value && ks[j] == g && pops[j].Num? ==> pops[j].n < pops[r.value].n
    decreases n
  {
    if n == 0 then None
    else
      var prev := ArgMaxUpTo(ks, pops, g, n - 1);
      if ks[n - 1] == g && pops[n - 1].Num? && (prev.None? || pops[prev.value].n < pops[n - 1].n) then Some(n - 1)
      else prev
  }

  /** Row `i` is the one `idxmax` reports for its group. */
  predicate Wins(ks: seq<seq<Cell>>, pops: seq<Cell>, i: nat)
    requires |ks| == |pops| && i < |ks|
  {
    NoMissing(ks[i]) && ArgMaxUpTo(ks, pops, ks[i], |ks|) == Some(i)
  }

  /** The winning positions below `n`, in increasing order. */
  function WinnersUpTo(ks: seq<seq<Cell>>, pops: seq<Cell>, n: nat): (w: seq<nat>)
    requires |ks| == |pops| && n <= |ks|
    ensures Increasing(w)
    ensures forall t :: 0 <= t < |w| ==> w[t] < n && Wins(ks, pops, w[t])
    ensures forall i :: 0 <= i < n && Wins(ks, pops, i) ==> i in w
    decreases n
  {
    if n == 0 then []
    else
      var w := WinnersUpTo(ks, pops, n - 1);
      if Wins(ks, pops, n - 1) then w + [n - 1] else w
  }

  /** Every group without a missing key component has a numeric population,
      and none holds text. */
  predicate Selectable(ks: seq<seq<Cell>>, pops: seq<Cell>)
    requires |ks| == |pops|
  {
    forall i :: 0 <= i < |ks| && NoMissing(ks[i]) ==> !pops[i].Str? && HasPopulation(ks, pops, ks[i])
  }

  /** Some row of group `g` holds a number. */
  predicate HasPopulation(ks: seq<seq<Cell>>, pops: seq<Cell>, g: seq<Cell>)
    requires |ks| == |pops|
  {
    exists j :: 0 <= j < |ks| && ks[j] == g && pops[j].Num?
  }

  /** `groupby(...).idxmax()` on the keys `ks` and populations `pops`: the
      winning positions, or the error raised. */
  function Winners(ks: seq<seq<Cell>>, pops: seq<Cell>): (r: Result<seq<nat>>)
    requires |ks| == |pops|
    ensures r.Ok? <==> Selectable(ks, pops)
    ensures r.Err? ==>
      (r.error == NonNumericPopulation <==> exists i :: 0 <= i < |ks| && NoMissing(ks[i]) && pops[i].Str?)
    ensures r.Err? ==> r.error == NonNumericPopulation || r.error == MissingPopulation
    ensures r.Ok? ==> r.value == WinnersUpTo(ks, pops, |ks|)
  {
    if exists i :: 0 <= i < |ks| && NoMissing(ks[i]) && pops[i].Str? then Err(NonNumericPopulation)
    else if exists i :: 0 <= i < |ks| && NoMissing(ks[i]) && ArgMaxUpTo(ks, pops, ks[i], |ks|).None? then
      Err(MissingPopulation)
    else Ok(WinnersUpTo(ks, pops, |ks|))
  }

  /** `f.loc[f.groupby(gs)[p].idxmax()]`: per group of rows with equal cells
      under `gs` (none missing), the first row of largest population. The
      winners keep their input order. An absent label raises KeyError, a text
      population NonNumericPopulation and a group without any population
      MissingPopulation. */
  function SelectMax(f: Frame, gs: seq<string>, p: string): (r: Result<Frame>)
    requires WellFormed(f)
    ensures FirstMissing(f.columns, gs + [p]).Some? ==> r == Err(KeyError(FirstMissing(f.columns, gs + [p]).value))
    ensures r.Ok? <==> FirstMissing(f.columns, gs + [p]).None? && Selectable(KeysOn(f, gs), Column(f, p))
    ensures r.Err? && FirstMissing(f.columns, gs + [p]).None? ==>
      (r.error == NonNumericPopulation <==>
        exists i :: 0 <= i < |f.rows| && NoMissing(KeysOn(f, gs)[i]) && Column(f, p)[i].Str?)
    ensures r.Err? ==> r.error.KeyError? || r.error == NonNumericPopulation || r.error == MissingPopulation
    ensures r.Ok? ==> WellFormed(r.value) && r.value.columns == f.columns
    ensures r.Ok? ==> r.value.rows == Pick(f.rows, WinnersUpTo(KeysOn(f, gs), Column(f, p), |f.rows|))
  {
    match FirstMissing(f.columns, gs + [p])
    case Some(c) => Err(KeyError(c))
    case None =>
      var w :- Winners(KeysOn(f, gs), Column(f, p));
      Ok(Frame(f.columns, Pick(f.rows, w)))
  }

  /** The selected rows are rows of `f`, in their order. */
  lemma SelectMaxSubsequence(f: Frame, gs: seq<string>, p: string)
    requires WellFormed(f) && SelectMax(f, gs, p).Ok?
    ensures IsSubsequence(SelectMax(f, gs, p).value.rows, f.rows)
  {
    var ks, pops := KeysOn(f, gs), Column(f, p);
    PickSubsequence(f.rows, WinnersUpTo(ks, pops, |ks|));
  }

  /** Row `i` holds the largest population of its group, and every earlier
      row of the group a smaller one. */
  predicate LargestIn(ks: seq<seq<Cell>>, pops: seq<Cell>, i: nat)
    requires |ks| == |pops| && i < |ks|
  {
    NoMissing(ks[i]) && pops[i].Num? &&
    forall j :: 0 <= j < |ks| && ks[j] == ks[i] && pops[j].Num? ==>
      pops[j].n <= pops[i].n && (j < i ==> pops[j].n < pops[i].n)
  }

  lemma WinsLargest(ks: seq<seq<Cell>>, pops: seq<Cell>, i: nat)
    requires |ks| == |pops| && i < |ks| && Wins(ks, pops, i)
    ensures LargestIn(ks, pops, i)
  {
  }

  /** A selectable group has a winner. */
  lemma WinnerOfGroup(ks: seq<seq<Cell>>, pops: seq<Cell>, i: nat)
    requires |ks| == |pops| && i < |ks| && Selectable(ks, pops) && NoMissing(ks[i])
    ensures exists t :: 0 <= t < |WinnersUpTo(ks, pops, |ks|)| && ks[WinnersUpTo(ks, pops, |ks|)[t]] == ks[i]
  {
    var w := WinnersUpTo(ks, pops, |ks|);
    var j :| 0 <= j < |ks| && ks[j] == ks[i] && pops[j].Num?;
    var m := ArgMaxUpTo(ks, pops, ks[i], |ks|);
    assert m.Some?;
    var v := m.value;
    assert ks[v] == ks[i];
    assert ArgMaxUpTo(ks, pops, ks[v], |ks|) == Some(v);
    assert Wins(ks, pops, v);
    var t :| 0 <= t < |w| && w[t] == v;
  }

  /** Every selected row is the largest of its group. */
  lemma SelectMaxLargest(f: Frame, gs: seq<string>, p: string, t: nat)
    requires WellFormed(f) && SelectMax(f, gs, p).Ok? && t < |SelectMax(f, gs, p).value.rows|
    ensures exists i :: (0 <= i < |f.rows| && SelectMax(f, gs, p).value.rows[t] == f.rows[i] &&
      LargestIn(KeysOn(f, gs), Column(f, p), i))
  {
    var ks, pops := KeysOn(f, gs), Column(f, p);
    var w := WinnersUpTo(ks, pops, |ks|);
    var i := w[t];
    WinsLargest(ks, pops, i);
    assert SelectMax(f, gs, p).value.rows[t] == f.rows[i];
  }

  /** No two selected rows share a group. */
  lemma SelectMaxUnique(f: Frame, gs: seq<string>, p: string)
    requires WellFormed(f) && SelectMax(f, gs, p).Ok?
    ensures UniqueKeys(SelectMax(f, gs, p).value.rows, KeyOn(f.columns, gs))
  {
    var ks, pops := KeysOn(f, gs), Column(f, p);
    var w := WinnersUpTo(ks, pops, |ks|);
    var r := SelectMax(f, gs, p).value;
    forall s, t | 0 <= s < t < |r.rows| ensures KeyOn(f.columns, gs)(r.rows[s]) != KeyOn(f.columns, gs)(r.rows[t]) {
      assert Wins(ks, pops, w[s]) && Wins(ks, pops, w[t]);
      assert w[s] < w[t];
    }
  }

  /** Every group of `f` without a missing key component has a selected row. */
  lemma SelectMaxCovers(f: Frame, gs: seq<string>, p: string, i: nat)
    requires WellFormed(f) && SelectMax(f, gs, p).Ok? && i < |f.rows|
    requires NoMissing(KeyOn(f.columns, gs)(f.rows[i]))
    ensures exists t :: (0 <= t < |SelectMax(f, gs, p).value.rows| &&
      KeyOn(f.columns, gs)(SelectMax(f, gs, p).value.rows[t]) == KeyOn(f.columns, gs)(f.rows[i]))
  {
    var ks, pops := KeysOn(f, gs), Column(f, p);
    var w := WinnersUpTo(ks, pops, |ks|);
    var r := SelectMax(f, gs, p).value;
    WinnerOfGroup(ks, pops, i);
    var t :| 0 <= t < |w| && ks[w[t]] == ks[i];
    assert r.rows[t] == f.rows[w[t]];
  }

  // ---------------------------------------------------------------------
  // procesar_datos_inegi_por_estado (lines 3-45)
  // ---------------------------------------------------------------------

  /** Lines 8-9: the municipality key from the state and municipality codes,
      the locality key from the municipality and locality codes. */
  function Keyed(f: Frame): (r: Result<Frame>)
    requires WellFormed(f)
    ensures r.Ok? <==> EntidadClean in f.columns && MunicipioClean in f.columns && LocalidadClean in f.columns
    ensures r.Err? ==> r.error.KeyError?
    ensures r.Ok? ==> WellFormed(r.value) && |r.value.rows| == |f.rows|
    ensures r.Ok? ==> forall c :: c in r.value.columns <==> c in f.columns || c == MunicipioKey || c == LocalidadKey
    ensures r.Ok? ==> forall i :: 0 <= i < |f.rows| ==>
      Get(r.value, i, MunicipioKey) == JoinKey(Get(f, i, EntidadClean), Get(f, i, MunicipioClean)) &&
      Get(r.value, i, LocalidadKey) == JoinKey(Get(f, i, MunicipioClean), Get(f, i, LocalidadClean))
    ensures r.Ok? ==> forall i, c :: 0 <= i < |f.rows| && c != MunicipioKey && c != LocalidadKey ==>
      Get(r.value, i, c) == Get(f, i, c)
  {
    var k1 :- KeyColumn(f, EntidadClean, MunicipioClean);
    var g := AssignColumn(f, MunicipioKey, k1);
    var k2 :- KeyColumn(g, MunicipioClean, LocalidadClean);
    Ok(AssignColumn(g, LocalidadKey, k2))
  }

  /** What one call leaves behind: the duplicate total it prints and the
      table it saves. */
  datatype Outcome = Outcome(duplicates: nat, saved: Frame)

  /** Lines 12-15: the distinct rows of state `estado`. */
  function OfState(g: Frame, estado: string): (r: Result<Frame>)
    requires WellFormed(g)
    ensures r.Ok? <==> Entidad in g.columns
    ensures r.Err? ==> r.error == KeyError(Entidad)
    ensures r.Ok? ==> WellFormed(r.value) && r.value.columns == g.columns && Distinct(r.value.rows)
    ensures r.Ok? ==> forall t :: 0 <= t < |r.value.rows| ==> r.value.rows[t] in g.rows && Get(r.value, t, Entidad) == Str(estado)
    ensures r.Ok? ==> forall i :: 0 <= i < |g.rows| && Get(g, i, Entidad) == Str(estado) ==> g.rows[i] in r.value.rows
  {
    var st :- FilterEq(g, Entidad, estado);
    var d := DropDuplicates(st);
    SubsequenceMembers(d.rows, st.rows);
    SubsequenceMembers(st.rows, g.rows);
    assert forall i :: 0 <= i < |st.rows| ==> st.rows[i] in d.rows by {
      forall i | 0 <= i < |st.rows| ensures st.rows[i] in d.rows {
        assert WholeRow(st.rows[i]) in KeysOf(d.rows, WholeRow);
      }
    }
    forall t | 0 <= t < |d.rows| ensures Get(d, t, Entidad) == Str(estado) {
      var i :| 0 <= i < |st.rows| && st.rows[i] == d.rows[t];
      assert Get(d, t, Entidad) == Get(st, i, Entidad);
    }
    Ok(d)
  }

  /** Lines 8-15: the keyed, distinct rows of the state. */
  function Candidates(f: Frame, estado: string): (r: Result<Frame>)
    requires WellFormed(f)
  {
    var g :- Keyed(f);
    OfState(g, estado)
  }

  /** Lines 36-42: the largest locality per name pair, without the
      municipality key, de-duplicated on the name pair. */
  function Finish(d: Frame): (r: Result<Frame>)
    requires WellFormed(d)
  {
    var s :- SelectMax(d, Pair, Population);
    var s1 :- Drop(s, [MunicipioKey]);
    DropDuplicatesOn(s1, Pair)
  }

  /** The whole of one call: keys, the state's distinct rows, the duplicate
      report, the largest locality per name pair, the municipality key
      dropped and the final de-duplication on the name pair. */
  function Process(f: Frame, estado: string): (r: Result<Outcome>)
    requires WellFormed(f)
  {
    var d :- Candidates(f, estado);
    var total :- DuplicateReport(d);
    var saved :- Finish(d);
    Ok(Outcome(total, saved))
  }

  /** Lines 3-45 as written: the keys are assigned into the table read from
      disk, the selection is taken, and the last two steps change it in place. */
  method ProcesarDatosInegiPorEstado(inegi: Frame, estado: string) returns (r: Result<Outcome>)
    requires WellFormed(inegi)
    ensures r == Process(inegi, estado)
  {
    var t := new Table(inegi);
    var k1 := KeyColumn(t.Value(), EntidadClean, MunicipioClean);
    if k1.Err? {
      return Err(k1.error);
    }
    t.Assign(MunicipioKey, k1.value);
    var k2 := KeyColumn(t.Value(), MunicipioClean, LocalidadClean);
    if k2.Err? {
      return Err(k2.error);
    }
    t.Assign(LocalidadKey, k2.value);
    var d := OfState(t.Value(), estado);
    if d.Err? {
      return Err(d.error);
    }
    var total := DuplicateReport(d.value);
    if total.Err? {
      return Err(total.error);
    }
    var s := SelectMax(d.value, Pair, Population);
    if s.Err? {
      return Err(s.error);
    }
    var u := new Table(s.value);
    var e := u.DropColumns([MunicipioKey]);
    if e.Some? {
      return Err(e.value);
    }
    e := u.DropDuplicateKeys(Pair);
    if e.Some? {
      return Err(e.value);
    }
    return Ok(Outcome(total.value, u.Value()));
  }

  // ---------------------------------------------------------------------
  // What one call saves
  // ---------------------------------------------------------------------

  /** A two-label key is the pair of the row's cells. */
  lemma KeyOnPair(f: Frame, i: nat, a: string, b: string)
    requires i < |f.rows|
    ensures KeyOn(f.columns, [a, b])(f.rows[i]) == [Get(f, i, a), Get(f, i, b)]
  {
  }

  /** Rows at two positions of frames with one header agree label by label. */
  lemma SameRowGet(a: Frame, t: nat, b: Frame, i: nat)
    requires t < |a.rows| && i < |b.rows| && a.columns == b.columns && a.rows[t] == b.rows[i]
    ensures forall c :: Get(a, t, c) == Get(b, i, c)
  {
  }

  /** Dropping columns leaves every other label's cells as they were. */
  lemma DropGet(f: Frame, ds: seq<string>, t: nat, c: string)
    requires WellFormed(f) && Drop(f, ds).Ok? && t < |f.rows| && c !in ds
    ensures Get(Drop(f, ds).value, t, c) == Get(f, t, c)
  {
    var d := Drop(f, ds).value;
    if c !in f.columns {
      assert c !in d.columns;
    }
  }

  /** Once no two rows share their cells under `gs`, dropping other columns
      and de-duplicating on `gs` removes nothing. */
  lemma DropKeepsUniqueKeys(f: Frame, ds: seq<string>, gs: seq<string>)
    requires WellFormed(f) && Drop(f, ds).Ok?
    requires forall k :: 0 <= k < |gs| ==> gs[k] in f.columns && gs[k] !in ds
    requires UniqueKeys(f.rows, KeyOn(f.columns, gs))
    ensures DropDuplicatesOn(Drop(f, ds).value, gs) == Ok(Drop(f, ds).value)
  {
    var d := Drop(f, ds).value;
    var key := KeyOn(d.columns, gs);
    forall i | 0 <= i < |d.rows| ensures key(d.rows[i]) == KeyOn(f.columns, gs)(f.rows[i]) {
      forall k | 0 <= k < |gs| ensures At(d.columns, d.rows[i], gs[k]) == At(f.columns, f.rows[i], gs[k]) {
        DropGet(f, ds, i, gs[k]);
      }
    }
    assert UniqueKeys(d.rows, key);
    KeepFirstOfUnique(d.rows, key);
    assert FirstMissing(d.columns, gs).None?;
  }

  /** Line 42 removes nothing: the selection already keeps one row per name
      pair. */
  lemma FinalDedupRemovesNothing(d: Frame)
    requires WellFormed(d) && Finish(d).Ok?
    ensures SelectMax(d, Pair, Population).Ok?
    ensures Finish(d).value == Drop(SelectMax(d, Pair, Population).value, [MunicipioKey]).value
  {
    var s := SelectMax(d, Pair, Population).value;
    SelectMaxUnique(d, Pair, Population);
    DropKeepsUniqueKeys(s, [MunicipioKey], Pair);
  }

  /** Rows `i` of `a` and `j` of `b` agree on every label but the two keys. */
  ghost predicate Copies(a: Frame, i: nat, b: Frame, j: nat)
    requires i < |a.rows| && j < |b.rows|
  {
    forall c :: c != MunicipioKey && c != LocalidadKey ==> Get(a, i, c) == Get(b, j, c)
  }

  /** No two finished rows share a name pair. */
  lemma FinishOnePerPair(d: Frame)
    requires WellFormed(d) && Finish(d).Ok?
    ensures forall s, t :: 0 <= s < t < |Finish(d).value.rows| ==>
      Get(Finish(d).value, s, Municipio) != Get(Finish(d).value, t, Municipio) ||
      Get(Finish(d).value, s, Localidad) != Get(Finish(d).value, t, Localidad)
  {
    var s := SelectMax(d, Pair, Population).value;
    var out := Finish(d).value;
    FinalDedupRemovesNothing(d);
    SelectMaxUnique(d, Pair, Population);
    forall a, b | 0 <= a < b < |out.rows| ensures
      Get(out, a, Municipio) != Get(out, b, Municipio) || Get(out, a, Localidad) != Get(out, b, Localidad)
    {
      DropGet(s, [MunicipioKey], a, Municipio);
      DropGet(s, [MunicipioKey], b, Municipio);
      DropGet(s, [MunicipioKey], a, Localidad);
      DropGet(s, [MunicipioKey], b, Localidad);
      KeyOnPair(s, a, Municipio, Localidad);
      KeyOnPair(s, b, Municipio, Localidad);
    }
  }

  /** Each finished row is, but for the municipality key, a row of `d` that
      is the largest of its name pair. */
  lemma FinishFromCandidate(d: Frame, t: nat)
    requires WellFormed(d) && Finish(d).Ok? && t < |Finish(d).value.rows|
    ensures exists k :: (0 <= k < |d.rows| && LargestIn(KeysOn(d, Pair), Column(d, Population), k) &&
      Get(Finish(d).value, t, LocalidadKey) == Get(d, k, LocalidadKey) && Copies(Finish(d).value, t, d, k))
  {
    var s := SelectMax(d, Pair, Population).value;
    var out := Finish(d).value;
    FinalDedupRemovesNothing(d);
    var w := WinnersUpTo(KeysOn(d, Pair), Column(d, Population), |d.rows|);
    var k := w[t];
    WinsLargest(KeysOn(d, Pair), Column(d, Population), k);
    SameRowGet(s, t, d, k);
    forall c | c != MunicipioKey ensures Get(out, t, c) == Get(d, k, c) {
      DropGet(s, [MunicipioKey], t, c);
    }
  }

  /** Every row of `d` with both names present has a finished row with its
      name pair. */
  lemma FinishCovers(d: Frame, k: nat)
    requires WellFormed(d) && Finish(d).Ok? && k < |d.rows|
    requires !Get(d, k, Municipio).NaN? && !Get(d, k, Localidad).NaN?
    ensures exists t :: (0 <= t < |Finish(d).value.rows| &&
      Get(Finish(d).value, t, Municipio) == Get(d, k, Municipio) && Get(Finish(d).value, t, Localidad) == Get(d, k, Localidad))
  {
    var s := SelectMax(d, Pair, Population).value;
    var out := Finish(d).value;
    FinalDedupRemovesNothing(d);
    KeyOnPair(d, k, Municipio, Localidad);
    SelectMaxCovers(d, Pair, Population, k);
    var t :| 0 <= t < |s.rows| && KeyOn(d.columns, Pair)(s.rows[t]) == KeyOn(d.columns, Pair)(d.rows[k]);
    KeyOnPair(s, t, Municipio, Localidad);
    DropGet(s, [MunicipioKey], t, Municipio);
    DropGet(s, [MunicipioKey], t, Localidad);
  }

  /** A candidate row is a keyed input row of the state. */
  lemma CandidateFromInput(f: Frame, estado: string, k: nat)
    requires WellFormed(f) && Candidates(f, estado).Ok? && k < |Candidates(f, estado).value.rows|
    ensures exists i :: (0 <= i < |f.rows| && Get(f, i, Entidad) == Str(estado) &&
      Get(Candidates(f, estado).value, k, LocalidadKey) == JoinKey(Get(f, i, MunicipioClean), Get(f, i, LocalidadClean)) &&
      Copies(Candidates(f, estado).value, k, f, i))
  {
    var g := Keyed(f).value;
    var d := Candidates(f, estado).value;
    var i :| 0 <= i < |g.rows| && g.rows[i] == d.rows[k];
    SameRowGet(d, k, g, i);
    assert Get(g, i, Entidad) == Str(estado);
  }

  /** Every input row of the state has a copy among the candidates. */
  lemma InputInCandidates(f: Frame, estado: string, j: nat)
    requires WellFormed(f) && Candidates(f, estado).Ok? && j < |f.rows| && Get(f, j, Entidad) == Str(estado)
    ensures exists m :: 0 <= m < |Candidates(f, estado).value.rows| && Copies(Candidates(f, estado).value, m, f, j)
  {
    var g := Keyed(f).value;
    var d := Candidates(f, estado).value;
    assert Get(g, j, Entidad) == Str(estado);
    assert g.rows[j] in d.rows;
    var m :| 0 <= m < |d.rows| && d.rows[m] == g.rows[j];
    CopiesThrough(d, m, g, j, f);
  }

  lemma CopiesThrough(d: Frame, m: nat, g: Frame, j: nat, f: Frame)
    requires m < |d.rows| && j < |g.rows| && j < |f.rows| && d.columns == g.columns && d.rows[m] == g.rows[j]
    requires forall c :: c != MunicipioKey && c != LocalidadKey ==> Get(g, j, c) == Get(f, j, c)
    ensures Copies(d, m, f, j)
  {
    SameRowGet(d, m, g, j);
  }

  lemma ProcessStages(f: Frame, estado: string)
    requires WellFormed(f) && Process(f, estado).Ok?
    ensures Candidates(f, estado).Ok? && Finish(Candidates(f, estado).value).Ok?
    ensures Process(f, estado).value.saved == Finish(Candidates(f, estado).value).value
  {
  }

  /** Every saved row belongs to the state and no two share a name pair. */
  lemma SavedOnePerPair(f: Frame, estado: string)
    requires WellFormed(f) && Process(f, estado).Ok?
    ensures forall t :: 0 <= t < |Process(f, estado).value.saved.rows| ==>
      Get(Process(f, estado).value.saved, t, Entidad) == Str(estado)
    ensures forall s, t :: 0 <= s < t < |Process(f, estado).value.saved.rows| ==>
      Get(Process(f, estado).value.saved, s, Municipio) != Get(Process(f, estado).value.saved, t, Municipio) ||
      Get(Process(f, estado).value.saved, s, Localidad) != Get(Process(f, estado).value.saved, t, Localidad)
  {
    ProcessStages(f, estado);
    var d := Candidates(f, estado).value;
    var out := Finish(d).value;
    FinishOnePerPair(d);
    forall t | 0 <= t < |out.rows| ensures Get(out, t, Entidad) == Str(estado) {
      FinishFromCandidate(d, t);
      var k :| 0 <= k < |d.rows| && LargestIn(KeysOn(d, Pair), Column(d, Population), k) &&
        Get(out, t, LocalidadKey) == Get(d, k, LocalidadKey) && Copies(out, t, d, k);
      assert Get(out, t, Entidad) == Get(d, k, Entidad);
    }
  }

  /** Row `i` of `f` holds the largest population among the rows of state
      `estado` with its municipality and locality names. */
  ghost predicate LargestInState(f: Frame, estado: string, i: nat)
    requires i < |f.rows|
  {
    Get(f, i, Population).Num? &&
    forall j :: (0 <= j < |f.rows| && Get(f, j, Entidad) == Str(estado) &&
      Get(f, j, Municipio) == Get(f, i, Municipio) && Get(f, j, Localidad) == Get(f, i, Localidad) &&
      Get(f, j, Population).Num?) ==> Get(f, j, Population).n <= Get(f, i, Population).n
  }

  /** The largest candidate of a name pair is the largest input row of the
      state with that pair. */
  lemma CandidateLargest(f: Frame, estado: string, k: nat, i: nat)
    requires WellFormed(f) && Candidates(f, estado).Ok? && k < |Candidates(f, estado).value.rows| && i < |f.rows|
    requires LargestIn(KeysOn(Candidates(f, estado).value, Pair), Column(Candidates(f, estado).value, Population), k)
    requires Copies(Candidates(f, estado).value, k, f, i)
    ensures LargestInState(f, estado, i)
  {
    var d := Candidates(f, estado).value;
    var ks, pops := KeysOn(d, Pair), Column(d, Population);
    KeyOnPair(d, k, Municipio, Localidad);
    assert ks[k] == [Get(f, i, Municipio), Get(f, i, Localidad)];
    forall j | 0 <= j < |f.rows| && Get(f, j, Entidad) == Str(estado) &&
      Get(f, j, Municipio) == Get(f, i, Municipio) && Get(f, j, Localidad) == Get(f, i, Localidad) &&
      Get(f, j, Population).Num?
      ensures Get(f, j, Population).n <= Get(f, i, Population).n
    {
      InputInCandidates(f, estado, j);
      var m :| 0 <= m < |d.rows| && Copies(d, m, f, j);
      KeyOnPair(d, m, Municipio, Localidad);
      assert ks[m] == ks[k];
      assert pops[m] == Get(f, j, Population);
    }
  }

  /** Saved row `t` of `out` comes from input row `i` of `f`: a row of the
      state with both names present and the largest population of its name
      pair, carried over with the locality key added and the municipality
      key gone. */
  ghost predicate SavedFrom(out: Frame, t: nat, f: Frame, estado: string, i: nat)
    requires t < |out.rows| && i < |f.rows|
  {
    Get(f, i, Entidad) == Str(estado) && !Get(f, i, Municipio).NaN? && !Get(f, i, Localidad).NaN? &&
    LargestInState(f, estado, i) &&
    Get(out, t, LocalidadKey) == JoinKey(Get(f, i, MunicipioClean), Get(f, i, LocalidadClean)) &&
    Get(out, t, MunicipioKey) == NaN &&
    Copies(out, t, f, i)
  }

  /** Every saved row comes from an input row as `SavedFrom` says. */
  lemma SavedLargest(f: Frame, estado: string, t: nat)
    requires WellFormed(f) && Process(f, estado).Ok? && t < |Process(f, estado).value.saved.rows|
    ensures exists i :: 0 <= i < |f.rows| && SavedFrom(Process(f, estado).value.saved, t, f, estado, i)
  {
    ProcessStages(f, estado);
    FinishedFrom(f, estado, Candidates(f, estado).value, Process(f, estado).value.saved, t);
  }

  lemma FinishedFrom(f: Frame, estado: string, d: Frame, out: Frame, t: nat)
    requires WellFormed(f) && Candidates(f, estado) == Ok(d) && WellFormed(d) && Finish(d) == Ok(out) && t < |out.rows|
    ensures exists i :: 0 <= i < |f.rows| && SavedFrom(out, t, f, estado, i)
  {
    FinishFromCandidate(d, t);
    var k :| 0 <= k < |d.rows| && LargestIn(KeysOn(d, Pair), Column(d, Population), k) &&
      Get(out, t, LocalidadKey) == Get(d, k, LocalidadKey) && Copies(out, t, d, k);
    CandidateFromInput(f, estado, k);
    var i :| 0 <= i < |f.rows| && Get(f, i, Entidad) == Str(estado) &&
      Get(d, k, LocalidadKey) == JoinKey(Get(f, i, MunicipioClean), Get(f, i, LocalidadClean)) && Copies(d, k, f, i);
    CandidateLargest(f, estado, k, i);
    NamesPresent(d, k, f, i);
    CopiesCompose(out, t, d, k, f, i);
    FinishDropsKey(d, t);
    assert SavedFrom(out, t, f, estado, i);
  }

  /** A candidate of a group that idxmax can pick has both names present. */
  lemma NamesPresent(d: Frame, k: nat, f: Frame, i: nat)
    requires k < |d.rows| && i < |f.rows| && LargestIn(KeysOn(d, Pair), Column(d, Population), k) && Copies(d, k, f, i)
    ensures !Get(f, i, Municipio).NaN? && !Get(f, i, Localidad).NaN?
  {
    KeyOnPair(d, k, Municipio, Localidad);
    assert KeysOn(d, Pair)[k][0] == Get(d, k, Municipio) && KeysOn(d, Pair)[k][1] == Get(d, k, Localidad);
  }

  lemma CopiesCompose(a: Frame, t: nat, b: Frame, k: nat, c: Frame, i: nat)
    requires t < |a.rows| && k < |b.rows| && i < |c.rows| && Copies(a, t, b, k) && Copies(b, k, c, i)
    ensures Copies(a, t, c, i)
  {
  }

  /** The municipality key is gone from the finished table. */
  lemma FinishDropsKey(d: Frame, t: nat)
    requires WellFormed(d) && Finish(d).Ok? && t < |Finish(d).value.rows|
    ensures Get(Finish(d).value, t, MunicipioKey) == NaN
  {
    FinalDedupRemovesNothing(d);
    assert MunicipioKey !in Finish(d).value.columns;
  }

  /** Every input row of the state with both names present has a saved row
      with its name pair. */
  lemma SavedCovers(f: Frame, estado: string, i: nat)
    requires WellFormed(f) && Process(f, estado).Ok? && i < |f.rows|
    requires Get(f, i, Entidad) == Str(estado) && !Get(f, i, Municipio).NaN? && !Get(f, i, Localidad).NaN?
    ensures exists t :: (0 <= t < |Process(f, estado).value.saved.rows| &&
      Get(Process(f, estado).value.saved, t, Municipio) == Get(f, i, Municipio) &&
      Get(Process(f, estado).value.saved, t, Localidad) == Get(f, i, Localidad))
  {
    ProcessStages(f, estado);
    var d := Candidates(f, estado).value;
    InputInCandidates(f, estado, i);
    var m :| 0 <= m < |d.rows| && Copies(d, m, f, i);
    assert Get(d, m, Municipio) == Get(f, i, Municipio) && Get(d, m, Localidad) == Get(f, i, Localidad);
    FinishCovers(d, m);
  }

  /** Grouping is by name, not by key: two rows of the state whose name pairs
      differ both leave a saved row, whatever their locality keys. */
  lemma RawNamesKeptApart(f: Frame, estado: string, i: nat, j: nat)
    requires WellFormed(f) && Process(f, estado).Ok? && i < |f.rows| && j < |f.rows|
    requires Get(f, i, Entidad) == Str(estado) && !Get(f, i, Municipio).NaN? && !Get(f, i, Localidad).NaN?
    requires Get(f, j, Entidad) == Str(estado) && !Get(f, j, Municipio).NaN? && !Get(f, j, Localidad).NaN?
    requires Get(f, i, Municipio) != Get(f, j, Municipio) || Get(f, i, Localidad) != Get(f, j, Localidad)
    ensures exists s, t :: (0 <= s < |Process(f, estado).value.saved.rows| && 0 <= t < |Process(f, estado).value.saved.rows| &&
      s != t &&
      Get(Process(f, estado).value.saved, s, Municipio) == Get(f, i, Municipio) &&
      Get(Process(f, estado).value.saved, s, Localidad) == Get(f, i, Localidad) &&
      Get(Process(f, estado).value.saved, t, Municipio) == Get(f, j, Municipio) &&
      Get(Process(f, estado).value.saved, t, Localidad) == Get(f, j, Localidad))
  {
    SavedCovers(f, estado, i);
    SavedCovers(f, estado, j);
  }
}
