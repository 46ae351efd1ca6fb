/** Preparation of the INEGI locality catalogue: unused columns are dropped,
    exact duplicate rows removed, the three name columns normalised into
    `*_Clean` columns, and the name columns renamed to the labels the later
    stages read (`Entidad_inegi`, `Entidad_c_inegi`, ...). */
module InegiCleaning {
  import opened Base
  import opened Normalizer
  import opened Frames
  import opened Derive
  import opened Tables

  /** The columns of the INEGI catalogue the pipeline never reads. */
  const ColumnsToDrop: seq<string> := ["MAPA", "Estatus", "NOM_ABR", "AMBITO", "LATITUD", "LONGITUD",
    "LAT_DECIMAL", "LON_DECIMAL", "ALTITUD", "CVE_CARTA", "POB_MASCULINA",
    "POB_FEMENINA", "TOTAL DE VIVIENDAS HABITADAS"]

  /** The name columns that get a normalised copy. */
  const ColumnsToClean: seq<string> := ["NOM_ENT", "NOM_MUN", "NOM_LOC"]

  /** The renaming applied to the cleaned catalogue; the `CVE_*` codes map to
      themselves. */
  const InegiNames: map<string, string> := map[
    "CVE_ENT" := "CVE_ENT", "NOM_ENT" := "Entidad_inegi",
    "CVE_MUN" := "CVE_MUN", "NOM_MUN" := "Municipio_inegi",
    "CVE_LOC" := "CVE_LOC", "NOM_LOC" := "Localidad_inegi",
    "NOM_ENT_Clean" := "Entidad_c_inegi", "NOM_MUN_Clean" := "Municipio_c_inegi",
    "NOM_LOC_Clean" := "Localidad_c_inegi"]

  /** The label of the normalised copy of column `c`. */
  function CleanLabel(c: string): string {
    c + "_Clean"
  }

  lemma CleanLabelInjective(a: string, b: string)
    requires CleanLabel(a) == CleanLabel(b)
    ensures a == b
  {
    assert a == CleanLabel(a)[..|a|] && b == CleanLabel(b)[..|b|];
  }

  /** The labels `clean_text_column(f, cs)` writes. */
  function Targets(cs: seq<string>): (r: seq<string>)
    ensures |r| == |cs| && forall k :: 0 <= k < |cs| ==> r[k] == CleanLabel(cs[k])
  {
    seq(|cs|, k requires 0 <= k < |cs| => CleanLabel(cs[k]))
  }

  /** No listed column is the normalised copy of a listed column, so no
      assignment overwrites a column a later one reads. */
  predicate Independent(cs: seq<string>) {
    forall a :: a in cs ==> CleanLabel(a) !in cs
  }

  /** The table after `clean_text_column(f, cs)`, and the error raised, if
      any: the columns are processed in order and a failing one leaves the
      earlier assignments in place. */
  function CleanColumns(tr: string -> string, f: Frame, cs: seq<string>): (r: (Frame, Option<Error>))
    requires WellFormed(f)
    ensures WellFormed(r.0) && |r.0.rows| == |f.rows|
    decreases |cs|
  {
    if |cs| == 0 then (f, None)
    else
      match CleanColumn(tr, f, cs[0])
      case Err(e) => (f, Some(e))
      case Ok(v) => CleanColumns(tr, AssignColumn(f, CleanLabel(cs[0]), v), cs[1..])
  }

  /** `clean_text_column(dataset, columns)`: the loop assigning each
      normalised copy into the caller's table. */
  method CleanTextColumn(t: Table, tr: string -> string, cs: seq<string>) returns (err: Option<Error>)
    requires t.Valid()
    modifies t
    ensures t.Valid() && (t.Value(), err) == CleanColumns(tr, old(t.Value()), cs)
  {
    var k := 0;
    while k < |cs|
      invariant 0 <= k <= |cs| && t.Valid()
      invariant CleanColumns(tr, old(t.Value()), cs) == CleanColumns(tr, t.Value(), cs[k..])
    {
      assert cs[k..][1..] == cs[k + 1..];
      var v := CleanColumn(tr, t.Value(), cs[k]);
      if v.Err? {
        return Some(v.error);
      }
      t.Assign(CleanLabel(cs[k]), v.value);
      k := k + 1;
    }
    assert cs[k..] == [];
    err := None;
  }

  /** The written labels are the first one and those of the rest. */
  lemma TargetsCons(cs: seq<string>)
    requires |cs| > 0
    ensures forall c :: c in Targets(cs) <==> c == CleanLabel(cs[0]) || c in Targets(cs[1..])
  {
    var rest := cs[1..];
    forall c ensures c in Targets(cs) <==> c == CleanLabel(cs[0]) || c in Targets(rest) {
      if c in Targets(rest) {
        var k :| 0 <= k < |rest| && Targets(rest)[k] == c;
        assert Targets(cs)[k + 1] == c;
      }
      if c in Targets(cs) {
        var k :| 0 <= k < |cs| && Targets(cs)[k] == c;
        if k > 0 {
          assert Targets(rest)[k - 1] == c;
        }
      }
    }
  }

  /** The table after the first assignment of `clean_text_column`. */
  function Step(tr: string -> string, f: Frame, c: string): (g: Frame)
    requires WellFormed(f) && CleanColumn(tr, f, c).Ok?
    ensures WellFormed(g) && |g.rows| == |f.rows|
  {
    AssignColumn(f, CleanLabel(c), CleanColumn(tr, f, c).value)
  }

  /** After the first assignment of `clean_text_column` the rest of the
      loop runs on the new table. */
  lemma CleanStep(tr: string -> string, f: Frame, cs: seq<string>)
    requires WellFormed(f) && Independent(cs) && |cs| > 0 && CleanColumn(tr, f, cs[0]).Ok?
    ensures Independent(cs[1..])
    ensures CleanColumns(tr, f, cs) == CleanColumns(tr, Step(tr, f, cs[0]), cs[1..])
    ensures forall a :: a in cs[1..] ==> a in cs
  {
  }

  /** The first assignment of `clean_text_column` leaves every later listed
      column as it was. */
  lemma StepKeepsListed(tr: string -> string, f: Frame, cs: seq<string>)
    requires WellFormed(f) && Independent(cs) && |cs| > 0 && CleanColumn(tr, f, cs[0]).Ok?
    ensures forall a :: a in cs[1..] ==> (a in Step(tr, f, cs[0]).columns <==> a in f.columns)
    ensures forall i, a :: 0 <= i < |f.rows| && a in cs[1..] ==> Get(Step(tr, f, cs[0]), i, a) == Get(f, i, a)
    ensures forall a :: a in cs[1..] ==> NoNumbers(Step(tr, f, cs[0]), a) == NoNumbers(f, a)
  {
    assert forall a :: a in cs[1..] ==> a in cs;
    assert CleanLabel(cs[0]) !in cs;
  }

  /** For independent columns `clean_text_column` fails exactly when a listed
      column is absent (KeyError) or holds a number (AttributeError). */
  lemma {:induction false} CleanColumnsFails(tr: string -> string, f: Frame, cs: seq<string>)
    requires WellFormed(f) && Independent(cs)
    ensures var r := CleanColumns(tr, f, cs);
      && (r.1.None? <==> forall a :: a in cs ==> a in f.columns && NoNumbers(f, a))
      && (r.1.Some? ==> r.1.value.KeyError? || r.1.value == AttributeError)
    decreases |cs|
  {
    if |cs| > 0 {
      CleanColumnOk(tr, f, cs[0]);
      if CleanColumn(tr, f, cs[0]).Ok? {
        CleanStep(tr, f, cs);
        StepKeepsListed(tr, f, cs);
        CleanColumnsFails(tr, Step(tr, f, cs[0]), cs[1..]);
      }
    }
  }

  /** Normalising one column fails exactly when it is absent or holds a number. */
  lemma CleanColumnOk(tr: string -> string, f: Frame, c: string)
    requires WellFormed(f)
    ensures CleanColumn(tr, f, c).Ok? <==> c in f.columns && NoNumbers(f, c)
    ensures CleanColumn(tr, f, c).Err? ==> CleanColumn(tr, f, c).error == if c in f.columns then AttributeError else KeyError(c)
  {
    assert AssignClean(tr, f, c, CleanLabel(c)).Ok? <==> c in f.columns && NoNumbers(f, c);
  }

  /** `clean_text_column` keeps every old label and every value under a label
      it does not write, even when it fails part-way. */
  lemma {:induction false} CleanColumnsKeeps(tr: string -> string, f: Frame, cs: seq<string>)
    requires WellFormed(f) && Independent(cs)
    ensures var r := CleanColumns(tr, f, cs);
      && (forall c :: c in f.columns ==> c in r.0.columns)
      && (forall i, c :: 0 <= i < |f.rows| && c !in Targets(cs) ==> Get(r.0, i, c) == Get(f, i, c))
    decreases |cs|
  {
    if |cs| > 0 && CleanColumn(tr, f, cs[0]).Ok? {
      CleanStep(tr, f, cs);
      StepKeepsListed(tr, f, cs);
      TargetsCons(cs);
      CleanColumnsKeeps(tr, Step(tr, f, cs[0]), cs[1..]);
    }
  }

  /** On success the new labels are exactly the `_Clean` labels. */
  lemma {:induction false} CleanColumnsLabels(tr: string -> string, f: Frame, cs: seq<string>)
    requires WellFormed(f) && Independent(cs) && CleanColumns(tr, f, cs).1.None?
    ensures forall c :: c in CleanColumns(tr, f, cs).0.columns <==> c in f.columns || c in Targets(cs)
    decreases |cs|
  {
    if |cs| > 0 {
      CleanStep(tr, f, cs);
      TargetsCons(cs);
      CleanColumnsLabels(tr, Step(tr, f, cs[0]), cs[1..]);
    }
  }

  /** On success each `c_Clean` holds `clean_text` of `c`, row by row. */
  lemma {:induction false} CleanColumnsValues(tr: string -> string, f: Frame, cs: seq<string>)
    requires WellFormed(f) && Independent(cs) && CleanColumns(tr, f, cs).1.None?
    ensures forall i, a :: 0 <= i < |f.rows| && a in cs ==>
      Ok(Get(CleanColumns(tr, f, cs).0, i, CleanLabel(a))) == CleanText(tr, Get(f, i, a))
    decreases |cs|
  {
    if |cs| > 0 {
      var c0, rest := cs[0], cs[1..];
      var v := CleanColumn(tr, f, c0).value;
      var g := Step(tr, f, c0);
      CleanStep(tr, f, cs);
      StepKeepsListed(tr, f, cs);
      CleanColumnsValues(tr, g, rest);
      CleanColumnsKeeps(tr, g, rest);
      var r := CleanColumns(tr, g, rest).0;
      forall i, a | 0 <= i < |f.rows| && a in cs ensures Ok(Get(r, i, CleanLabel(a))) == CleanText(tr, Get(f, i, a)) {
        if a !in rest {
          assert a == c0;
          assert CleanLabel(c0) !in Targets(rest) by {
            if CleanLabel(c0) in Targets(rest) {
              var k :| 0 <= k < |rest| && Targets(rest)[k] == CleanLabel(c0);
              CleanLabelInjective(rest[k], c0);
            }
          }
          assert Get(r, i, CleanLabel(c0)) == Get(g, i, CleanLabel(c0));
          assert Get(g, i, CleanLabel(c0)) == v[i];
          assert Ok(v[i]) == CleanText(tr, Get(f, i, c0));
        }
      }
    }
  }

  /** `rename_columns` with mapping `m`: only labels change. Each mapped
      column takes its new label, a mapped label that is no column's new
      label disappears, and every unmapped column keeps its label and its
      values. */
  lemma RenameSpec(f: Frame, m: map<string, string>)
    requires WellFormed(f) && Rename(f, m).Ok?
    ensures var r := Rename(f, m).value;
      && r.rows == f.rows
      && (forall c :: c in f.columns && c !in m ==> c in r.columns)
      && (forall i, c :: 0 <= i < |f.rows| && c in f.columns && c !in m ==> Get(r, i, c) == Get(f, i, c))
      && (forall c :: c in m && c !in m.Values ==> c !in r.columns)
      && (forall i, c :: 0 <= i < |f.rows| && c in f.columns && c in m ==> Get(r, i, m[c]) == Get(f, i, c))
  {
    var r := Rename(f, m).value;
    forall c | c in f.columns && c !in m ensures c in r.columns {
      var k := IndexOf(f.columns, c).value;
      assert r.columns[k] == c;
    }
    forall c | c in m && c !in m.Values ensures c !in r.columns {
      forall k | 0 <= k < |r.columns| ensures r.columns[k] != c {
        var d := f.columns[k];
        assert r.columns[k] == Renamed(m, d);
        if d in m {
          assert m[d] in m.Values;
        }
      }
    }
  }

  /** The fixed renaming sends the three names and their normalised copies
      to the labels the later stages read. */
  lemma InegiNamesFacts()
    ensures Renamed(InegiNames, "NOM_ENT") == "Entidad_inegi" && Renamed(InegiNames, CleanLabel("NOM_ENT")) == "Entidad_c_inegi"
    ensures Renamed(InegiNames, "NOM_MUN") == "Municipio_inegi" && Renamed(InegiNames, CleanLabel("NOM_MUN")) == "Municipio_c_inegi"
    ensures Renamed(InegiNames, "NOM_LOC") == "Localidad_inegi" && Renamed(InegiNames, CleanLabel("NOM_LOC")) == "Localidad_c_inegi"
    ensures Independent(ColumnsToClean) && Targets(ColumnsToClean) == ["NOM_ENT_Clean", "NOM_MUN_Clean", "NOM_LOC_Clean"]
  {
    assert CleanLabel("NOM_ENT") == "NOM_ENT_Clean";
    assert CleanLabel("NOM_MUN") == "NOM_MUN_Clean";
    assert CleanLabel("NOM_LOC") == "NOM_LOC_Clean";
  }

  /** Cleaning the columns `cs` and then renaming with `m` leaves, in every
      row, the renamed copy of `c_Clean` equal to `clean_text` of the renamed
      `c`. */
  lemma CleanThenRename(tr: string -> string, u: Frame, cs: seq<string>, m: map<string, string>)
    requires WellFormed(u) && Independent(cs) && CleanColumns(tr, u, cs).1.None?
    requires Rename(CleanColumns(tr, u, cs).0, m).Ok?
    ensures var r := Rename(CleanColumns(tr, u, cs).0, m).value;
      forall i, a :: 0 <= i < |r.rows| && a in cs ==>
        Ok(Get(r, i, Renamed(m, CleanLabel(a)))) == CleanText(tr, Get(r, i, Renamed(m, a)))
  {
    var c := CleanColumns(tr, u, cs).0;
    CleanColumnsFails(tr, u, cs);
    CleanColumnsKeeps(tr, u, cs);
    CleanColumnsLabels(tr, u, cs);
    CleanColumnsValues(tr, u, cs);
    forall a | a in cs ensures a !in Targets(cs) && CleanLabel(a) in Targets(cs) {
      var k :| 0 <= k < |cs| && cs[k] == a;
      assert Targets(cs)[k] == CleanLabel(a);
    }
  }

  /** One pass of `clean_inegi` with the drop list `toDrop`, the name columns
      `cs` and the renaming `m`: drop the columns, drop duplicate rows,
      normalise the names, rename. The first stage that raises ends it. */
  function CleanPass(tr: string -> string, f: Frame, toDrop: seq<string>, cs: seq<string>, m: map<string, string>): (r: Result<Frame>)
    requires WellFormed(f)
    ensures r.Ok? ==> WellFormed(r.value)
    ensures FirstMissing(f.columns, toDrop).Some? ==> r == Err(KeyError(FirstMissing(f.columns, toDrop).value))
  {
    var d :- Drop(f, toDrop);
    var u := DropDuplicates(d);
    var (c, e) := CleanColumns(tr, u, cs);
    if e.Some? then Err(e.value) else Rename(c, m)
  }

  /** The stage order of `clean_inegi`: every output row comes from one of
      the distinct rows left after the drop, keeps the cells of the columns
      neither cleaned nor renamed, and carries each renamed normalised name
      equal to `clean_text` of the renamed raw name. */
  lemma CleanPassRows(tr: string -> string, f: Frame, toDrop: seq<string>, cs: seq<string>, m: map<string, string>)
    requires WellFormed(f) && Independent(cs) && CleanPass(tr, f, toDrop, cs, m).Ok?
    ensures Drop(f, toDrop).Ok?
    ensures var r := CleanPass(tr, f, toDrop, cs, m).value;
      var u := DropDuplicates(Drop(f, toDrop).value);
      && |r.rows| == |u.rows|
      && (forall c :: c in u.columns && c !in m ==> c in r.columns)
      && (forall i, c :: 0 <= i < |u.rows| && c in u.columns && c !in m && c !in Targets(cs) ==> Get(r, i, c) == Get(u, i, c))
      && forall i, a :: 0 <= i < |r.rows| && a in cs ==>
           Ok(Get(r, i, Renamed(m, CleanLabel(a)))) == CleanText(tr, Get(r, i, Renamed(m, a)))
  {
    var u := DropDuplicates(Drop(f, toDrop).value);
    assert CleanColumns(tr, u, cs).1.None?;
    CleanThenRename(tr, u, cs, m);
    var c := CleanColumns(tr, u, cs).0;
    CleanColumnsKeeps(tr, u, cs);
    RenameSpec(c, m);
  }

  /** In every row the normalised names are `clean_text` of the raw names:
      what the key builders downstream rely on. */
  predicate NamesAgree(tr: string -> string, f: Frame) {
    forall i :: 0 <= i < |f.rows| ==>
      && Ok(Get(f, i, "Entidad_c_inegi")) == CleanText(tr, Get(f, i, "Entidad_inegi"))
      && Ok(Get(f, i, "Municipio_c_inegi")) == CleanText(tr, Get(f, i, "Municipio_inegi"))
      && Ok(Get(f, i, "Localidad_c_inegi")) == CleanText(tr, Get(f, i, "Localidad_inegi"))
  }

  /** Normalising the three name columns of `u` and renaming with the fixed
      mapping makes the names agree. */
  lemma InegiNamesAgree(tr: string -> string, u: Frame)
    requires WellFormed(u) && CleanColumns(tr, u, ColumnsToClean).1.None?
    requires Rename(CleanColumns(tr, u, ColumnsToClean).0, InegiNames).Ok?
    ensures NamesAgree(tr, Rename(CleanColumns(tr, u, ColumnsToClean).0, InegiNames).value)
  {
    InegiNamesFacts();
    CleanThenRename(tr, u, ColumnsToClean, InegiNames);
    var cs := ColumnsToClean;
    assert cs[0] in cs && cs[1] in cs && cs[2] in cs;
  }

  /** `clean_inegi`'s pass with its own lists: each output row has
      `Entidad_c_inegi` equal to `clean_text` of `Entidad_inegi`, and likewise
      for the municipality and the locality. */
  lemma CleanInegiNames(tr: string -> string, f: Frame)
    requires WellFormed(f) && CleanPass(tr, f, ColumnsToDrop, ColumnsToClean, InegiNames).Ok?
    ensures NamesAgree(tr, CleanPass(tr, f, ColumnsToDrop, ColumnsToClean, InegiNames).value)
  {
    var u := DropDuplicates(Drop(f, ColumnsToDrop).value);
    InegiNamesAgree(tr, u);
  }

  /** The loop of `clean_inegi` over the four yearly catalogues followed by
      the main one: each is put through `pass` (`CleanPass` with
      `ColumnsToDrop`, `ColumnsToClean` and `InegiNames` in the source) and
      saved in turn; the first that raises stops the loop. `saved` lists what
      was written. */
  method CleanInegi(datasets: seq<Frame>, pass: Frame --> Result<Frame>) returns (saved: seq<Frame>, err: Option<Error>)
    requires forall k :: 0 <= k < |datasets| ==> pass.requires(datasets[k])
    ensures |saved| <= |datasets|
    ensures forall k :: 0 <= k < |saved| ==> pass(datasets[k]) == Ok(saved[k])
    ensures err.None? ==> |saved| == |datasets|
    ensures err.Some? ==> |saved| < |datasets| && pass(datasets[|saved|]) == Err(err.value)
  {
    saved := [];
    var k := 0;
    while k < |datasets|
      invariant k == |saved| <= |datasets|
      invariant forall j :: 0 <= j < k ==> pass(datasets[j]) == Ok(saved[j])
    {
      var r := pass(datasets[k]);
      if r.Err? {
        return saved, Some(r.error);
      }
      saved := saved + [r.value];
      k := k + 1;
    }
    err := None;
  }

  /** The pass `clean_inegi` applies to each catalogue. */
  function InegiPass(tr: string -> string): Frame --> Result<Frame> {
    (f: Frame) requires WellFormed(f) => CleanPass(tr, f, ColumnsToDrop, ColumnsToClean, InegiNames)
  }

  /** `dataset_cleaning_inegi`: the three assignments written out, which
      amount to `clean_text_column` with the three name columns. */
  method DatasetCleaningInegi(t: Table, tr: string -> string) returns (err: Option<Error>)
    requires t.Valid()
    modifies t
    ensures t.Valid() && (t.Value(), err) == CleanColumns(tr, old(t.Value()), ColumnsToClean)
  {
    InegiNamesFacts();
    var cs := ColumnsToClean;
    var f0 := t.Value();
    var v := CleanColumn(tr, t.Value(), "NOM_ENT");
    if v.Err? {
      return Some(v.error);
    }
    t.Assign("NOM_ENT_Clean", v.value);
    assert CleanColumns(tr, f0, cs) == CleanColumns(tr, t.Value(), cs[1..]);
    var f1 := t.Value();
    v := CleanColumn(tr, t.Value(), "NOM_MUN");
    if v.Err? {
      return Some(v.error);
    }
    t.Assign("NOM_MUN_Clean", v.value);
    assert CleanColumns(tr, f1, cs[1..]) == CleanColumns(tr, t.Value(), cs[2..]);
    var f2 := t.Value();
    v := CleanColumn(tr, t.Value(), "NOM_LOC");
    if v.Err? {
      return Some(v.error);
    }
    t.Assign("NOM_LOC_Clean", v.value);
    assert CleanColumns(tr, f2, cs[2..]) == CleanColumns(tr, t.Value(), []);
    err := None;
  }

  /** The in-place preparation that `cleaning_inegi` gives each yearly
      catalogue: `drop_columns_inegi`, `dataset_cleaning_inegi`, then
      `inegi_rename_columns`, with no duplicate removal. A stage that raises
      leaves the earlier stages' changes in the table. */
  method CleaningInegi(t: Table, tr: string -> string) returns (err: Option<Error>)
    requires t.Valid()
    modifies t
    ensures t.Valid()
    ensures Drop(old(t.Value()), ColumnsToDrop).Err? ==> t.Value() == old(t.Value()) && err.Some?
    ensures err.None? ==>
      && Drop(old(t.Value()), ColumnsToDrop).Ok?
      && CleanColumns(tr, Drop(old(t.Value()), ColumnsToDrop).value, ColumnsToClean).1.None?
      && Rename(CleanColumns(tr, Drop(old(t.Value()), ColumnsToDrop).value, ColumnsToClean).0, InegiNames).Ok?
      && t.Value() == Rename(CleanColumns(tr, Drop(old(t.Value()), ColumnsToDrop).value, ColumnsToClean).0, InegiNames).value
    ensures err.None? ==> NamesAgree(tr, t.Value())
  {
    err := t.DropColumns(ColumnsToDrop);
    if err.Some? {
      return;
    }
    err := DatasetCleaningInegi(t, tr);
    if err.Some? {
      return;
    }
    ghost var d := Drop(old(t.Value()), ColumnsToDrop).value;
    err := t.RenameColumns(InegiNames);
    if err.None? {
      InegiNamesAgree(tr, d);
    }
  }
}
