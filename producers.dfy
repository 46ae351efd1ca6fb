/** `data_cleaning_and_merge.py`: the producer pipeline of `main`. The INEGI
    catalogue and the list of authorised producers both get a
    state-municipality key built from cleaned names; `fuzzy_merge` matches each
    INEGI key to a producer key (inner join, cutoff 96) to make a dictionary;
    the producers are left-joined to the dictionary without Veracruz, and the
    municipality code key splits back into its two codes. */
module Producers {
  import opened Base
  import opened Seqs
  import opened Text
  import opened Keys
  import opened Normalizer
  import opened Frames
  import opened Merge
  import opened Derive
  import opened Fuzzy
  import opened Tables

  /** The columns dropped from the catalogue at line 90. */
  const InegiDropped: seq<string> := ["MAPA", "Estatus", "NOM_ABR", "CVE_LOC", "NOM_LOC", "AMBITO", "LATITUD",
    "LONGITUD", "LAT_DECIMAL", "LON_DECIMAL", "ALTITUD", "CVE_CARTA", "POB_TOTAL", "POB_MASCULINA", "POB_FEMENINA",
    "TOTAL DE VIVIENDAS HABITADAS"]

  // Labels of the catalogue and those the pipeline adds to it.
  const CveEnt := "CVE_ENT"
  const CveMun := "CVE_MUN"
  const NomEnt := "NOM_ENT"
  const NomMun := "NOM_MUN"
  const CveMunUnique := "CVE_MUN_Unique"
  const NomEntClean := "NOM_ENT_Clean"
  const NomMunClean := "NOM_MUN_Clean"
  const KeyInegi := "KEY_inegi"

  // Labels of the producer list and those the pipeline adds to it.
  const Estado := "ESTADO"
  const Municipio := "MUNICIPIO"
  const EstadoClean := "ESTADO_Clean"
  const MunicipioClean := "MUNICIPIO_Clean"
  const KeyProd := "KEY_prod"
  const ListadoKey := "Estado-mun-KEY"

  /** The dictionary keeps these columns (line 134). */
  const DictionaryColumns: seq<string> := [CveEnt, NomEnt, CveMun, NomMun, KeyProd]
  /** The state left out of the dictionary before the join (line 144). */
  const Veracruz := "Veracruz de Ignacio de la Llave"

  // ---------------------------------------------------------------------
  // The INEGI side

  /** The labels the catalogue stage reads and writes are distinct. */
  lemma InegiLabelsApart()
    ensures CveMunUnique != NomEntClean && CveMunUnique != NomMunClean && CveMunUnique != KeyInegi
    ensures NomEntClean != NomMunClean && KeyInegi != NomEntClean && KeyInegi != NomMunClean
    ensures NomEnt != CveMunUnique && NomEnt != NomEntClean && NomEnt != NomMunClean && NomEnt != KeyInegi
    ensures NomMun != CveMunUnique && NomMun != NomEntClean && NomMun != NomMunClean && NomMun != KeyInegi
    ensures CveEnt != CveMunUnique && CveEnt != NomEntClean && CveEnt != NomMunClean && CveEnt != KeyInegi
    ensures CveMun != CveMunUnique && CveMun != NomEntClean && CveMun != NomMunClean && CveMun != KeyInegi
  {
  }

  /** Lines 93-95: the catalogue without the unused columns, and without
      repeated rows. */
  function InegiDistinct(inegi: Frame): (r: Result<Frame>)
    requires WellFormed(inegi)
    ensures r.Ok? <==> FirstMissing(inegi.columns, InegiDropped).None?
    ensures r.Err? ==> r.error.KeyError?
    ensures r.Ok? ==> WellFormed(r.value) && Distinct(r.value.rows)
    ensures r.Ok? ==> forall c :: c in r.value.columns <==> c in inegi.columns && c !in InegiDropped
  {
    var d :- Drop(inegi, InegiDropped);
    Ok(DropDuplicates(d))
  }

  /** Lines 93-126: the de-duplicated catalogue gets `CVE_MUN_Unique`, the
      cleaned names as text, and `KEY_inegi`. */
  function InegiStage(tr: string -> string, inegi: Frame): (r: Result<Frame>)
    requires WellFormed(inegi)
    ensures r.Err? ==> r.error.KeyError? || r.error == AttributeError
    ensures r.Ok? ==> InegiDistinct(inegi).Ok? && WellFormed(r.value) && |r.value.rows| == |InegiDistinct(inegi).value.rows|
    ensures r.Ok? ==> (r.value.columns ==
      WithLabel(WithLabel(WithLabel(WithLabel(InegiDistinct(inegi).value.columns, CveMunUnique), NomEntClean), NomMunClean), KeyInegi))
  {
    var d :- InegiDistinct(inegi);
    InegiLabelsApart();
    AssignCodeAndNameKeys(tr, d, CveEnt, CveMun, CveMunUnique, NomEnt, NomMun, NomEntClean, NomMunClean, KeyInegi)
  }

  /** The catalogue stage fails only on a missing column or a number among
      the names. */
  lemma InegiStageOk(tr: string -> string, inegi: Frame)
    requires WellFormed(inegi)
    ensures InegiStage(tr, inegi).Ok? <==>
      && InegiDistinct(inegi).Ok?
      && var d := InegiDistinct(inegi).value;
      && CveEnt in d.columns && CveMun in d.columns && NomEnt in d.columns && NomMun in d.columns
      && NoNumbers(d, NomEnt) && NoNumbers(d, NomMun)
  {
    if InegiDistinct(inegi).Ok? {
      AssignCodeAndNameKeysOk(tr, InegiDistinct(inegi).value, CveEnt, CveMun, CveMunUnique, NomEnt, NomMun, NomEntClean, NomMunClean, KeyInegi);
    }
  }

  /** Each catalogue row carries the code key of its own two codes and the
      name key of its own two names (lines 98, 126). */
  lemma InegiStageRow(tr: string -> string, inegi: Frame, i: nat)
    requires WellFormed(inegi) && InegiStage(tr, inegi).Ok? && i < |InegiStage(tr, inegi).value.rows|
    ensures var r := InegiStage(tr, inegi).value;
      && Get(r, i, CveMunUnique) == JoinKey(Get(r, i, CveEnt), Get(r, i, CveMun))
      && !Get(r, i, NomEnt).Num? && !Get(r, i, NomMun).Num?
      && Get(r, i, NomEntClean) == Str(AsStr(CleanText(tr, Get(r, i, NomEnt)).value))
      && Get(r, i, NomMunClean) == Str(AsStr(CleanText(tr, Get(r, i, NomMun)).value))
      && Get(r, i, KeyInegi) == NameKey(tr, Get(r, i, NomEnt), Get(r, i, NomMun))
  {
    var d := InegiDistinct(inegi).value;
    InegiLabelsApart();
    AssignCodeAndNameKeysRows(tr, d, CveEnt, CveMun, CveMunUnique, NomEnt, NomMun, NomEntClean, NomMunClean, KeyInegi, i);
    AssignCodeAndNameKeysOthers(tr, d, CveEnt, CveMun, CveMunUnique, NomEnt, NomMun, NomEntClean, NomMunClean, KeyInegi, i, CveEnt);
    AssignCodeAndNameKeysOthers(tr, d, CveEnt, CveMun, CveMunUnique, NomEnt, NomMun, NomEntClean, NomMunClean, KeyInegi, i, CveMun);
    AssignCodeAndNameKeysOthers(tr, d, CveEnt, CveMun, CveMunUnique, NomEnt, NomMun, NomEntClean, NomMunClean, KeyInegi, i, NomEnt);
    AssignCodeAndNameKeysOthers(tr, d, CveEnt, CveMun, CveMunUnique, NomEnt, NomMun, NomEntClean, NomMunClean, KeyInegi, i, NomMun);
  }

  /** The code key `CVE_MUN_Unique` of lines 98-99 is reversible: split at
      '-' into `CVE_ENT` and `CVE_MUN`, as line 149 does to the merged list,
      it gives back both codes of the catalogue stage, as text, when neither
      code holds a hyphen and there is a row to split. */
  lemma CodeKeySplits(tr: string -> string, inegi: Frame)
    requires WellFormed(inegi) && InegiStage(tr, inegi).Ok?
    requires |InegiStage(tr, inegi).value.rows| > 0
    requires forall i :: 0 <= i < |InegiStage(tr, inegi).value.rows| ==>
      '-' !in AsStr(Get(InegiStage(tr, inegi).value, i, CveEnt)) && '-' !in AsStr(Get(InegiStage(tr, inegi).value, i, CveMun))
    ensures var r := InegiStage(tr, inegi).value;
      && SplitColumn(r, CveMunUnique, CveEnt, CveMun).Ok?
      && forall i :: 0 <= i < |r.rows| ==>
        && Get(SplitColumn(r, CveMunUnique, CveEnt, CveMun).value, i, CveEnt) == Str(AsStr(Get(r, i, CveEnt)))
        && Get(SplitColumn(r, CveMunUnique, CveEnt, CveMun).value, i, CveMun) == Str(AsStr(Get(r, i, CveMun)))
  {
    var r := InegiStage(tr, inegi).value;
    InegiLabelsApart();
    assert CveEnt != CveMun;
    forall i | 0 <= i < |r.rows| ensures Get(r, i, CveMunUnique) == JoinKey(Get(r, i, CveEnt), Get(r, i, CveMun)) {
      InegiStageRow(tr, inegi, i);
    }
    SplitKeyColumn(r, CveMunUnique, CveEnt, CveMun);
  }

  // ---------------------------------------------------------------------
  // The producer side

  /** The labels the producer stages read and write are distinct. */
  lemma ProducerLabelsApart()
    ensures Estado != Municipio && EstadoClean != MunicipioClean && EstadoClean != Municipio
    ensures KeyProd != EstadoClean && KeyProd != MunicipioClean && ListadoKey != EstadoClean && ListadoKey != MunicipioClean
    ensures Estado != EstadoClean && Estado != MunicipioClean && Estado != KeyProd
    ensures Municipio != EstadoClean && Municipio != MunicipioClean && Municipio != KeyProd
  {
  }

  /** Lines 106-108: the distinct state-municipality pairs of the list. */
  function ProducerPairs(listado: Frame): (r: Result<Frame>)
    requires WellFormed(listado)
    ensures r.Ok? <==> Estado in listado.columns && Municipio in listado.columns
    ensures r.Err? ==> r.error.KeyError?
    ensures r.Ok? ==> WellFormed(r.value) && r.value.columns == [Estado, Municipio] && Distinct(r.value.rows)
  {
    ProducerLabelsApart();
    assert FirstMissing(listado.columns, [Estado, Municipio]).None? <==> Estado in listado.columns && Municipio in listado.columns by {
      assert forall t :: 0 <= t < 2 ==> [Estado, Municipio][t] == Estado || [Estado, Municipio][t] == Municipio;
    }
    var s :- Select(listado, [Estado, Municipio]);
    Ok(DropDuplicates(s))
  }

  /** Lines 111-129 on the distinct pairs `u`: the cleaned names and
      `KEY_prod`; the raw names are dropped and repeated rows removed again. */
  function ProducerKeys(tr: string -> string, u: Frame): (r: Result<Frame>)
    requires WellFormed(u) && Estado in u.columns && Municipio in u.columns
    ensures r.Ok? <==> NoNumbers(u, Estado) && NoNumbers(u, Municipio)
    ensures r.Err? ==> r.error == AttributeError
    ensures r.Ok? ==> WellFormed(r.value) && Distinct(r.value.rows)
  {
    ProducerLabelsApart();
    var k :- AssignNameKey(tr, u, Estado, Municipio, EstadoClean, MunicipioClean, KeyProd);
    var d := Drop(k, [Estado, Municipio]).value;
    Ok(DropDuplicates(d))
  }

  /** Lines 106-129. */
  function ProducerStage(tr: string -> string, listado: Frame): (r: Result<Frame>)
    requires WellFormed(listado)
    ensures r.Err? ==> r.error.KeyError? || r.error == AttributeError
    ensures r.Ok? ==> WellFormed(r.value) && Distinct(r.value.rows)
  {
    var u :- ProducerPairs(listado);
    ProducerKeys(tr, u)
  }

  /** Row `t` of a producer table holds the cleaned names and `KEY_prod` of
      the state `e` and municipality `m`. */
  predicate ProducerRowOf(tr: string -> string, r: Frame, t: nat, e: Cell, m: Cell)
    requires t < |r.rows|
  {
    && !e.Num? && !m.Num?
    && Get(r, t, EstadoClean) == Str(AsStr(CleanText(tr, e).value))
    && Get(r, t, MunicipioClean) == Str(AsStr(CleanText(tr, m).value))
    && Get(r, t, KeyProd) == NameKey(tr, e, m)
  }

  /** The table of lines 111-129 before its last de-duplication has the
      cleaned names and the key among its columns. */
  lemma ProducerKeysLabels(tr: string -> string, u: Frame)
    requires WellFormed(u) && Estado in u.columns && Municipio in u.columns && ProducerKeys(tr, u).Ok?
    ensures var k := AssignNameKey(tr, u, Estado, Municipio, EstadoClean, MunicipioClean, KeyProd).value;
      var d := Drop(k, [Estado, Municipio]).value;
      EstadoClean in d.columns && MunicipioClean in d.columns && KeyProd in d.columns
  {
    ProducerLabelsApart();
    var k := AssignNameKey(tr, u, Estado, Municipio, EstadoClean, MunicipioClean, KeyProd).value;
    assert k.columns == WithLabel(WithLabel(WithLabel(u.columns, EstadoClean), MunicipioClean), KeyProd);
    NamesKeptAfterDrop(k);
  }

  /** Dropping the raw names keeps the cleaned names and the key. */
  lemma NamesKeptAfterDrop(k: Frame)
    requires WellFormed(k) && Estado in k.columns && Municipio in k.columns
    requires EstadoClean in k.columns && MunicipioClean in k.columns && KeyProd in k.columns
    ensures Drop(k, [Estado, Municipio]).Ok?
    ensures var d := Drop(k, [Estado, Municipio]).value;
      EstadoClean in d.columns && MunicipioClean in d.columns && KeyProd in d.columns
  {
    ProducerLabelsApart();
    assert EstadoClean !in [Estado, Municipio] && MunicipioClean !in [Estado, Municipio] && KeyProd !in [Estado, Municipio];
  }

  /** The cells lines 111-129 keep for pair `j` of `u`, wherever row `t` of
      the de-duplicated table holds them. */
  lemma ProducerKeysCells(tr: string -> string, u: Frame, t: nat, j: nat)
    requires WellFormed(u) && Estado in u.columns && Municipio in u.columns && ProducerKeys(tr, u).Ok?
    requires j < |u.rows|
    requires var k := AssignNameKey(tr, u, Estado, Municipio, EstadoClean, MunicipioClean, KeyProd).value;
      var d := Drop(k, [Estado, Municipio]).value;
      t < |ProducerKeys(tr, u).value.rows| && ProducerKeys(tr, u).value.rows[t] == d.rows[j]
    ensures ProducerRowOf(tr, ProducerKeys(tr, u).value, t, Get(u, j, Estado), Get(u, j, Municipio))
  {
    ProducerLabelsApart();
    var k := AssignNameKey(tr, u, Estado, Municipio, EstadoClean, MunicipioClean, KeyProd).value;
    var d := Drop(k, [Estado, Municipio]).value;
    var r := ProducerKeys(tr, u).value;
    assert r == DropDuplicates(d);
    ProducerKeysLabels(tr, u);
    forall c | c in d.columns ensures Get(r, t, c) == Get(d, j, c) == Get(k, j, c) {
      assert r.columns == d.columns;
    }
  }

  /** Every row of lines 111-129 comes from a pair of `u`. */
  lemma ProducerKeysFrom(tr: string -> string, u: Frame, t: nat)
    requires WellFormed(u) && Estado in u.columns && Municipio in u.columns && ProducerKeys(tr, u).Ok?
    requires t < |ProducerKeys(tr, u).value.rows|
    ensures exists j :: 0 <= j < |u.rows| && ProducerRowOf(tr, ProducerKeys(tr, u).value, t, Get(u, j, Estado), Get(u, j, Municipio))
  {
    ProducerLabelsApart();
    var k := AssignNameKey(tr, u, Estado, Municipio, EstadoClean, MunicipioClean, KeyProd).value;
    var d := Drop(k, [Estado, Municipio]).value;
    DropDuplicatesFrom(d, t);
    var j :| 0 <= j < |d.rows| && DropDuplicates(d).rows[t] == d.rows[j];
    ProducerKeysCells(tr, u, t, j);
  }

  /** Every pair of `u` reaches the rows of lines 111-129. */
  lemma ProducerKeysCovers(tr: string -> string, u: Frame, j: nat)
    requires WellFormed(u) && Estado in u.columns && Municipio in u.columns && ProducerKeys(tr, u).Ok?
    requires j < |u.rows|
    ensures exists t :: 0 <= t < |ProducerKeys(tr, u).value.rows| && ProducerRowOf(tr, ProducerKeys(tr, u).value, t, Get(u, j, Estado), Get(u, j, Municipio))
  {
    ProducerLabelsApart();
    var k := AssignNameKey(tr, u, Estado, Municipio, EstadoClean, MunicipioClean, KeyProd).value;
    var d := Drop(k, [Estado, Municipio]).value;
    DropDuplicatesCovers(d, j);
    var t :| 0 <= t < |DropDuplicates(d).rows| && DropDuplicates(d).rows[t] == d.rows[j];
    ProducerKeysCells(tr, u, t, j);
  }

  /** Every distinct pair is the pair of some row of the list. */
  lemma ProducerPairsFrom(listado: Frame, t: nat)
    requires WellFormed(listado) && ProducerPairs(listado).Ok? && t < |ProducerPairs(listado).value.rows|
    ensures exists j :: (0 <= j < |listado.rows| &&
      Get(ProducerPairs(listado).value, t, Estado) == Get(listado, j, Estado) &&
      Get(ProducerPairs(listado).value, t, Municipio) == Get(listado, j, Municipio))
  {
    ProducerLabelsApart();
    var s := Select(listado, [Estado, Municipio]).value;
    DropDuplicatesFrom(s, t);
    var j :| 0 <= j < |s.rows| && DropDuplicates(s).rows[t] == s.rows[j];
    assert Get(DropDuplicates(s), t, Estado) == Get(s, j, Estado);
    assert Get(DropDuplicates(s), t, Municipio) == Get(s, j, Municipio);
  }

  /** The pair of every row of the list is among the distinct pairs. */
  lemma ProducerPairsCovers(listado: Frame, j: nat)
    requires WellFormed(listado) && ProducerPairs(listado).Ok? && j < |listado.rows|
    ensures exists t :: (0 <= t < |ProducerPairs(listado).value.rows| &&
      Get(ProducerPairs(listado).value, t, Estado) == Get(listado, j, Estado) &&
      Get(ProducerPairs(listado).value, t, Municipio) == Get(listado, j, Municipio))
  {
    ProducerLabelsApart();
    var s := Select(listado, [Estado, Municipio]).value;
    DropDuplicatesCovers(s, j);
    var t :| 0 <= t < |DropDuplicates(s).rows| && DropDuplicates(s).rows[t] == s.rows[j];
    assert Get(DropDuplicates(s), t, Estado) == Get(s, j, Estado);
    assert Get(DropDuplicates(s), t, Municipio) == Get(s, j, Municipio);
  }

  /** The producer stage fails only on a missing name column or a number
      among the names. */
  lemma ProducerStageOk(tr: string -> string, listado: Frame)
    requires WellFormed(listado)
    ensures ProducerStage(tr, listado).Ok? <==>
      Estado in listado.columns && Municipio in listado.columns && NoNumbers(listado, Estado) && NoNumbers(listado, Municipio)
  {
    if ProducerPairs(listado).Ok? {
      var u := ProducerPairs(listado).value;
      forall t | 0 <= t < |u.rows| && NoNumbers(listado, Estado) && NoNumbers(listado, Municipio)
        ensures !Get(u, t, Estado).Num? && !Get(u, t, Municipio).Num?
      {
        ProducerPairsFrom(listado, t);
      }
      forall j | 0 <= j < |listado.rows| && NoNumbers(u, Estado) && NoNumbers(u, Municipio)
        ensures !Get(listado, j, Estado).Num? && !Get(listado, j, Municipio).Num?
      {
        ProducerPairsCovers(listado, j);
      }
    }
  }

  /** Every producer row holds the cleaned names and key of some row of the
      list (lines 106-129). */
  lemma ProducerStageFrom(tr: string -> string, listado: Frame, t: nat)
    requires WellFormed(listado) && ProducerStage(tr, listado).Ok? && t < |ProducerStage(tr, listado).value.rows|
    ensures exists j :: (0 <= j < |listado.rows| &&
      ProducerRowOf(tr, ProducerStage(tr, listado).value, t, Get(listado, j, Estado), Get(listado, j, Municipio)))
  {
    var u := ProducerPairs(listado).value;
    ProducerKeysFrom(tr, u, t);
    var i :| 0 <= i < |u.rows| && ProducerRowOf(tr, ProducerKeys(tr, u).value, t, Get(u, i, Estado), Get(u, i, Municipio));
    ProducerPairsFrom(listado, i);
  }

  /** Every row of the list has its cleaned names and key in some producer
      row (lines 106-129). */
  lemma ProducerStageCovers(tr: string -> string, listado: Frame, j: nat)
    requires WellFormed(listado) && ProducerStage(tr, listado).Ok? && j < |listado.rows|
    ensures exists t :: (0 <= t < |ProducerStage(tr, listado).value.rows| &&
      ProducerRowOf(tr, ProducerStage(tr, listado).value, t, Get(listado, j, Estado), Get(listado, j, Municipio)))
  {
    var u := ProducerPairs(listado).value;
    ProducerPairsCovers(listado, j);
    var i :| 0 <= i < |u.rows| && Get(u, i, Estado) == Get(listado, j, Estado) && Get(u, i, Municipio) == Get(listado, j, Municipio);
    ProducerKeysCovers(tr, u, i);
  }

  /** The table of lines 111-129 holds exactly the cleaned names and
      `KEY_prod` when `u` holds just the two raw names. */
  lemma ProducerKeysColumns(tr: string -> string, u: Frame)
    requires WellFormed(u) && u.columns == [Estado, Municipio] && ProducerKeys(tr, u).Ok?
    ensures forall c :: c in ProducerKeys(tr, u).value.columns <==> c == EstadoClean || c == MunicipioClean || c == KeyProd
  {
    ProducerLabelsApart();
    var k := AssignNameKey(tr, u, Estado, Municipio, EstadoClean, MunicipioClean, KeyProd).value;
    assert k.columns == WithLabel(WithLabel(WithLabel(u.columns, EstadoClean), MunicipioClean), KeyProd);
    OnlyNamesAfterDrop(k);
  }

  /** A table holding the raw and cleaned names and the key keeps, once the
      raw names are dropped, the cleaned names and the key only. */
  lemma OnlyNamesAfterDrop(k: Frame)
    requires WellFormed(k)
    requires forall c :: c in k.columns <==> c in [Estado, Municipio] || c == EstadoClean || c == MunicipioClean || c == KeyProd
    ensures Drop(k, [Estado, Municipio]).Ok?
    ensures forall c :: c in Drop(k, [Estado, Municipio]).value.columns <==> c == EstadoClean || c == MunicipioClean || c == KeyProd
  {
    ProducerLabelsApart();
    assert Estado in k.columns && Municipio in k.columns;
    forall c ensures c in [Estado, Municipio] <==> c == Estado || c == Municipio {
    }
  }

  /** The producer table holds exactly the cleaned names and `KEY_prod`. */
  lemma ProducerStageLabels(tr: string -> string, listado: Frame)
    requires WellFormed(listado) && ProducerStage(tr, listado).Ok?
    ensures forall c :: c in ProducerStage(tr, listado).value.columns <==> c == EstadoClean || c == MunicipioClean || c == KeyProd
  {
    ProducerKeysColumns(tr, ProducerPairs(listado).value);
  }

  /** Lines 139-141: the list itself gets the cleaned names (as `clean_text`
      returns them) and `Estado-mun-KEY`. */
  function ListadoKeys(tr: string -> string, listado: Frame): (r: Result<Frame>)
    requires WellFormed(listado)
    ensures r.Ok? <==> Estado in listado.columns && Municipio in listado.columns && NoNumbers(listado, Estado) && NoNumbers(listado, Municipio)
    ensures r.Err? ==> r.error.KeyError? || r.error == AttributeError
    ensures r.Ok? ==> WellFormed(r.value) && |r.value.rows| == |listado.rows|
    ensures r.Ok? ==> forall i :: 0 <= i < |listado.rows| ==> Get(r.value, i, ListadoKey) == NameKey(tr, Get(listado, i, Estado), Get(listado, i, Municipio))
    ensures r.Ok? ==> forall i, d :: 0 <= i < |listado.rows| && d != EstadoClean && d != MunicipioClean && d != ListadoKey ==>
      Get(r.value, i, d) == Get(listado, i, d)
  {
    ProducerLabelsApart();
    AssignCleanKey(tr, listado, Estado, Municipio, EstadoClean, MunicipioClean, ListadoKey)
  }

  /** The list's join key and the producer table are built by the same rule:
      both succeed together, and the key of every row of the list is the
      `KEY_prod` of some producer row. */
  lemma ListadoKeyFound(tr: string -> string, listado: Frame, j: nat)
    requires WellFormed(listado)
    ensures ListadoKeys(tr, listado).Ok? <==> ProducerStage(tr, listado).Ok?
    ensures ListadoKeys(tr, listado).Ok? && j < |listado.rows| ==>
      exists t :: (0 <= t < |ProducerStage(tr, listado).value.rows| &&
        Get(ProducerStage(tr, listado).value, t, KeyProd) == Get(ListadoKeys(tr, listado).value, j, ListadoKey))
  {
    ProducerStageOk(tr, listado);
    if ListadoKeys(tr, listado).Ok? && j < |listado.rows| {
      ProducerStageCovers(tr, listado, j);
    }
  }

  // ---------------------------------------------------------------------
  // The dictionary and the join

  /** Lines 131-134 on the two stages: the inner fuzzy merge of catalogue
      keys to producer keys at cutoff 96, narrowed to five columns. */
  function Dictionary(score: (string, string) -> Score, ik: Frame, pk: Frame): (r: Result<Frame>)
    requires WellFormed(ik) && WellFormed(pk)
    ensures KeyProd !in pk.columns ==> r == Err(KeyError(KeyProd))
    ensures KeyProd in pk.columns && KeyInegi !in ik.columns ==> r == Err(KeyError(KeyInegi))
    ensures r.Ok? ==> WellFormed(r.value) && r.value.columns == DictionaryColumns
  {
    assert Distinct(DictionaryColumns) by {
      InegiLabelsApart();
      assert forall s, t :: 0 <= s < t < 5 ==> DictionaryColumns[s] != DictionaryColumns[t];
    }
    var m :- FuzzyMergeProd(ik, pk, KeyInegi, KeyProd, score, ProdThreshold);
    Select(m, DictionaryColumns)
  }

  /** What the dictionary lemmas need of the two stages: the catalogue
      columns it keeps are the catalogue's own, `KEY_prod` is the
      producers' own, and the producers do not clash with the match
      columns. */
  predicate DictionaryInputs(ik: Frame, pk: Frame) {
    && CveEnt in ik.columns && NomEnt in ik.columns && CveMun in ik.columns && NomMun in ik.columns
    && CveEnt !in pk.columns && NomEnt !in pk.columns && CveMun !in pk.columns && NomMun !in pk.columns
    && KeyProd !in ik.columns && "best_match" !in pk.columns && "match_score" !in pk.columns
  }

  /** Row `t` of dictionary `d` copies the codes and names of catalogue row
      `i`, and its `KEY_prod` is a producer key reaching the cutoff that no
      producer key outscores. */
  predicate DictionaryRowOf(score: (string, string) -> Score, d: Frame, t: nat, ik: Frame, i: nat, pk: Frame)
    requires t < |d.rows| && i < |ik.rows|
  {
    && Get(d, t, CveEnt) == Get(ik, i, CveEnt) && Get(d, t, NomEnt) == Get(ik, i, NomEnt)
    && Get(d, t, CveMun) == Get(ik, i, CveMun) && Get(d, t, NomMun) == Get(ik, i, NomMun)
    && Get(ik, i, KeyInegi).Str? && Get(d, t, KeyProd).Str?
    && (exists j :: 0 <= j < |pk.rows| && Get(pk, j, KeyProd) == Get(d, t, KeyProd))
    && score(Get(ik, i, KeyInegi).s, Get(d, t, KeyProd).s) >= ProdThreshold
    && forall j :: 0 <= j < |pk.rows| ==>
         Get(pk, j, KeyProd).Str? && score(Get(ik, i, KeyInegi).s, Get(pk, j, KeyProd).s) <= score(Get(ik, i, KeyInegi).s, Get(d, t, KeyProd).s)
  }

  /** Every dictionary row is a catalogue municipality paired with its best
      producer key (lines 131-134). */
  lemma DictionaryRow(score: (string, string) -> Score, ik: Frame, pk: Frame, t: nat)
    requires WellFormed(ik) && WellFormed(pk) && Dictionary(score, ik, pk).Ok? && DictionaryInputs(ik, pk)
    requires t < |Dictionary(score, ik, pk).value.rows|
    ensures exists i :: 0 <= i < |ik.rows| && DictionaryRowOf(score, Dictionary(score, ik, pk).value, t, ik, i, pk)
  {
    var m := FuzzyMergeProd(ik, pk, KeyInegi, KeyProd, score, ProdThreshold).value;
    var d := Dictionary(score, ik, pk).value;
    assert d == Select(m, DictionaryColumns).value;
    FuzzyMergeProdRow(ik, pk, KeyInegi, KeyProd, score, ProdThreshold, t);
    var i := ProdSources(ik, pk, KeyInegi, KeyProd, score, ProdThreshold)[t];
    var j :| 0 <= j < |pk.rows| && Get(pk, j, KeyProd) == Get(m, t, "best_match") &&
      forall c :: c in pk.columns && c !in ik.columns ==> Get(m, t, c) == Get(pk, j, c);
    assert Get(d, t, KeyProd) == Get(pk, j, KeyProd);
    assert Get(d, t, CveEnt) == Get(ik, i, CveEnt) && Get(d, t, NomEnt) == Get(ik, i, NomEnt);
    assert Get(d, t, CveMun) == Get(ik, i, CveMun) && Get(d, t, NomMun) == Get(ik, i, NomMun);
    var q, best := Get(ik, i, KeyInegi), Get(m, t, "best_match");
    assert IsBestMatch(q, Column(pk, KeyProd), best, Get(m, t, "match_score"), score, ProdThreshold);
    assert best.Str? && q.Str?;
    forall jj | 0 <= jj < |pk.rows| ensures Get(pk, jj, KeyProd).Str? && score(q.s, Get(pk, jj, KeyProd).s) <= score(q.s, best.s) {
      assert Column(pk, KeyProd)[jj] == Get(pk, jj, KeyProd);
    }
    assert score(q.s, best.s) >= ProdThreshold;
    assert DictionaryRowOf(score, d, t, ik, i, pk);
  }

  /** Lines 143-147: the dictionary without Veracruz, left-joined to the
      keyed list on `Estado-mun-KEY` = `KEY_prod`, suffixes `_prod` and
      `_inegi`. */
  function Completed(lk: Frame, d: Frame): (r: Result<Frame>)
    requires WellFormed(lk) && WellFormed(d)
    ensures NomEnt !in d.columns ==> r == Err(KeyError(NomEnt))
    ensures NomEnt in d.columns && ListadoKey !in lk.columns ==> r == Err(KeyError(ListadoKey))
    ensures NomEnt in d.columns && ListadoKey in lk.columns && KeyProd !in d.columns ==> r == Err(KeyError(KeyProd))
    ensures r.Ok? ==> WellFormed(r.value)
  {
    var v :- FilterNe(d, NomEnt, Veracruz);
    MergeFrames(lk, v, ListadoKey, KeyProd, Left, "_prod", "_inegi")
  }

  /** Row `t` of the joined table `out` holds the cells of row `i` of the
      list that the dictionary, with columns `dcols`, does not also hold. */
  predicate KeepsListadoRow(out: Frame, t: nat, lk: Frame, i: nat, dcols: seq<string>)
    requires t < |out.rows| && i < |lk.rows|
  {
    forall c :: c in lk.columns && c !in dcols ==> Get(out, t, c) == Get(lk, i, c)
  }

  /** Every row of the list reaches the joined table with its own cells:
      no producer is lost. */
  lemma CompletedKeepsRows(lk: Frame, d: Frame, i: nat)
    requires WellFormed(lk) && WellFormed(d) && Completed(lk, d).Ok? && i < |lk.rows|
    ensures exists t :: 0 <= t < |Completed(lk, d).value.rows| && KeepsListadoRow(Completed(lk, d).value, t, lk, i, d.columns)
  {
    var v := FilterNe(d, NomEnt, Veracruz).value;
    var out := Completed(lk, d).value;
    assert NomEnt in d.columns && v.columns == d.columns;
    assert out == MergeFrames(lk, v, ListadoKey, KeyProd, Left, "_prod", "_inegi").value;
    MergeCovers(lk, v, ListadoKey, KeyProd, Left, i);
    var ps := MergePairs(lk, v, ListadoKey, KeyProd, Left);
    var t :| 0 <= t < |ps| && ps[t].left == i;
    forall c | c in lk.columns && c !in d.columns ensures Get(out, t, c) == Get(lk, i, c) {
      MergeGetLeft(lk, v, ListadoKey, KeyProd, Left, "_prod", "_inegi", t, c);
    }
    assert KeepsListadoRow(out, t, lk, i, d.columns);
  }

  /** No joined row takes Veracruz from the dictionary: `NOM_ENT` is missing
      or names another state. */
  lemma CompletedNoVeracruz(lk: Frame, d: Frame, t: nat)
    requires WellFormed(lk) && WellFormed(d) && Completed(lk, d).Ok? && NomEnt !in lk.columns
    requires t < |Completed(lk, d).value.rows|
    ensures Get(Completed(lk, d).value, t, NomEnt) != Str(Veracruz)
  {
    var v := FilterNe(d, NomEnt, Veracruz).value;
    assert Completed(lk, d).value == MergeFrames(lk, v, ListadoKey, KeyProd, Left, "_prod", "_inegi").value;
    assert ListadoKey != KeyProd;
    MergeGetRight(lk, v, ListadoKey, KeyProd, Left, "_prod", "_inegi", t, NomEnt);
  }

  /** On a dictionary whose non-Veracruz keys do not repeat, the join has
      exactly one row per row of the list, in list order. */
  lemma CompletedOneEach(lk: Frame, d: Frame)
    requires WellFormed(lk) && WellFormed(d) && Completed(lk, d).Ok?
    requires Distinct(Column(FilterNe(d, NomEnt, Veracruz).value, KeyProd))
    ensures |Completed(lk, d).value.rows| == |lk.rows|
    ensures forall c, i :: c in lk.columns && c !in d.columns && 0 <= i < |lk.rows| ==> Get(Completed(lk, d).value, i, c) == Get(lk, i, c)
  {
    var v := FilterNe(d, NomEnt, Veracruz).value;
    var out := Completed(lk, d).value;
    assert out == MergeFrames(lk, v, ListadoKey, KeyProd, Left, "_prod", "_inegi").value;
    MergeLeftUnique(lk, v, ListadoKey, KeyProd, "_prod", "_inegi");
    forall c, i | c in lk.columns && c !in d.columns && 0 <= i < |lk.rows| ensures Get(out, i, c) == Get(lk, i, c) {
      MergeGetLeft(lk, v, ListadoKey, KeyProd, Left, "_prod", "_inegi", i, c);
    }
  }

  /** A non-Veracruz dictionary row survives the filter of line 143 with its
      cells. */
  lemma VeracruzFilterKeeps(d: Frame, j: nat)
    requires WellFormed(d) && NomEnt in d.columns && j < |d.rows| && Get(d, j, NomEnt) != Str(Veracruz)
    ensures exists s :: (0 <= s < |FilterNe(d, NomEnt, Veracruz).value.rows| &&
      FilterNe(d, NomEnt, Veracruz).value.rows[s] == d.rows[j] && Get(FilterNe(d, NomEnt, Veracruz).value, s, KeyProd) == Get(d, j, KeyProd))
  {
    var v := FilterNe(d, NomEnt, Veracruz).value;
    assert d.rows[j] in v.rows;
    var s :| 0 <= s < |v.rows| && v.rows[s] == d.rows[j];
    assert Get(v, s, KeyProd) == Get(d, j, KeyProd);
  }

  /** Two different non-Veracruz dictionary rows with the key of a row of
      the list make the joined table longer than the list. */
  lemma CompletedGrows(lk: Frame, d: Frame, i: nat, j1: nat, j2: nat)
    requires WellFormed(lk) && WellFormed(d) && Completed(lk, d).Ok?
    requires i < |lk.rows| && j1 < |d.rows| && j2 < |d.rows| && d.rows[j1] != d.rows[j2]
    requires Get(d, j1, NomEnt) != Str(Veracruz) && Get(d, j2, NomEnt) != Str(Veracruz)
    requires Get(d, j1, KeyProd) == Get(lk, i, ListadoKey) && Get(d, j2, KeyProd) == Get(lk, i, ListadoKey)
    ensures |Completed(lk, d).value.rows| > |lk.rows|
  {
    var v := FilterNe(d, NomEnt, Veracruz).value;
    assert Completed(lk, d).value == MergeFrames(lk, v, ListadoKey, KeyProd, Left, "_prod", "_inegi").value;
    VeracruzFilterKeeps(d, j1);
    VeracruzFilterKeeps(d, j2);
    var s1 :| 0 <= s1 < |v.rows| && v.rows[s1] == d.rows[j1] && Get(v, s1, KeyProd) == Get(d, j1, KeyProd);
    var s2 :| 0 <= s2 < |v.rows| && v.rows[s2] == d.rows[j2] && Get(v, s2, KeyProd) == Get(d, j2, KeyProd);
    if s1 < s2 {
      MergeLeftGrows(lk, v, ListadoKey, KeyProd, i, s1, s2);
    } else {
      assert s1 != s2;
      MergeLeftGrows(lk, v, ListadoKey, KeyProd, i, s2, s1);
    }
  }

  /** No cleaned state or municipality name of the list holds a hyphen. */
  predicate HyphenFreeNames(tr: string -> string, listado: Frame) {
    forall i :: 0 <= i < |listado.rows| ==>
      && (CleanText(tr, Get(listado, i, Estado)).Ok? ==> '-' !in AsStr(CleanText(tr, Get(listado, i, Estado)).value))
      && (CleanText(tr, Get(listado, i, Municipio)).Ok? ==> '-' !in AsStr(CleanText(tr, Get(listado, i, Municipio)).value))
  }

  /** With hyphen-free names, two producer rows with one `KEY_prod` are the
      same row. */
  lemma ProducerSameKeySameRow(tr: string -> string, listado: Frame, s: nat, t: nat)
    requires WellFormed(listado) && ProducerStage(tr, listado).Ok? && HyphenFreeNames(tr, listado)
    requires s < |ProducerStage(tr, listado).value.rows| && t < |ProducerStage(tr, listado).value.rows|
    requires Get(ProducerStage(tr, listado).value, s, KeyProd) == Get(ProducerStage(tr, listado).value, t, KeyProd)
    ensures ProducerStage(tr, listado).value.rows[s] == ProducerStage(tr, listado).value.rows[t]
  {
    var ps := ProducerStage(tr, listado).value;
    ProducerStageFrom(tr, listado, s);
    ProducerStageFrom(tr, listado, t);
    var j1 :| 0 <= j1 < |listado.rows| && ProducerRowOf(tr, ps, s, Get(listado, j1, Estado), Get(listado, j1, Municipio));
    var j2 :| 0 <= j2 < |listado.rows| && ProducerRowOf(tr, ps, t, Get(listado, j2, Estado), Get(listado, j2, Municipio));
    var e1, m1 := CleanText(tr, Get(listado, j1, Estado)).value, CleanText(tr, Get(listado, j1, Municipio)).value;
    var e2, m2 := CleanText(tr, Get(listado, j2, Estado)).value, CleanText(tr, Get(listado, j2, Municipio)).value;
    assert '-' !in AsStr(e1) && '-' !in AsStr(m1) && '-' !in AsStr(e2) && '-' !in AsStr(m2);
    assert JoinKey(e1, m1) == JoinKey(e2, m2);
    JoinKeyInjective(e1, m1, e2, m2);
    assert Get(ps, s, EstadoClean) == Get(ps, t, EstadoClean) && Get(ps, s, MunicipioClean) == Get(ps, t, MunicipioClean);
    ProducerSameCellsSameRow(tr, listado, s, t);
  }

  /** Two producer rows agreeing on the cleaned names and the key are the
      same row. */
  lemma ProducerSameCellsSameRow(tr: string -> string, listado: Frame, s: nat, t: nat)
    requires WellFormed(listado) && ProducerStage(tr, listado).Ok?
    requires s < |ProducerStage(tr, listado).value.rows| && t < |ProducerStage(tr, listado).value.rows|
    requires var ps := ProducerStage(tr, listado).value;
      && Get(ps, s, EstadoClean) == Get(ps, t, EstadoClean) && Get(ps, s, MunicipioClean) == Get(ps, t, MunicipioClean)
      && Get(ps, s, KeyProd) == Get(ps, t, KeyProd)
    ensures ProducerStage(tr, listado).value.rows[s] == ProducerStage(tr, listado).value.rows[t]
  {
    var ps := ProducerStage(tr, listado).value;
    ProducerStageLabels(tr, listado);
    forall c | c in ps.columns ensures Get(ps, s, c) == Get(ps, t, c) {
      assert c == EstadoClean || c == MunicipioClean || c == KeyProd;
    }
    SameCellsSameRow(ps, s, t);
  }

  /** With hyphen-free names, `KEY_prod` does not repeat in the producer
      table (line 129 removes the repeated rows). */
  lemma ProducerKeysUnique(tr: string -> string, listado: Frame)
    requires WellFormed(listado) && ProducerStage(tr, listado).Ok? && HyphenFreeNames(tr, listado)
    ensures Distinct(Column(ProducerStage(tr, listado).value, KeyProd))
  {
    var ps := ProducerStage(tr, listado).value;
    forall s, t | 0 <= s < |ps.rows| && 0 <= t < |ps.rows| && Get(ps, s, KeyProd) == Get(ps, t, KeyProd)
      ensures ps.rows[s] == ps.rows[t]
    {
      ProducerSameKeySameRow(tr, listado, s, t);
    }
  }

  /** With hyphen-free producer names, each catalogue row gives at most one
      dictionary row, and the dictionary keeps catalogue order. */
  lemma DictionaryOnce(tr: string -> string, score: (string, string) -> Score, ik: Frame, listado: Frame)
    requires WellFormed(ik) && WellFormed(listado) && ProducerStage(tr, listado).Ok? && HyphenFreeNames(tr, listado)
    requires Dictionary(score, ik, ProducerStage(tr, listado).value).Ok?
    ensures var pk := ProducerStage(tr, listado).value;
      && |Dictionary(score, ik, pk).value.rows| == |ProdSources(ik, pk, KeyInegi, KeyProd, score, ProdThreshold)|
      && Increasing(ProdSources(ik, pk, KeyInegi, KeyProd, score, ProdThreshold))
  {
    var pk := ProducerStage(tr, listado).value;
    ProducerKeysUnique(tr, listado);
    FuzzyMergeProdOnce(ik, pk, KeyInegi, KeyProd, score, ProdThreshold);
  }

  // ---------------------------------------------------------------------
  // The stages as `main` runs them, assignment by assignment

  /** `t[ta] = t[a].apply(clean_text)`, `t[tb] = t[b].apply(clean_text)`,
      then both as text, into the caller's table. */
  method CleanPairInPlace(t: Table, tr: string -> string, a: string, b: string, ta: string, tb: string) returns (err: Option<Error>)
    requires t.Valid() && ta != tb && ta != b
    modifies t
    ensures t.Valid()
    ensures AssignCleanPair(tr, old(t.Value()), a, b, ta, tb).Ok? ==>
      err.None? && t.Value() == AssignCleanPair(tr, old(t.Value()), a, b, ta, tb).value
    ensures AssignCleanPair(tr, old(t.Value()), a, b, ta, tb).Err? ==>
      err == Some(AssignCleanPair(tr, old(t.Value()), a, b, ta, tb).error)
  {
    ghost var f := t.Value();
    var first := CleanColumn(tr, t.Value(), a);
    if first.Err? {
      return Some(first.error);
    }
    t.Assign(ta, first.value);
    ghost var g1 := t.Value();
    assert g1 == AssignClean(tr, f, a, ta).value;
    var second := CleanColumn(tr, t.Value(), b);
    if second.Err? {
      return Some(second.error);
    }
    t.Assign(tb, second.value);
    assert t.Value() == AssignClean(tr, g1, b, tb).value;
    var aText := TextColumn(t.Value(), ta).value;
    t.Assign(ta, aText);
    var bText := TextColumn(t.Value(), tb).value;
    t.Assign(tb, bText);
    err := None;
  }

  /** The cleaned pair, then `t[k] = t[ta] + '-' + t[tb]`, into the caller's
      table. */
  method NameKeyInPlace(t: Table, tr: string -> string, a: string, b: string, ta: string, tb: string, k: string) returns (err: Option<Error>)
    requires t.Valid() && ta != tb && ta != b && k != ta && k != tb
    modifies t
    ensures t.Valid()
    ensures AssignNameKey(tr, old(t.Value()), a, b, ta, tb, k).Ok? ==>
      err.None? && t.Value() == AssignNameKey(tr, old(t.Value()), a, b, ta, tb, k).value
    ensures AssignNameKey(tr, old(t.Value()), a, b, ta, tb, k).Err? ==>
      err == Some(AssignNameKey(tr, old(t.Value()), a, b, ta, tb, k).error)
  {
    err := CleanPairInPlace(t, tr, a, b, ta, tb);
    if err.Some? {
      return;
    }
    var keys := KeyColumn(t.Value(), ta, tb).value;
    t.Assign(k, keys);
  }

  /** `t[cu] = t[ca].astype(str) + '-' + t[cb].astype(str)`, then the name
      key, into the caller's table. */
  method CodeAndNameKeysInPlace(t: Table, tr: string -> string, ca: string, cb: string, cu: string,
                                a: string, b: string, ta: string, tb: string, k: string) returns (err: Option<Error>)
    requires t.Valid() && ta != tb && ta != b && k != ta && k != tb
    requires cu != a && cu != b && cu != ta && cu != tb && cu != k
    modifies t
    ensures t.Valid()
    ensures AssignCodeAndNameKeys(tr, old(t.Value()), ca, cb, cu, a, b, ta, tb, k).Ok? ==>
      err.None? && t.Value() == AssignCodeAndNameKeys(tr, old(t.Value()), ca, cb, cu, a, b, ta, tb, k).value
    ensures AssignCodeAndNameKeys(tr, old(t.Value()), ca, cb, cu, a, b, ta, tb, k).Err? ==>
      err == Some(AssignCodeAndNameKeys(tr, old(t.Value()), ca, cb, cu, a, b, ta, tb, k).error)
  {
    ghost var d := t.Value();
    var codes := KeyColumn(t.Value(), ca, cb);
    if codes.Err? {
      return Some(codes.error);
    }
    t.Assign(cu, codes.value);
    assert t.Value() == AssignKey(d, ca, cb, cu).value;
    err := NameKeyInPlace(t, tr, a, b, ta, tb, k);
  }

  /** Lines 90-126 on the catalogue, one in-place step at a time. */
  method PrepareInegi(tr: string -> string, inegi: Frame) returns (r: Result<Frame>)
    requires WellFormed(inegi)
    ensures r == InegiStage(tr, inegi)
  {
    InegiLabelsApart();
    var t := new Table(inegi);
    var err := t.DropColumns(InegiDropped);
    if err.Some? {
      return Err(err.value);
    }
    t.DropDuplicateRows();
    assert t.Value() == InegiDistinct(inegi).value;
    err := CodeAndNameKeysInPlace(t, tr, CveEnt, CveMun, CveMunUnique, NomEnt, NomMun, NomEntClean, NomMunClean, KeyInegi);
    if err.Some? {
      return Err(err.value);
    }
    r := Ok(t.Value());
  }

  /** Lines 106-129 on the producer list, one in-place step at a time. */
  method PrepareProducers(tr: string -> string, listado: Frame) returns (r: Result<Frame>)
    requires WellFormed(listado)
    ensures r == ProducerStage(tr, listado)
  {
    ProducerLabelsApart();
    var pairs := ProducerPairs(listado);
    if pairs.Err? {
      return Err(pairs.error);
    }
    var t := new Table(Select(listado, [Estado, Municipio]).value);
    t.DropDuplicateRows();
    assert t.Value() == pairs.value;
    var err := NameKeyInPlace(t, tr, Estado, Municipio, EstadoClean, MunicipioClean, KeyProd);
    if err.Some? {
      return Err(err.value);
    }
    ghost var k := t.Value();
    err := t.DropColumns([Estado, Municipio]);
    assert err.None?;
    t.DropDuplicateRows();
    r := Ok(t.Value());
  }
}
