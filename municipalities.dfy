/** The municipality stage of `data_cleaning3` (lines 163-243 of
    src/data_cleaning_and_merge_e3.py): the INEGI catalogue's codes padded and
    its two keys built, one row per municipality, the fuzzy municipality
    dictionary, and the beneficiary list completed from the curated
    (`_simple`) dictionary and the municipality table. */
module Municipalities {
  import opened Base
  import opened Seqs
  import opened Keys
  import opened Normalizer
  import opened Frames
  import opened Merge
  import opened Derive
  import opened Fuzzy
  import opened Tables
  import U = UniqueLoc

  // Catalogue labels
  const CveEnt := "CVE_ENT"
  const CveMun := "CVE_MUN"
  const CveLoc := "CVE_LOC"

  // Beneficiary labels
  const Entidad := "ENTIDAD"
  const Municipio := "MUNICIPIO"
  const Localidad := "LOCALIDAD"
  const EntidadBenef := "ENTIDAD_c_benef"
  const MunicipioBenef := "MUNICIPIO_c_benef"
  const LocalidadBenef := "LOCALIDAD_c_benef"
  const KeyBenefMun := "KEY_benef_mun"
  const KeyBenefLoc := "KEY_benef_loc"
  const EstadoClean := "ESTADO_Clean"
  const MunicipioClean := "MUNICIPIO_Clean"
  const ListadoKey := "Estado-mun-KEY"

  /** Lines 189-190: the locality columns the municipality table leaves out. */
  const LocalityColumns: seq<string> := [CveLoc, U.Localidad, U.LocalidadClean, U.LocalidadKey, U.Population]

  /** Lines 196-197. */
  const DictionaryMunDropped: seq<string> := [Entidad, Municipio, EntidadBenef, MunicipioBenef, U.EntidadClean, U.MunicipioClean]

  /** Line 228-231. */
  const ListadoDropped: seq<string> := [EstadoClean, MunicipioClean, ListadoKey, U.MunicipioKey, U.EntidadClean,
    U.MunicipioClean, "ESTRATIFICACI\U{d3}N", "PROGRAMA", "COMPONENTE", "SUBCOMPONENTE", "APOYO",
    "ACTIVIDAD", "ESLAB\U{d3}N"]

  lemma LabelsApart()
    ensures CveEnt != CveMun && CveEnt != CveLoc && CveMun != CveLoc
    ensures CveEnt != U.EntidadClean && CveEnt != U.MunicipioClean && CveEnt != U.LocalidadClean
    ensures CveMun != U.EntidadClean && CveMun != U.MunicipioClean && CveMun != U.LocalidadClean
    ensures CveLoc != U.EntidadClean && CveLoc != U.MunicipioClean && CveLoc != U.LocalidadClean
    ensures CveEnt != U.MunicipioKey && CveEnt != U.LocalidadKey && CveMun != U.MunicipioKey
    ensures CveMun != U.LocalidadKey && CveLoc != U.MunicipioKey && CveLoc != U.LocalidadKey
    ensures Entidad != Municipio && Municipio != Localidad && Entidad != Localidad
    ensures EntidadBenef != MunicipioBenef && EntidadBenef != Municipio && KeyBenefMun != EntidadBenef && KeyBenefMun != MunicipioBenef
    ensures MunicipioBenef != LocalidadBenef && MunicipioBenef != Localidad && KeyBenefLoc != MunicipioBenef && KeyBenefLoc != LocalidadBenef
    ensures EntidadBenef != Localidad && EntidadBenef != LocalidadBenef && EntidadBenef != KeyBenefLoc
    ensures EstadoClean != MunicipioClean && EstadoClean != Municipio && ListadoKey != EstadoClean && ListadoKey != MunicipioClean
    ensures Entidad != EstadoClean && Entidad != MunicipioClean && Entidad != ListadoKey
    ensures Municipio != EstadoClean && Municipio != MunicipioClean && Municipio != ListadoKey
    ensures Entidad != EntidadBenef && Entidad != MunicipioBenef && Entidad != KeyBenefMun
    ensures Municipio != EntidadBenef && Municipio != MunicipioBenef && Municipio != KeyBenefMun
  {
  }

  // ---------------------------------------------------------------------
  // The INEGI catalogue (lines 169-192)
  // ---------------------------------------------------------------------

  /** `f[c] = f[c].astype(str).str.zfill(w)`. */
  function Padded(f: Frame, c: string, w: nat): (r: Result<Frame>)
    requires WellFormed(f)
    ensures c !in f.columns ==> r == Err(KeyError(c))
    ensures r.Ok? <==> c in f.columns
    ensures r.Ok? ==> WellFormed(r.value) && r.value.columns == f.columns && |r.value.rows| == |f.rows|
    ensures r.Ok? ==> forall i :: 0 <= i < |f.rows| ==> Get(r.value, i, c) == ZFillCell(Get(f, i, c), w)
    ensures r.Ok? ==> forall i, d :: 0 <= i < |f.rows| && d != c ==> Get(r.value, i, d) == Get(f, i, d)
  {
    var vals :- ZFillColumn(f, c, w);
    Ok(AssignColumn(f, c, vals))
  }

  /** Lines 169-171: the state, municipality and locality codes padded to
      widths 2, 3 and 4. */
  function PaddedCodes(f: Frame): (r: Result<Frame>)
    requires WellFormed(f)
    ensures r.Ok? <==> CveEnt in f.columns && CveMun in f.columns && CveLoc in f.columns
    ensures r.Err? ==> r.error.KeyError?
    ensures r.Ok? ==> WellFormed(r.value) && r.value.columns == f.columns && |r.value.rows| == |f.rows|
  {
    var a :- Padded(f, CveEnt, 2);
    var b :- Padded(a, CveMun, 3);
    Padded(b, CveLoc, 4)
  }

  /** A padded row holds its codes padded and every other cell as before. */
  lemma PaddedCodesRow(f: Frame, i: nat)
    requires WellFormed(f) && PaddedCodes(f).Ok? && i < |f.rows|
    ensures var r := PaddedCodes(f).value;
      && Get(r, i, CveEnt) == ZFillCell(Get(f, i, CveEnt), 2)
      && Get(r, i, CveMun) == ZFillCell(Get(f, i, CveMun), 3)
      && Get(r, i, CveLoc) == ZFillCell(Get(f, i, CveLoc), 4)
      && forall d :: d != CveEnt && d != CveMun && d != CveLoc ==> Get(r, i, d) == Get(f, i, d)
  {
    LabelsApart();
    var a := Padded(f, CveEnt, 2).value;
    var b := Padded(a, CveMun, 3).value;
    assert PaddedCodes(f) == Padded(b, CveLoc, 4);
  }

  /** Lines 169-171 and 183-187: the codes padded, then the municipality and
      locality keys. */
  function Catalogue(f: Frame): (r: Result<Frame>)
    requires WellFormed(f)
    ensures r.Ok? <==> (CveEnt in f.columns && CveMun in f.columns && CveLoc in f.columns &&
                        U.EntidadClean in f.columns && U.MunicipioClean in f.columns && U.LocalidadClean in f.columns)
    ensures r.Err? ==> r.error.KeyError?
    ensures r.Ok? ==> WellFormed(r.value) && |r.value.rows| == |f.rows|
    ensures r.Ok? ==> forall c :: c in r.value.columns <==> c in f.columns || c == U.MunicipioKey || c == U.LocalidadKey
  {
    var p :- PaddedCodes(f);
    U.Keyed(p)
  }

  /** Every catalogue row has its codes zero-padded on the left to widths
      2, 3 and 4 and its keys joined from its cleaned INEGI names. */
  lemma CatalogueRow(f: Frame, i: nat)
    requires WellFormed(f) && Catalogue(f).Ok? && i < |f.rows|
    ensures var r := Catalogue(f).value;
      && Get(r, i, CveEnt) == ZFillCell(Get(f, i, CveEnt), 2)
      && Get(r, i, CveMun) == ZFillCell(Get(f, i, CveMun), 3)
      && Get(r, i, CveLoc) == ZFillCell(Get(f, i, CveLoc), 4)
      && Get(r, i, U.MunicipioKey) == JoinKey(Get(f, i, U.EntidadClean), Get(f, i, U.MunicipioClean))
      && Get(r, i, U.LocalidadKey) == JoinKey(Get(f, i, U.MunicipioClean), Get(f, i, U.LocalidadClean))
      && forall c :: c != CveEnt && c != CveMun && c != CveLoc && c != U.MunicipioKey && c != U.LocalidadKey ==>
           Get(r, i, c) == Get(f, i, c)
  {
    LabelsApart();
    PaddedCodesRow(f, i);
  }

  /** The padded codes are padded for good: padding a catalogue code again
      changes nothing, and a code already as wide as its width is kept. */
  lemma CataloguePaddedOnce(f: Frame, i: nat)
    requires WellFormed(f) && Catalogue(f).Ok? && i < |f.rows|
    ensures var r := Catalogue(f).value;
      && ZFillCell(Get(r, i, CveEnt), 2) == Get(r, i, CveEnt)
      && ZFillCell(Get(r, i, CveMun), 3) == Get(r, i, CveMun)
      && ZFillCell(Get(r, i, CveLoc), 4) == Get(r, i, CveLoc)
    ensures Get(f, i, CveEnt).Str? && |Get(f, i, CveEnt).s| >= 2 ==> Get(Catalogue(f).value, i, CveEnt) == Get(f, i, CveEnt)
  {
    CatalogueRow(f, i);
    ZFillIdempotent(AsStr(Get(f, i, CveEnt)), 2);
    ZFillIdempotent(AsStr(Get(f, i, CveMun)), 3);
    ZFillIdempotent(AsStr(Get(f, i, CveLoc)), 4);
  }

  /** Lines 189-192: the catalogue without its locality columns, first row
      of each municipality key kept. */
  function UniqueMun(cat: Frame): (r: Result<Frame>)
    requires WellFormed(cat)
    ensures r.Ok? <==> (forall c :: c in LocalityColumns ==> c in cat.columns) && U.MunicipioKey in cat.columns
    ensures r.Err? ==> r.error.KeyError?
    ensures r.Ok? ==> WellFormed(r.value) && |r.value.rows| <= |cat.rows|
    ensures r.Ok? ==> forall c :: c in r.value.columns <==> c in cat.columns && c !in LocalityColumns
  {
    var d :- Drop(cat, LocalityColumns);
    var u :- DropDuplicatesOn(d, [U.MunicipioKey]);
    SubsequenceLength(u.rows, d.rows);
    Ok(u)
  }

  /** De-duplication on the municipality key leaves, row by row, catalogue
      rows without their locality columns: no two share a key. */
  lemma UniqueMunKeys(cat: Frame)
    requires WellFormed(cat) && UniqueMun(cat).Ok?
    ensures Distinct(Column(UniqueMun(cat).value, U.MunicipioKey))
  {
    var d := Drop(cat, LocalityColumns).value;
    DropDuplicatesOnOneColumn(d, U.MunicipioKey);
  }

  /** Every municipality of the catalogue keeps a row, and every kept row is
      a catalogue row on the labels it keeps. */
  lemma UniqueMunCovers(cat: Frame, i: nat)
    requires WellFormed(cat) && UniqueMun(cat).Ok? && i < |cat.rows|
    ensures exists t :: (0 <= t < |UniqueMun(cat).value.rows| &&
      Get(UniqueMun(cat).value, t, U.MunicipioKey) == Get(cat, i, U.MunicipioKey))
  {
    var d := Drop(cat, LocalityColumns).value;
    var u := UniqueMun(cat).value;
    var key := KeyOn(d.columns, [U.MunicipioKey]);
    assert key(d.rows[i]) in KeysOf(d.rows, key);
    var t :| 0 <= t < |u.rows| && key(u.rows[t]) == key(d.rows[i]);
    assert key(u.rows[t]) == [Get(u, t, U.MunicipioKey)];
    assert key(d.rows[i]) == [Get(d, i, U.MunicipioKey)];
    U.DropGet(cat, LocalityColumns, i, U.MunicipioKey);
  }

  /** Row `t` of `a` and row `i` of `b` agree under every label outside `cs`. */
  ghost predicate AgreeOutside(a: Frame, t: nat, b: Frame, i: nat, cs: seq<string>)
    requires t < |a.rows| && i < |b.rows|
  {
    forall c :: c !in cs ==> Get(a, t, c) == Get(b, i, c)
  }

  lemma UniqueMunFrom(cat: Frame, t: nat)
    requires WellFormed(cat) && UniqueMun(cat).Ok? && t < |UniqueMun(cat).value.rows|
    ensures exists i :: 0 <= i < |cat.rows| && AgreeOutside(UniqueMun(cat).value, t, cat, i, LocalityColumns)
  {
    var d := Drop(cat, LocalityColumns).value;
    var u := UniqueMun(cat).value;
    SubsequenceMembers(u.rows, d.rows);
    var i :| 0 <= i < |d.rows| && d.rows[i] == u.rows[t];
    forall c | c !in LocalityColumns ensures Get(u, t, c) == Get(cat, i, c) {
      assert Get(u, t, c) == Get(d, i, c);
      U.DropGet(cat, LocalityColumns, i, c);
    }
    assert AgreeOutside(u, t, cat, i, LocalityColumns);
  }

  // ---------------------------------------------------------------------
  // The beneficiary municipalities and the fuzzy dictionary (174-181, 194-197)
  // ---------------------------------------------------------------------

  /** The labels of the municipality pairs table. */
  const PairColumns: seq<string> := [Entidad, Municipio, EntidadBenef, MunicipioBenef, KeyBenefMun]

  lemma PairColumnsLabels()
    ensures WithLabel(WithLabel(WithLabel([Entidad, Municipio], EntidadBenef), MunicipioBenef), KeyBenefMun) == PairColumns
  {
    LabelsApart();
    var c1 := [Entidad, Municipio];
    assert EntidadBenef !in c1;
    var c2 := c1 + [EntidadBenef];
    assert WithLabel(c1, EntidadBenef) == c2;
    assert MunicipioBenef !in c2;
    var c3 := c2 + [MunicipioBenef];
    assert WithLabel(c2, MunicipioBenef) == c3;
    assert KeyBenefMun !in c3;
    assert WithLabel(c3, KeyBenefMun) == c3 + [KeyBenefMun] == PairColumns;
  }

  /** Whole-row de-duplication keeps every value a column held and adds none. */
  lemma DropDuplicatesNoNumbers(f: Frame, c: string)
    requires WellFormed(f)
    ensures NoNumbers(DropDuplicates(f), c) <==> NoNumbers(f, c)
  {
    var d := DropDuplicates(f);
    if NoNumbers(f, c) {
      SubsequenceMembers(d.rows, f.rows);
      forall t | 0 <= t < |d.rows| ensures !Get(d, t, c).Num? {
        var i :| 0 <= i < |f.rows| && f.rows[i] == d.rows[t];
        assert Get(d, t, c) == Get(f, i, c);
      }
    }
    if NoNumbers(d, c) {
      forall i | 0 <= i < |f.rows| ensures !Get(f, i, c).Num? {
        DropDuplicatesCovers(f, i);
        var t :| 0 <= t < |d.rows| && d.rows[t] == f.rows[i];
        assert Get(d, t, c) == Get(f, i, c);
      }
    }
  }

  /** Lines 174-181: the distinct state-municipality pairs of the
      beneficiaries, each with its cleaned names and their key. */
  function MunicipalityPairs(tr: string -> string, benef: Frame): (r: Result<Frame>)
    requires WellFormed(benef)
    ensures r.Ok? <==> (Entidad in benef.columns && Municipio in benef.columns &&
                        NoNumbers(benef, Entidad) && NoNumbers(benef, Municipio))
    ensures r.Err? ==> r.error.KeyError? || r.error == AttributeError
    ensures r.Ok? ==> WellFormed(r.value) && r.value.columns == PairColumns
  {
    LabelsApart();
    var s :- Select(benef, [Entidad, Municipio]);
    assert NoNumbers(s, Entidad) == NoNumbers(benef, Entidad) && NoNumbers(s, Municipio) == NoNumbers(benef, Municipio);
    DropDuplicatesNoNumbers(s, Entidad);
    DropDuplicatesNoNumbers(s, Municipio);
    PairColumnsLabels();
    AssignCleanKey(tr, DropDuplicates(s), Entidad, Municipio, EntidadBenef, MunicipioBenef, KeyBenefMun)
  }

  /** Each pair is a beneficiary's state and municipality, keyed by their
      cleaned names. */
  lemma MunicipalityPairsFrom(tr: string -> string, benef: Frame, t: nat)
    requires WellFormed(benef) && MunicipalityPairs(tr, benef).Ok? && t < |MunicipalityPairs(tr, benef).value.rows|
    ensures exists i :: (0 <= i < |benef.rows| &&
      var r := MunicipalityPairs(tr, benef).value;
      && Get(r, t, Entidad) == Get(benef, i, Entidad) && Get(r, t, Municipio) == Get(benef, i, Municipio)
      && !Get(benef, i, Entidad).Num? && !Get(benef, i, Municipio).Num?
      && Get(r, t, KeyBenefMun) == NameKey(tr, Get(benef, i, Entidad), Get(benef, i, Municipio)))
  {
    LabelsApart();
    var s := Select(benef, [Entidad, Municipio]).value;
    var d := DropDuplicates(s);
    var r := MunicipalityPairs(tr, benef).value;
    assert r == AssignCleanKey(tr, d, Entidad, Municipio, EntidadBenef, MunicipioBenef, KeyBenefMun).value;
    SubsequenceMembers(d.rows, s.rows);
    var i :| 0 <= i < |s.rows| && s.rows[i] == d.rows[t];
    var e, m := Get(benef, i, Entidad), Get(benef, i, Municipio);
    assert Get(d, t, Entidad) == Get(s, i, Entidad) == e;
    assert Get(d, t, Municipio) == Get(s, i, Municipio) == m;
    assert Get(r, t, Entidad) == e && Get(r, t, Municipio) == m;
    assert Get(r, t, KeyBenefMun) == NameKey(tr, e, m);
    assert !e.Num? && !m.Num?;
  }

  /** Every beneficiary's state and municipality appear among the pairs. */
  lemma MunicipalityPairsCovers(tr: string -> string, benef: Frame, i: nat)
    requires WellFormed(benef) && MunicipalityPairs(tr, benef).Ok? && i < |benef.rows|
    ensures exists t :: (0 <= t < |MunicipalityPairs(tr, benef).value.rows| &&
      Get(MunicipalityPairs(tr, benef).value, t, Entidad) == Get(benef, i, Entidad) &&
      Get(MunicipalityPairs(tr, benef).value, t, Municipio) == Get(benef, i, Municipio))
  {
    LabelsApart();
    var s := Select(benef, [Entidad, Municipio]).value;
    var d := DropDuplicates(s);
    var r := MunicipalityPairs(tr, benef).value;
    assert r == AssignCleanKey(tr, d, Entidad, Municipio, EntidadBenef, MunicipioBenef, KeyBenefMun).value;
    DropDuplicatesCovers(s, i);
    var t :| 0 <= t < |d.rows| && d.rows[t] == s.rows[i];
    assert Get(d, t, Entidad) == Get(s, i, Entidad) && Get(d, t, Municipio) == Get(s, i, Municipio);
  }

  /** No pair is listed twice. */
  lemma MunicipalityPairsDistinct(tr: string -> string, benef: Frame)
    requires WellFormed(benef) && MunicipalityPairs(tr, benef).Ok?
    ensures var r := MunicipalityPairs(tr, benef).value;
      forall s, t :: 0 <= s < t < |r.rows| ==>
        Get(r, s, Entidad) != Get(r, t, Entidad) || Get(r, s, Municipio) != Get(r, t, Municipio)
  {
    LabelsApart();
    var sel := Select(benef, [Entidad, Municipio]).value;
    var d := DropDuplicates(sel);
    var r := MunicipalityPairs(tr, benef).value;
    assert r == AssignCleanKey(tr, d, Entidad, Municipio, EntidadBenef, MunicipioBenef, KeyBenefMun).value;
    forall s, t | 0 <= s < t < |r.rows|
      ensures Get(r, s, Entidad) != Get(r, t, Entidad) || Get(r, s, Municipio) != Get(r, t, Municipio)
    {
      if Get(d, s, Entidad) == Get(d, t, Entidad) && Get(d, s, Municipio) == Get(d, t, Municipio) {
        SameCellsSameRow(d, s, t);
      }
    }
  }

  /** Lines 194-197: the fuzzy municipality dictionary, without the name
      columns. */
  function DictionaryMun(score: (string, string) -> Score, pairs: Frame, um: Frame): (r: Result<Frame>)
    requires WellFormed(pairs) && WellFormed(um)
    ensures U.MunicipioKey !in um.columns ==> r == Err(KeyError(U.MunicipioKey))
    ensures r.Ok? ==> WellFormed(r.value) && forall c :: c in DictionaryMunDropped ==> c !in r.value.columns
  {
    var m :- FuzzyMergeBenef(pairs, um, KeyBenefMun, U.MunicipioKey, score, BenefThreshold);
    Drop(m, DictionaryMunDropped)
  }

  lemma DictionaryMunKeeps()
    ensures KeyBenefMun !in DictionaryMunDropped && U.MunicipioKey !in DictionaryMunDropped
    ensures "best_match" !in DictionaryMunDropped && "match_score" !in DictionaryMunDropped
  {
  }

  /** Each dictionary row is one beneficiary pair, in order: its key, the
      catalogue municipality key that matches it best (when one reaches 85)
      with its score, and that key again under `KEY_inegi_municipio`. */
  lemma DictionaryMunRow(tr: string -> string, score: (string, string) -> Score, benef: Frame, cat: Frame, i: nat)
    requires WellFormed(benef) && WellFormed(cat)
    requires MunicipalityPairs(tr, benef).Ok? && UniqueMun(cat).Ok?
    requires "best_match" !in cat.columns && "match_score" !in cat.columns && KeyBenefMun !in cat.columns
    requires DictionaryMun(score, MunicipalityPairs(tr, benef).value, UniqueMun(cat).value).Ok?
    requires i < |MunicipalityPairs(tr, benef).value.rows|
    ensures var pairs, um := MunicipalityPairs(tr, benef).value, UniqueMun(cat).value;
      var dict := DictionaryMun(score, pairs, um).value;
      && |dict.rows| == |pairs.rows|
      && Get(dict, i, KeyBenefMun) == Get(pairs, i, KeyBenefMun)
      && AllText(Column(um, U.MunicipioKey))
      && IsBestMatch(Get(pairs, i, KeyBenefMun), Column(um, U.MunicipioKey),
                     Get(dict, i, "best_match"), Get(dict, i, "match_score"), score, BenefThreshold)
      && Get(dict, i, U.MunicipioKey) == Get(dict, i, "best_match")
  {
    LabelsApart();
    DictionaryMunKeeps();
    var pairs, um := MunicipalityPairs(tr, benef).value, UniqueMun(cat).value;
    var m := FuzzyMergeBenef(pairs, um, KeyBenefMun, U.MunicipioKey, score, BenefThreshold).value;
    UniqueMunKeys(cat);
    FuzzyMergeBenefRow(pairs, um, KeyBenefMun, U.MunicipioKey, score, BenefThreshold, i);
    FuzzyMergeBenefPartner(pairs, um, KeyBenefMun, U.MunicipioKey, score, BenefThreshold, i);
    assert U.MunicipioKey in um.columns && U.MunicipioKey !in pairs.columns;
    U.DropGet(m, DictionaryMunDropped, i, KeyBenefMun);
    U.DropGet(m, DictionaryMunDropped, i, "best_match");
    U.DropGet(m, DictionaryMunDropped, i, "match_score");
    U.DropGet(m, DictionaryMunDropped, i, U.MunicipioKey);
  }

  // ---------------------------------------------------------------------
  // The curated dictionary and the completed beneficiary list (203-243)
  // ---------------------------------------------------------------------

  /** Line 206: the first curated row of each beneficiary municipality key. */
  function OverrideMun(simple: Frame): (r: Result<Frame>)
    requires WellFormed(simple)
    ensures r.Ok? <==> KeyBenefMun in simple.columns
    ensures r.Err? ==> r == Err(KeyError(KeyBenefMun))
    ensures r.Ok? ==> WellFormed(r.value) && r.value.columns == simple.columns && IsSubsequence(r.value.rows, simple.rows)
    ensures r.Ok? ==> Distinct(Column(r.value, KeyBenefMun))
  {
    var d :- DropDuplicatesOn(simple, [KeyBenefMun]);
    DropDuplicatesOnOneColumn(simple, KeyBenefMun);
    Ok(d)
  }

  /** The curated row kept for a key is the first one with that key, and
      every curated key keeps a row. */
  lemma OverrideMunFirst(simple: Frame, t: nat)
    requires WellFormed(simple) && OverrideMun(simple).Ok? && t < |OverrideMun(simple).value.rows|
    ensures exists j :: (0 <= j < |simple.rows| && OverrideMun(simple).value.rows[t] == simple.rows[j] &&
      forall k :: 0 <= k < j ==> Get(simple, k, KeyBenefMun) != Get(simple, j, KeyBenefMun))
  {
    var key := KeyOn(simple.columns, [KeyBenefMun]);
    DropDuplicatesOnKeepsFirst(simple, [KeyBenefMun], t);
    var j :| 0 <= j < |simple.rows| && OverrideMun(simple).value.rows[t] == simple.rows[j] && FirstOfItsKey(simple.rows, key, j);
    forall k | 0 <= k < j ensures Get(simple, k, KeyBenefMun) != Get(simple, j, KeyBenefMun) {
      assert key(simple.rows[k]) == [Get(simple, k, KeyBenefMun)];
      assert key(simple.rows[j]) == [Get(simple, j, KeyBenefMun)];
    }
  }

  lemma OverrideMunCovers(simple: Frame, j: nat)
    requires WellFormed(simple) && OverrideMun(simple).Ok? && j < |simple.rows|
    ensures exists t :: (0 <= t < |OverrideMun(simple).value.rows| &&
      Get(OverrideMun(simple).value, t, KeyBenefMun) == Get(simple, j, KeyBenefMun))
  {
    var u := OverrideMun(simple).value;
    var key := KeyOn(simple.columns, [KeyBenefMun]);
    assert key(simple.rows[j]) in KeysOf(simple.rows, key);
    var t :| 0 <= t < |u.rows| && key(u.rows[t]) == key(simple.rows[j]);
    assert key(u.rows[t]) == [Get(u, t, KeyBenefMun)];
    assert key(simple.rows[j]) == [Get(simple, j, KeyBenefMun)];
  }

  /** A key no curated row holds is not among the kept rows either. */
  lemma OverrideMunKeyAbsent(simple: Frame, v: Cell)
    requires WellFormed(simple) && OverrideMun(simple).Ok?
    requires forall j :: 0 <= j < |simple.rows| ==> Get(simple, j, KeyBenefMun) != v
    ensures forall t :: 0 <= t < |OverrideMun(simple).value.rows| ==> Get(OverrideMun(simple).value, t, KeyBenefMun) != v
  {
    var s := OverrideMun(simple).value;
    SubsequenceMembers(s.rows, simple.rows);
    forall t | 0 <= t < |s.rows| ensures Get(s, t, KeyBenefMun) != v {
      var k :| 0 <= k < |simple.rows| && simple.rows[k] == s.rows[t];
      assert Get(s, t, KeyBenefMun) == Get(simple, k, KeyBenefMun);
    }
  }

  /** Line 217 removes nothing: rows with distinct keys are distinct rows. */
  lemma CuratedDedupRemovesNothing(simple: Frame)
    requires WellFormed(simple) && OverrideMun(simple).Ok?
    ensures DropDuplicates(OverrideMun(simple).value) == OverrideMun(simple).value
  {
    var s := OverrideMun(simple).value;
    forall a, b | 0 <= a < b < |s.rows| ensures s.rows[a] != s.rows[b] {
      assert Column(s, KeyBenefMun)[a] != Column(s, KeyBenefMun)[b];
    }
    assert UniqueKeys(s.rows, WholeRow);
    KeepFirstOfUnique(s.rows, WholeRow);
  }

  /** Lines 208-215: the beneficiaries' cleaned state and municipality and
      their key, then every row with a missing cell dropped. */
  function KeyedBeneficiaries(tr: string -> string, benef: Frame): (r: Result<Frame>)
    requires WellFormed(benef)
    ensures r.Ok? <==> (Entidad in benef.columns && Municipio in benef.columns &&
                        NoNumbers(benef, Entidad) && NoNumbers(benef, Municipio))
    ensures r.Err? ==> r.error.KeyError? || r.error == AttributeError
    ensures r.Ok? ==> WellFormed(r.value) && r.value.columns == WithLabel(WithLabel(WithLabel(benef.columns, EstadoClean), MunicipioClean), ListadoKey)
    ensures r.Ok? ==> forall t :: 0 <= t < |r.value.rows| ==> Complete(r.value.rows[t])
  {
    LabelsApart();
    var k :- NameKeyed(tr, benef);
    Ok(DropNa(k))
  }

  /** The labels `AssignCleanKey` needs apart for lines 208-213. */
  lemma ListadoKeyLabels()
    ensures EstadoClean != MunicipioClean && EstadoClean != Municipio && ListadoKey != EstadoClean && ListadoKey != MunicipioClean
    ensures ListadoKey != KeyBenefMun
  {
  }

  /** The beneficiaries with their cleaned names and key, before `dropna`. */
  function NameKeyed(tr: string -> string, benef: Frame): (r: Result<Frame>)
    requires WellFormed(benef)
  {
    ListadoKeyLabels();
    AssignCleanKey(tr, benef, Entidad, Municipio, EstadoClean, MunicipioClean, ListadoKey)
  }

  /** Row `i` before `dropna`: its key, and every other cell as it was. */
  lemma NameKeyedRow(tr: string -> string, benef: Frame, i: nat)
    requires WellFormed(benef) && NameKeyed(tr, benef).Ok? && i < |benef.rows|
    ensures !Get(benef, i, Entidad).Num? && !Get(benef, i, Municipio).Num?
    ensures Get(NameKeyed(tr, benef).value, i, ListadoKey) == NameKey(tr, Get(benef, i, Entidad), Get(benef, i, Municipio))
    ensures AgreeOutside(NameKeyed(tr, benef).value, i, benef, i, [EstadoClean, MunicipioClean, ListadoKey])
  {
    ListadoKeyLabels();
    var k := NameKeyed(tr, benef).value;
    assert k == AssignCleanKey(tr, benef, Entidad, Municipio, EstadoClean, MunicipioClean, ListadoKey).value;
    forall c | c !in [EstadoClean, MunicipioClean, ListadoKey] ensures Get(k, i, c) == Get(benef, i, c) {
      assert c != EstadoClean && c != MunicipioClean && c != ListadoKey;
    }
  }

  /** Two tables under one header agree wherever they hold the same row. */
  lemma AgreeThroughSameRow(b: Frame, t: nat, k: Frame, i: nat, f: Frame, j: nat, cs: seq<string>)
    requires t < |b.rows| && i < |k.rows| && j < |f.rows| && b.columns == k.columns && b.rows[t] == k.rows[i]
    requires AgreeOutside(k, i, f, j, cs)
    ensures AgreeOutside(b, t, f, j, cs)
  {
    assert forall c :: Get(b, t, c) == Get(k, i, c);
  }

  /** Each keyed row is a beneficiary row without missing cells, carrying the
      key of its cleaned state and municipality; each beneficiary row with no
      missing cell is kept. */
  lemma KeyedBeneficiariesFrom(tr: string -> string, benef: Frame, t: nat)
    requires WellFormed(benef) && KeyedBeneficiaries(tr, benef).Ok? && t < |KeyedBeneficiaries(tr, benef).value.rows|
    ensures exists i :: (0 <= i < |benef.rows| &&
      var b := KeyedBeneficiaries(tr, benef).value;
      && !Get(benef, i, Entidad).Num? && !Get(benef, i, Municipio).Num?
      && Get(b, t, ListadoKey) == NameKey(tr, Get(benef, i, Entidad), Get(benef, i, Municipio))
      && AgreeOutside(b, t, benef, i, [EstadoClean, MunicipioClean, ListadoKey]))
  {
    var k := NameKeyed(tr, benef).value;
    var b := KeyedBeneficiaries(tr, benef).value;
    assert b == DropNa(k);
    SubsequenceMembers(b.rows, k.rows);
    var i :| 0 <= i < |k.rows| && k.rows[i] == b.rows[t];
    NameKeyedRow(tr, benef, i);
    AgreeThroughSameRow(b, t, k, i, benef, i, [EstadoClean, MunicipioClean, ListadoKey]);
    assert Get(b, t, ListadoKey) == Get(k, i, ListadoKey);
  }

  /** A row is complete exactly when no label reads a missing cell. */
  lemma CompleteByLabels(f: Frame, i: nat)
    requires WellFormed(f) && i < |f.rows|
    ensures Complete(f.rows[i]) <==> forall c :: c in f.columns ==> Get(f, i, c) != NaN
  {
    if forall c :: c in f.columns ==> Get(f, i, c) != NaN {
      forall x | 0 <= x < |f.columns| ensures f.rows[i][x] != NaN {
        IndexOfDistinct(f.columns, x);
        assert Get(f, i, f.columns[x]) == f.rows[i][x];
      }
    }
    if Complete(f.rows[i]) {
      forall c | c in f.columns ensures Get(f, i, c) != NaN {
        var x := IndexOf(f.columns, c).value;
        assert Get(f, i, c) == f.rows[i][x];
      }
    }
  }

  /** The cleaned names and the key of a beneficiary row without missing
      cells are not missing either. */
  lemma KeyedRowComplete(tr: string -> string, benef: Frame, i: nat)
    requires WellFormed(benef) && i < |benef.rows| && Complete(benef.rows[i])
    requires NameKeyed(tr, benef).Ok?
    ensures Complete(NameKeyed(tr, benef).value.rows[i])
  {
    ListadoKeyLabels();
    var k := NameKeyed(tr, benef).value;
    CompleteByLabels(benef, i);
    CompleteByLabels(k, i);
    assert Get(benef, i, Entidad) != NaN && Get(benef, i, Municipio) != NaN;
  }

  lemma KeyedBeneficiariesCovers(tr: string -> string, benef: Frame, i: nat)
    requires WellFormed(benef) && KeyedBeneficiaries(tr, benef).Ok? && i < |benef.rows|
    requires Complete(benef.rows[i])
    ensures exists t :: (0 <= t < |KeyedBeneficiaries(tr, benef).value.rows| &&
      AgreeOutside(KeyedBeneficiaries(tr, benef).value, t, benef, i, [EstadoClean, MunicipioClean, ListadoKey]))
  {
    var k := NameKeyed(tr, benef).value;
    var b := KeyedBeneficiaries(tr, benef).value;
    assert b == DropNa(k);
    KeyedRowComplete(tr, benef, i);
    var t :| 0 <= t < |b.rows| && b.rows[t] == k.rows[i];
    NameKeyedRow(tr, benef, i);
    AgreeThroughSameRow(b, t, k, i, benef, i, [EstadoClean, MunicipioClean, ListadoKey]);
  }

  /** Lines 206-220: the keyed beneficiaries left-joined to the curated
      dictionary on their state-municipality key. */
  function ParteI(tr: string -> string, benef: Frame, simple: Frame): (r: Result<Frame>)
    requires WellFormed(benef) && WellFormed(simple)
    ensures r.Ok? ==> WellFormed(r.value)
  {
    var s :- OverrideMun(simple);
    var b :- KeyedBeneficiaries(tr, benef);
    MergeFrames(b, DropDuplicates(s), ListadoKey, KeyBenefMun, Left, "_benef", "_inegi")
  }

  /** The join at lines 219-220 neither loses nor repeats a beneficiary: row
      `i` is keyed beneficiary `i`, with its own cells. */
  lemma ParteILeft(tr: string -> string, benef: Frame, simple: Frame, i: nat)
    requires WellFormed(benef) && WellFormed(simple) && ParteI(tr, benef, simple).Ok?
    requires i < |KeyedBeneficiaries(tr, benef).value.rows|
    ensures |ParteI(tr, benef, simple).value.rows| == |KeyedBeneficiaries(tr, benef).value.rows|
    ensures var b := KeyedBeneficiaries(tr, benef).value;
      forall c :: c in b.columns && c !in simple.columns ==> Get(ParteI(tr, benef, simple).value, i, c) == Get(b, i, c)
  {
    var s := OverrideMun(simple).value;
    var b := KeyedBeneficiaries(tr, benef).value;
    CuratedDedupRemovesNothing(simple);
    assert ParteI(tr, benef, simple) == MergeFrames(b, s, ListadoKey, KeyBenefMun, Left, "_benef", "_inegi");
    MergeUniqueLeftCells(b, s, ListadoKey, KeyBenefMun, "_benef", "_inegi", i);
  }

  /** A beneficiary whose key the curated dictionary lists gets the cells of
      the curated row kept for that key. */
  lemma ParteIMatched(tr: string -> string, benef: Frame, simple: Frame, i: nat, j: nat)
    requires WellFormed(benef) && WellFormed(simple) && ParteI(tr, benef, simple).Ok?
    requires i < |KeyedBeneficiaries(tr, benef).value.rows| && j < |OverrideMun(simple).value.rows|
    requires Get(OverrideMun(simple).value, j, KeyBenefMun) == Get(KeyedBeneficiaries(tr, benef).value, i, ListadoKey)
    ensures i < |ParteI(tr, benef, simple).value.rows|
    ensures var b := KeyedBeneficiaries(tr, benef).value;
      forall c :: c in simple.columns && c !in b.columns ==>
        Get(ParteI(tr, benef, simple).value, i, c) == Get(OverrideMun(simple).value, j, c)
  {
    ListadoKeyLabels();
    var s := OverrideMun(simple).value;
    var b := KeyedBeneficiaries(tr, benef).value;
    CuratedDedupRemovesNothing(simple);
    assert ParteI(tr, benef, simple) == MergeFrames(b, s, ListadoKey, KeyBenefMun, Left, "_benef", "_inegi");
    MergeUniqueMatched(b, s, ListadoKey, KeyBenefMun, "_benef", "_inegi", i, j);
  }

  /** A beneficiary whose key the curated dictionary does not list gets NaN
      under every curated label. */
  lemma ParteIUnmatched(tr: string -> string, benef: Frame, simple: Frame, i: nat)
    requires WellFormed(benef) && WellFormed(simple) && ParteI(tr, benef, simple).Ok?
    requires i < |KeyedBeneficiaries(tr, benef).value.rows|
    requires forall j :: 0 <= j < |simple.rows| ==> Get(simple, j, KeyBenefMun) != Get(KeyedBeneficiaries(tr, benef).value, i, ListadoKey)
    ensures i < |ParteI(tr, benef, simple).value.rows|
    ensures var b := KeyedBeneficiaries(tr, benef).value;
      forall c :: c in simple.columns && c !in b.columns ==> Get(ParteI(tr, benef, simple).value, i, c) == NaN
  {
    ListadoKeyLabels();
    var s := OverrideMun(simple).value;
    var b := KeyedBeneficiaries(tr, benef).value;
    CuratedDedupRemovesNothing(simple);
    assert ParteI(tr, benef, simple) == MergeFrames(b, s, ListadoKey, KeyBenefMun, Left, "_benef", "_inegi");
    OverrideMunKeyAbsent(simple, Get(b, i, ListadoKey));
    MergeUniqueUnmatched(b, s, ListadoKey, KeyBenefMun, "_benef", "_inegi", i);
  }

  /** Lines 221-231: the first part joined to the municipality table on the
      INEGI municipality key, then the working and programme columns
      dropped. */
  function Listado(tr: string -> string, benef: Frame, simple: Frame, um: Frame): (r: Result<Frame>)
    requires WellFormed(benef) && WellFormed(simple) && WellFormed(um)
    ensures r.Ok? ==> WellFormed(r.value) && forall c :: c in ListadoDropped ==> c !in r.value.columns
  {
    var p1 :- ParteI(tr, benef, simple);
    var p2 :- MergeFrames(p1, um, U.MunicipioKey, U.MunicipioKey, Left, "_benef", "_inegi");
    Drop(p2, ListadoDropped)
  }

  /** The completed list has one row per keyed beneficiary, in order, and
      keeps each beneficiary's own cells under the labels neither dictionary
      uses and the drop at lines 228-231 keeps. */
  lemma ListadoKeepsBeneficiary(tr: string -> string, benef: Frame, simple: Frame, cat: Frame, i: nat)
    requires WellFormed(benef) && WellFormed(simple) && WellFormed(cat) && UniqueMun(cat).Ok?
    requires Listado(tr, benef, simple, UniqueMun(cat).value).Ok?
    requires i < |KeyedBeneficiaries(tr, benef).value.rows|
    ensures var b, out := KeyedBeneficiaries(tr, benef).value, Listado(tr, benef, simple, UniqueMun(cat).value).value;
      && |out.rows| == |b.rows|
      && forall c :: c in b.columns && c !in simple.columns && c !in cat.columns && c !in ListadoDropped ==>
           Get(out, i, c) == Get(b, i, c)
  {
    var um := UniqueMun(cat).value;
    var b := KeyedBeneficiaries(tr, benef).value;
    var p1 := ParteI(tr, benef, simple).value;
    var p2 := MergeFrames(p1, um, U.MunicipioKey, U.MunicipioKey, Left, "_benef", "_inegi").value;
    assert Listado(tr, benef, simple, um) == Drop(p2, ListadoDropped);
    ParteILeft(tr, benef, simple, i);
    UniqueMunKeys(cat);
    MergeUniqueLeftCells(p1, um, U.MunicipioKey, U.MunicipioKey, "_benef", "_inegi", i);
    forall c | c in b.columns && c !in simple.columns && c !in cat.columns && c !in ListadoDropped
      ensures Get(Drop(p2, ListadoDropped).value, i, c) == Get(b, i, c)
    {
      CuratedDedupRemovesNothing(simple);
      MergedKeepsLeft(b.columns, OverrideMun(simple).value.columns, ListadoKey, KeyBenefMun, "_benef", "_inegi", c);
      assert c in p1.columns && c !in um.columns;
      U.DropGet(p2, ListadoDropped, i, c);
    }
  }

  /** Lines 221-223 on a municipality table without repeated keys: row `i`
      gets the cells of the municipality row `m` sharing its key, under the
      labels the first part does not hold. */
  lemma ParteIIMatched(p1: Frame, um: Frame, i: nat, m: nat)
    requires WellFormed(p1) && WellFormed(um) && MergeFrames(p1, um, U.MunicipioKey, U.MunicipioKey, Left, "_benef", "_inegi").Ok?
    requires Distinct(Column(um, U.MunicipioKey)) && i < |p1.rows|
    requires m < |um.rows| && Get(um, m, U.MunicipioKey) == Get(p1, i, U.MunicipioKey)
    ensures var p2 := MergeFrames(p1, um, U.MunicipioKey, U.MunicipioKey, Left, "_benef", "_inegi").value;
      && i < |p2.rows|
      && forall c :: c in um.columns && c != U.MunicipioKey && c !in p1.columns ==> Get(p2, i, c) == Get(um, m, c)
  {
    MergeUniqueMatched(p1, um, U.MunicipioKey, U.MunicipioKey, "_benef", "_inegi", i, m);
    forall c | c in um.columns && c != U.MunicipioKey && c !in p1.columns
      ensures c in RightKept(um.columns, U.MunicipioKey, U.MunicipioKey)
    {
      var x :| 0 <= x < |um.columns| && um.columns[x] == c;
    }
  }

  /** A beneficiary whose key the curated dictionary lists, with the INEGI
      municipality key of municipality row `m`, gets that row's cells under
      the labels the first part does not already hold. */
  lemma ListadoCarriesMunicipality(tr: string -> string, benef: Frame, simple: Frame, cat: Frame, i: nat, j: nat, m: nat)
    requires WellFormed(benef) && WellFormed(simple) && WellFormed(cat) && UniqueMun(cat).Ok?
    requires Listado(tr, benef, simple, UniqueMun(cat).value).Ok?
    requires U.MunicipioKey in simple.columns && U.MunicipioKey !in KeyedBeneficiaries(tr, benef).value.columns
    requires i < |KeyedBeneficiaries(tr, benef).value.rows| && j < |OverrideMun(simple).value.rows|
    requires Get(OverrideMun(simple).value, j, KeyBenefMun) == Get(KeyedBeneficiaries(tr, benef).value, i, ListadoKey)
    requires m < |UniqueMun(cat).value.rows|
    requires Get(UniqueMun(cat).value, m, U.MunicipioKey) == Get(OverrideMun(simple).value, j, U.MunicipioKey)
    ensures var um, out := UniqueMun(cat).value, Listado(tr, benef, simple, UniqueMun(cat).value).value;
      && i < |out.rows|
      && forall c :: c in um.columns && c != U.MunicipioKey && c !in ParteI(tr, benef, simple).value.columns && c !in ListadoDropped ==>
           Get(out, i, c) == Get(um, m, c)
  {
    var um := UniqueMun(cat).value;
    var p1 := ParteI(tr, benef, simple).value;
    var p2 := MergeFrames(p1, um, U.MunicipioKey, U.MunicipioKey, Left, "_benef", "_inegi").value;
    assert Listado(tr, benef, simple, um) == Drop(p2, ListadoDropped);
    ParteILeft(tr, benef, simple, i);
    ParteIMatched(tr, benef, simple, i, j);
    assert Get(p1, i, U.MunicipioKey) == Get(um, m, U.MunicipioKey);
    UniqueMunKeys(cat);
    ParteIIMatched(p1, um, i, m);
    forall c | c in um.columns && c != U.MunicipioKey && c !in p1.columns && c !in ListadoDropped
      ensures Get(Drop(p2, ListadoDropped).value, i, c) == Get(um, m, c)
    {
      U.DropGet(p2, ListadoDropped, i, c);
    }
  }

  // ---------------------------------------------------------------------
  // The locality key of the completed list (lines 235-243)
  // ---------------------------------------------------------------------

  /** The labels `AssignCleanKey` needs apart for lines 235-243. */
  lemma LocKeyLabels()
    ensures MunicipioBenef != LocalidadBenef && MunicipioBenef != Localidad
    ensures KeyBenefLoc != MunicipioBenef && KeyBenefLoc != LocalidadBenef && KeyBenefLoc != EntidadBenef
    ensures Municipio != EntidadBenef && Localidad != EntidadBenef
  {
  }

  /** Lines 235-243: the cleaned state, municipality and locality of each
      row, and the municipality-locality key of the cleaned names. */
  function LocKeyed(tr: string -> string, f: Frame): (r: Result<Frame>)
    requires WellFormed(f)
    ensures r.Ok? <==> (Entidad in f.columns && Municipio in f.columns && Localidad in f.columns &&
                        NoNumbers(f, Entidad) && NoNumbers(f, Municipio) && NoNumbers(f, Localidad))
    ensures r.Err? ==> r.error.KeyError? || r.error == AttributeError
    ensures r.Ok? ==> WellFormed(r.value) && |r.value.rows| == |f.rows|
    ensures r.Ok? ==> r.value.columns == WithLabel(WithLabel(WithLabel(WithLabel(f.columns, EntidadBenef), MunicipioBenef), LocalidadBenef), KeyBenefLoc)
  {
    LocKeyLabels();
    var g :- AssignClean(tr, f, Entidad, EntidadBenef);
    assert NoNumbers(g, Municipio) == NoNumbers(f, Municipio) && NoNumbers(g, Localidad) == NoNumbers(f, Localidad) by {
      assert forall i :: 0 <= i < |f.rows| ==> Get(g, i, Municipio) == Get(f, i, Municipio) && Get(g, i, Localidad) == Get(f, i, Localidad);
    }
    AssignCleanKey(tr, g, Municipio, Localidad, MunicipioBenef, LocalidadBenef, KeyBenefLoc)
  }

  /** Row `i` holds its cleaned state and the key of its cleaned municipality
      and locality. */
  lemma LocKeyedRow(tr: string -> string, f: Frame, i: nat)
    requires WellFormed(f) && LocKeyed(tr, f).Ok? && i < |f.rows|
    ensures !Get(f, i, Entidad).Num? && !Get(f, i, Municipio).Num? && !Get(f, i, Localidad).Num?
    ensures CleanText(tr, Get(f, i, Entidad)).Ok? && Get(LocKeyed(tr, f).value, i, EntidadBenef) == CleanText(tr, Get(f, i, Entidad)).value
    ensures Get(LocKeyed(tr, f).value, i, KeyBenefLoc) == NameKey(tr, Get(f, i, Municipio), Get(f, i, Localidad))
  {
    LocKeyLabels();
    var g := AssignClean(tr, f, Entidad, EntidadBenef).value;
    var r := LocKeyed(tr, f).value;
    assert r == AssignCleanKey(tr, g, Municipio, Localidad, MunicipioBenef, LocalidadBenef, KeyBenefLoc).value;
    assert Get(g, i, Municipio) == Get(f, i, Municipio) && Get(g, i, Localidad) == Get(f, i, Localidad);
    assert Get(r, i, EntidadBenef) == Get(g, i, EntidadBenef);
  }

  /** Row `i` keeps every cell outside the four new labels. */
  lemma LocKeyedKeeps(tr: string -> string, f: Frame, i: nat)
    requires WellFormed(f) && LocKeyed(tr, f).Ok? && i < |f.rows|
    ensures AgreeOutside(LocKeyed(tr, f).value, i, f, i, [EntidadBenef, MunicipioBenef, LocalidadBenef, KeyBenefLoc])
  {
    LocKeyLabels();
    var g := AssignClean(tr, f, Entidad, EntidadBenef).value;
    var r := LocKeyed(tr, f).value;
    assert r == AssignCleanKey(tr, g, Municipio, Localidad, MunicipioBenef, LocalidadBenef, KeyBenefLoc).value;
    forall c | c !in [EntidadBenef, MunicipioBenef, LocalidadBenef, KeyBenefLoc] ensures Get(r, i, c) == Get(f, i, c) {
      assert Get(r, i, c) == Get(g, i, c);
    }
  }

  /** When neither cleaned name holds a hyphen, the locality key splits back
      into the cleaned municipality and locality, the two halves of the
      catalogue's `KEY_inegi_localidad` it is matched against. */
  lemma LocKeySplits(tr: string -> string, f: Frame, i: nat)
    requires WellFormed(f) && LocKeyed(tr, f).Ok? && i < |f.rows|
    requires !Get(f, i, Municipio).Num? && !Get(f, i, Localidad).Num?
    requires '-' !in AsStr(CleanText(tr, Get(f, i, Municipio)).value) && '-' !in AsStr(CleanText(tr, Get(f, i, Localidad)).value)
    ensures Get(LocKeyed(tr, f).value, i, KeyBenefLoc).Str?
    ensures Split(Get(LocKeyed(tr, f).value, i, KeyBenefLoc).s, '-') ==
      [AsStr(CleanText(tr, Get(f, i, Municipio)).value), AsStr(CleanText(tr, Get(f, i, Localidad)).value)]
  {
    LocKeyedRow(tr, f, i);
    NameKeySplits(tr, Get(f, i, Municipio), Get(f, i, Localidad));
  }

  /** The fuzzy dictionary has one row per beneficiary pair: the municipality
      table it is joined to has no repeated key. */
  lemma DictionaryMunLength(score: (string, string) -> Score, pairs: Frame, cat: Frame)
    requires WellFormed(pairs) && WellFormed(cat) && UniqueMun(cat).Ok?
    requires DictionaryMun(score, pairs, UniqueMun(cat).value).Ok?
    ensures |DictionaryMun(score, pairs, UniqueMun(cat).value).value.rows| == |pairs.rows|
  {
    var um := UniqueMun(cat).value;
    var a := Annotate(pairs, KeyBenefMun, um, U.MunicipioKey, score, BenefThreshold).value;
    var m := FuzzyMergeBenef(pairs, um, KeyBenefMun, U.MunicipioKey, score, BenefThreshold).value;
    assert m == MergeFrames(a, um, "best_match", U.MunicipioKey, Left, "_benef", "_inegi").value;
    UniqueMunKeys(cat);
    MergeLeftUnique(a, um, "best_match", U.MunicipioKey, "_benef", "_inegi");
  }

  /** The completed list has one row per keyed beneficiary: neither
      dictionary it is joined to repeats its key. */
  lemma ListadoLength(tr: string -> string, benef: Frame, simple: Frame, cat: Frame)
    requires WellFormed(benef) && WellFormed(simple) && WellFormed(cat) && UniqueMun(cat).Ok?
    requires Listado(tr, benef, simple, UniqueMun(cat).value).Ok?
    ensures |Listado(tr, benef, simple, UniqueMun(cat).value).value.rows| == |KeyedBeneficiaries(tr, benef).value.rows|
  {
    var um := UniqueMun(cat).value;
    var s := OverrideMun(simple).value;
    var b := KeyedBeneficiaries(tr, benef).value;
    var p1 := ParteI(tr, benef, simple).value;
    var p2 := MergeFrames(p1, um, U.MunicipioKey, U.MunicipioKey, Left, "_benef", "_inegi").value;
    assert Listado(tr, benef, simple, um) == Drop(p2, ListadoDropped);
    CuratedDedupRemovesNothing(simple);
    assert p1 == MergeFrames(b, s, ListadoKey, KeyBenefMun, Left, "_benef", "_inegi").value;
    MergeLeftUnique(b, s, ListadoKey, KeyBenefMun, "_benef", "_inegi");
    UniqueMunKeys(cat);
    MergeLeftUnique(p1, um, U.MunicipioKey, U.MunicipioKey, "_benef", "_inegi");
  }

  // ---------------------------------------------------------------------
  // The whole municipality stage
  // ---------------------------------------------------------------------

  /** The two tables the stage produces: the fuzzy municipality dictionary
      (saved at line 200) and the completed beneficiary list with its
      locality key. */
  datatype MunOutcome = MunOutcome(dictionary: Frame, listado: Frame)

  /** Lines 169-243 in the order they run, so that the first failing step
      decides the error. `simple` is the curated dictionary the source reads
      from disk at line 203. */
  function MunicipalityStage(tr: string -> string, score: (string, string) -> Score, inegi: Frame, benef: Frame, simple: Frame): (r: Result<MunOutcome>)
    requires WellFormed(inegi) && WellFormed(benef) && WellFormed(simple)
    ensures r.Ok? ==> Catalogue(inegi).Ok? && MunicipalityPairs(tr, benef).Ok? && UniqueMun(Catalogue(inegi).value).Ok?
    ensures r.Ok? ==> KeyedBeneficiaries(tr, benef).Ok? && Listado(tr, benef, simple, UniqueMun(Catalogue(inegi).value).value).Ok?
    ensures r.Ok? ==> WellFormed(r.value.dictionary) && WellFormed(r.value.listado)
    ensures !(CveEnt in inegi.columns && CveMun in inegi.columns && CveLoc in inegi.columns) ==> r.Err? && r.error.KeyError?
  {
    var padded :- PaddedCodes(inegi);
    var pairs :- MunicipalityPairs(tr, benef);
    var cat :- U.Keyed(padded);
    var um :- UniqueMun(cat);
    var dict :- DictionaryMun(score, pairs, um);
    var listado :- Listado(tr, benef, simple, um);
    var keyed :- LocKeyed(tr, listado);
    Ok(MunOutcome(dict, keyed))
  }

  /** A successful stage's two tables, as the stages above compute them. */
  lemma MunicipalityStageParts(tr: string -> string, score: (string, string) -> Score, inegi: Frame, benef: Frame, simple: Frame)
    requires WellFormed(inegi) && WellFormed(benef) && WellFormed(simple)
    requires MunicipalityStage(tr, score, inegi, benef, simple).Ok?
    ensures var um := UniqueMun(Catalogue(inegi).value).value;
      && DictionaryMun(score, MunicipalityPairs(tr, benef).value, um).Ok?
      && LocKeyed(tr, Listado(tr, benef, simple, um).value).Ok?
      && MunicipalityStage(tr, score, inegi, benef, simple).value ==
         MunOutcome(DictionaryMun(score, MunicipalityPairs(tr, benef).value, um).value,
                    LocKeyed(tr, Listado(tr, benef, simple, um).value).value)
  {
  }

  /** A successful stage keeps one dictionary row per beneficiary pair and
      one list row per keyed beneficiary. */
  lemma MunicipalityStageRows(tr: string -> string, score: (string, string) -> Score, inegi: Frame, benef: Frame, simple: Frame)
    requires WellFormed(inegi) && WellFormed(benef) && WellFormed(simple)
    requires MunicipalityStage(tr, score, inegi, benef, simple).Ok?
    ensures |MunicipalityStage(tr, score, inegi, benef, simple).value.dictionary.rows| == |MunicipalityPairs(tr, benef).value.rows|
    ensures |MunicipalityStage(tr, score, inegi, benef, simple).value.listado.rows| == |KeyedBeneficiaries(tr, benef).value.rows|
  {
    var cat := Catalogue(inegi).value;
    MunicipalityStageParts(tr, score, inegi, benef, simple);
    DictionaryMunLength(score, MunicipalityPairs(tr, benef).value, cat);
    ListadoLength(tr, benef, simple, cat);
  }

  /** Row `i` of the stage's list is row `i` of the completed list with the
      locality key of its cleaned municipality and locality. */
  lemma MunicipalityStageKey(tr: string -> string, score: (string, string) -> Score, inegi: Frame, benef: Frame, simple: Frame, i: nat)
    requires WellFormed(inegi) && WellFormed(benef) && WellFormed(simple)
    requires MunicipalityStage(tr, score, inegi, benef, simple).Ok?
    requires i < |Listado(tr, benef, simple, UniqueMun(Catalogue(inegi).value).value).value.rows|
    ensures var l := Listado(tr, benef, simple, UniqueMun(Catalogue(inegi).value).value).value;
      && i < |MunicipalityStage(tr, score, inegi, benef, simple).value.listado.rows|
      && !Get(l, i, Municipio).Num? && !Get(l, i, Localidad).Num?
      && Get(MunicipalityStage(tr, score, inegi, benef, simple).value.listado, i, KeyBenefLoc) ==
         NameKey(tr, Get(l, i, Municipio), Get(l, i, Localidad))
  {
    var l := Listado(tr, benef, simple, UniqueMun(Catalogue(inegi).value).value).value;
    MunicipalityStageParts(tr, score, inegi, benef, simple);
    LocKeyedRow(tr, l, i);
  }

  // ---------------------------------------------------------------------
  // The stage as `data_cleaning3` runs it, assignment by assignment
  // ---------------------------------------------------------------------

  /** `t[c] = t[c].astype(str).str.zfill(w)` into the caller's table. */
  method PadInPlace(t: Table, c: string, w: nat) returns (err: Option<Error>)
    requires t.Valid()
    modifies t
    ensures t.Valid()
    ensures Padded(old(t.Value()), c, w).Ok? ==> err.None? && t.Value() == Padded(old(t.Value()), c, w).value
    ensures Padded(old(t.Value()), c, w).Err? ==>
      err == Some(Padded(old(t.Value()), c, w).error) && t.Value() == old(t.Value())
  {
    var vals := ZFillColumn(t.Value(), c, w);
    if vals.Err? {
      return Some(vals.error);
    }
    t.Assign(c, vals.value);
    err := None;
  }

  /** `t[tc] = t[c].apply(clean_text_inegi)` into the caller's table. */
  method CleanInPlace(t: Table, tr: string -> string, c: string, tc: string) returns (err: Option<Error>)
    requires t.Valid()
    modifies t
    ensures t.Valid()
    ensures AssignClean(tr, old(t.Value()), c, tc).Ok? ==> err.None? && t.Value() == AssignClean(tr, old(t.Value()), c, tc).value
    ensures AssignClean(tr, old(t.Value()), c, tc).Err? ==>
      err == Some(AssignClean(tr, old(t.Value()), c, tc).error) && t.Value() == old(t.Value())
  {
    var vals := CleanColumn(tr, t.Value(), c);
    if vals.Err? {
      return Some(vals.error);
    }
    t.Assign(tc, vals.value);
    err := None;
  }

  /** Two cleaned names, then `t[k] = t[ta].astype(str) + '-' + t[tb].astype(str)`,
      into the caller's table. */
  method CleanKeyInPlace(t: Table, tr: string -> string, a: string, b: string, ta: string, tb: string, k: string)
    returns (err: Option<Error>)
    requires t.Valid() && ta != tb && ta != b && k != ta && k != tb
    modifies t
    ensures t.Valid()
    ensures AssignCleanKey(tr, old(t.Value()), a, b, ta, tb, k).Ok? ==>
      err.None? && t.Value() == AssignCleanKey(tr, old(t.Value()), a, b, ta, tb, k).value
    ensures AssignCleanKey(tr, old(t.Value()), a, b, ta, tb, k).Err? ==>
      err == Some(AssignCleanKey(tr, old(t.Value()), a, b, ta, tb, k).error)
  {
    ghost var f := t.Value();
    err := CleanInPlace(t, tr, a, ta);
    if err.Some? {
      return;
    }
    ghost var g1 := t.Value();
    assert NoNumbers(g1, b) == NoNumbers(f, b) by {
      assert forall i :: 0 <= i < |f.rows| ==> Get(g1, i, b) == Get(f, i, b);
    }
    err := CleanInPlace(t, tr, b, tb);
    if err.Some? {
      return;
    }
    ghost var g2 := t.Value();
    assert g2 == AssignClean(tr, g1, b, tb).value;
    var keys := KeyColumn(t.Value(), ta, tb).value;
    t.Assign(k, keys);
    assert t.Value() == AssignKey(g2, ta, tb, k).value;
  }

  /** Lines 183-187: the two catalogue keys, into the caller's table. */
  method KeysInPlace(t: Table) returns (err: Option<Error>)
    requires t.Valid()
    modifies t
    ensures t.Valid()
    ensures U.Keyed(old(t.Value())).Ok? ==> err.None? && t.Value() == U.Keyed(old(t.Value())).value
    ensures U.Keyed(old(t.Value())).Err? ==> err == Some(U.Keyed(old(t.Value())).error)
  {
    var mun := KeyColumn(t.Value(), U.EntidadClean, U.MunicipioClean);
    if mun.Err? {
      return Some(mun.error);
    }
    t.Assign(U.MunicipioKey, mun.value);
    var loc := KeyColumn(t.Value(), U.MunicipioClean, U.LocalidadClean);
    if loc.Err? {
      return Some(loc.error);
    }
    t.Assign(U.LocalidadKey, loc.value);
    err := None;
  }

  /** Lines 169-171 on the caller's catalogue. */
  method PadCodesInPlace(t: Table) returns (err: Option<Error>)
    requires t.Valid()
    modifies t
    ensures t.Valid()
    ensures PaddedCodes(old(t.Value())).Ok? ==> err.None? && t.Value() == PaddedCodes(old(t.Value())).value
    ensures PaddedCodes(old(t.Value())).Err? ==> err == Some(PaddedCodes(old(t.Value())).error)
  {
    err := PadInPlace(t, CveEnt, 2);
    if err.Some? {
      return;
    }
    err := PadInPlace(t, CveMun, 3);
    if err.Some? {
      return;
    }
    err := PadInPlace(t, CveLoc, 4);
  }

  /** Lines 174-181: the beneficiary pairs in a table of their own. */
  method BuildPairs(tr: string -> string, benef: Frame) returns (r: Result<Frame>)
    requires WellFormed(benef)
    ensures r == MunicipalityPairs(tr, benef)
  {
    LabelsApart();
    PairColumnsLabels();
    var s := Select(benef, [Entidad, Municipio]);
    if s.Err? {
      return Err(s.error);
    }
    var t := new Table(s.value);
    t.DropDuplicateRows();
    var err := CleanKeyInPlace(t, tr, Entidad, Municipio, EntidadBenef, MunicipioBenef, KeyBenefMun);
    if err.Some? {
      return Err(err.value);
    }
    r := Ok(t.Value());
  }

  /** Lines 189-192: the municipality table, taken from the catalogue. */
  method BuildUniqueMun(cat: Frame) returns (r: Result<Frame>)
    requires WellFormed(cat)
    ensures r == UniqueMun(cat)
  {
    var t := new Table(cat);
    var err := t.DropColumns(LocalityColumns);
    if err.Some? {
      return Err(err.value);
    }
    err := t.DropDuplicateKeys([U.MunicipioKey]);
    if err.Some? {
      return Err(err.value);
    }
    r := Ok(t.Value());
  }

  /** Lines 194-196: the fuzzy dictionary; the pairs table keeps its two
      match columns, as `fuzzy_merge_benef2019_2022` writes them into it. */
  method BuildDictionaryMun(score: (string, string) -> Score, pairs: Table, um: Frame) returns (r: Result<Frame>)
    requires pairs.Valid() && WellFormed(um)
    modifies pairs
    ensures pairs.Valid()
    ensures r == DictionaryMun(score, old(pairs.Value()), um)
  {
    var m := FuzzyMergeBenefTable(pairs, um, KeyBenefMun, U.MunicipioKey, score, BenefThreshold);
    if m.Err? {
      return Err(m.error);
    }
    var t := new Table(m.value);
    var err := t.DropColumns(DictionaryMunDropped);
    if err.Some? {
      return Err(err.value);
    }
    r := Ok(t.Value());
  }

  /** Lines 206-220: the keyed beneficiaries joined to the curated
      dictionary. */
  method BuildParteI(tr: string -> string, benef: Frame, simple: Frame) returns (r: Result<Frame>)
    requires WellFormed(benef) && WellFormed(simple)
    ensures r == ParteI(tr, benef, simple)
  {
    ListadoKeyLabels();
    var cur := new Table(simple);
    var err := cur.DropDuplicateKeys([KeyBenefMun]);
    if err.Some? {
      return Err(err.value);
    }
    assert cur.Value() == OverrideMun(simple).value;
    var b := BuildKeyedBeneficiaries(tr, benef);
    if b.Err? {
      return Err(b.error);
    }
    cur.DropDuplicateRows();
    r := MergeFrames(b.value, cur.Value(), ListadoKey, KeyBenefMun, Left, "_benef", "_inegi");
  }

  /** Lines 208-215 on a copy of the beneficiary table. */
  method BuildKeyedBeneficiaries(tr: string -> string, benef: Frame) returns (r: Result<Frame>)
    requires WellFormed(benef)
    ensures r == KeyedBeneficiaries(tr, benef)
  {
    ListadoKeyLabels();
    var b := new Table(benef);
    var err := CleanKeyInPlace(b, tr, Entidad, Municipio, EstadoClean, MunicipioClean, ListadoKey);
    if err.Some? {
      return Err(err.value);
    }
    b.DropMissing();
    r := Ok(b.Value());
  }

  /** Lines 206-231: the completed beneficiary list, from the beneficiary
      table, the curated dictionary and the municipality table. */
  method BuildListado(tr: string -> string, benef: Frame, simple: Frame, um: Frame) returns (r: Result<Frame>)
    requires WellFormed(benef) && WellFormed(simple) && WellFormed(um)
    ensures r == Listado(tr, benef, simple, um)
  {
    var p1 := BuildParteI(tr, benef, simple);
    if p1.Err? {
      return Err(p1.error);
    }
    var p2 := MergeFrames(p1.value, um, U.MunicipioKey, U.MunicipioKey, Left, "_benef", "_inegi");
    if p2.Err? {
      return Err(p2.error);
    }
    var t := new Table(p2.value);
    var err := t.DropColumns(ListadoDropped);
    if err.Some? {
      return Err(err.value);
    }
    r := Ok(t.Value());
  }

  /** Lines 235-243 on the caller's completed list. */
  method LocKeyInPlace(t: Table, tr: string -> string) returns (err: Option<Error>)
    requires t.Valid()
    modifies t
    ensures t.Valid()
    ensures LocKeyed(tr, old(t.Value())).Ok? ==> err.None? && t.Value() == LocKeyed(tr, old(t.Value())).value
    ensures LocKeyed(tr, old(t.Value())).Err? ==> err == Some(LocKeyed(tr, old(t.Value())).error)
  {
    LocKeyLabels();
    err := CleanInPlace(t, tr, Entidad, EntidadBenef);
    if err.Some? {
      return;
    }
    err := CleanKeyInPlace(t, tr, Municipio, Localidad, MunicipioBenef, LocalidadBenef, KeyBenefLoc);
  }

  /** Lines 169-243 of `data_cleaning3`, one step at a time, with the curated
      dictionary `simple` in place of the file read at line 203. */
  method DataCleaning3Mun(tr: string -> string, score: (string, string) -> Score, inegi: Frame, benef: Frame, simple: Frame)
    returns (r: Result<MunOutcome>)
    requires WellFormed(inegi) && WellFormed(benef) && WellFormed(simple)
    ensures r == MunicipalityStage(tr, score, inegi, benef, simple)
  {
    var cat := new Table(inegi);
    var err := PadCodesInPlace(cat);
    if err.Some? {
      return Err(err.value);
    }
    var pairs := BuildPairs(tr, benef);
    if pairs.Err? {
      return Err(pairs.error);
    }
    err := KeysInPlace(cat);
    if err.Some? {
      return Err(err.value);
    }
    var um := BuildUniqueMun(cat.Value());
    if um.Err? {
      return Err(um.error);
    }
    var pt := new Table(pairs.value);
    var dict := BuildDictionaryMun(score, pt, um.value);
    if dict.Err? {
      return Err(dict.error);
    }
    var listado := BuildListado(tr, benef, simple, um.value);
    if listado.Err? {
      return Err(listado.error);
    }
    var lt := new Table(listado.value);
    err := LocKeyInPlace(lt, tr);
    if err.Some? {
      return Err(err.value);
    }
    r := Ok(MunOutcome(dict.value, lt.Value()));
  }
}
