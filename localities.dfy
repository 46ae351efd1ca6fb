/** The locality branches of `data_cleaning3` (lines 245-866 of
    src/data_cleaning_and_merge_e3.py), one for each of the years 2019 to
    2022. Each branch takes a benef list keyed by municipality and locality,
    splits a copy of it by state into the shared dictionary of
    `create_listados_por_entidad`, fuzzy-matches each state against that
    state's unique-locality table (writing the match columns into the
    shared entry), stacks the matches into the locality
    dictionary, and completes the list from the curated (`_simple`)
    locality dictionary and the catalogue's unique localities. The four
    copied branches are one function over a `Plan` that holds what differs
    from year to year, and the copied per-state blocks are one loop over the
    plan's lookups. */
module Localities {
  import opened Base
  import opened Seqs
  import opened Text
  import opened Frames
  import opened Merge
  import opened Derive
  import opened Fuzzy
  import opened Tables
  import opened FileNames
  import L = Listados
  import M = Municipalities
  import U = UniqueLoc
  import G = Generate
  import Ld = Loading

  const UnnamedIndex := "Unnamed: 0"
  const LocalidadClean := "LOCALIDAD_Clean"
  const MatchKey := "Municipio-loc-KEY"

  /** The label a curated dictionary's first column is read under when its
      file begins with a UTF-8 byte-order mark read as cp1252; lines 388,
      523, 647 and 805 rename it. */
  const BomKey := "\U{ef}\U{bb}\U{bf}KEY_benef_loc"

  /** The states each year's list is split into (lines 265-268, 470, 594 and
      722). */
  const Entities2019: seq<string> := ["Puebla", "M\U{e9}xico", "Guanajuato", "Quer\U{e9}taro", "Zacatecas",
    "Veracruz de Ignacio de la Llave", "Hidalgo", "Michoac\U{e1}n de Ocampo", "Oaxaca", "Colima", "Chiapas",
    "San Luis Potos\U{ed}", "Jalisco", "Nayarit", "GUERRERO"]
  const Entities2020: seq<string> := ["GUERRERO", "MORELOS", "TLAXCALA", "PUEBLA", "Guerrero", "Puebla"]
  const Entities2021: seq<string> := ["GUERRERO", "PUEBLA", "MORELOS", "TLAXCALA"]
  const Entities2022: seq<string> := ["GUERRERO", "OAXACA", "PUEBLA", "MORELOS", "CHIAPAS", "DURANGO", "TLAXCALA",
    "NAYARIT", "ZACATECAS"]

  /** One per-state block as it runs: the entry of the split list and the key
      of the unique-locality table it is matched against. */
  datatype Lookup = Lookup(entry: string, uniqueloc: string)

  /** One per-state block by position: the state's place on the year's list
      of entities, and its place on the list of states `generate_uniqueloc`
      saved tables for that year. */
  datatype Block = Block(entity: nat, state: nat)

  predicate Indexed(blocks: seq<Block>, entities: seq<string>, states: seq<string>) {
    forall k :: 0 <= k < |blocks| ==> blocks[k].entity < |entities| && blocks[k].state < |states|
  }

  /** Each block looks up the entry `create_listados_por_entidad` makes for
      its entity under the year's prefix, and the key `load_inegi_uniqueloc`
      gives the table `generate_uniqueloc` saved for its state that year. */
  function LookupsOf(prefix: int, year: string, entities: seq<string>, states: seq<string>, blocks: seq<Block>): (r: seq<Lookup>)
    requires Indexed(blocks, entities, states)
    ensures |r| == |blocks|
    ensures forall k :: 0 <= k < |blocks| ==>
      r[k] == Lookup(L.EntryName(prefix, entities[blocks[k].entity]), Stem(year, states[blocks[k].state]))
  {
    seq(|blocks|, k requires 0 <= k < |blocks| =>
      Lookup(L.EntryName(prefix, entities[blocks[k].entity]), Stem(year, states[blocks[k].state])))
  }

  /** Lines 274-366: Guerrero, last on both 2019 lists, runs and is stacked
      first, then the other states in list order. */
  function Blocks2019(): (r: seq<Block>)
    ensures |r| == 15 && r[0] == Block(14, 14)
    ensures forall k :: 1 <= k < 15 ==> r[k] == Block(k - 1, k - 1)
  {
    seq(15, k requires 0 <= k < 15 => if k == 0 then Block(14, 14) else Block(k - 1, k - 1))
  }

  /** Lines 474-500 and 598-624: Guerrero, Puebla, Morelos, Tlaxcala. */
  const Blocks2020: seq<Block> := [Block(0, 0), Block(3, 3), Block(1, 1), Block(2, 2)]
  const Blocks2021: seq<Block> := [Block(0, 0), Block(1, 3), Block(2, 1), Block(3, 2)]

  /** Lines 726-781: Guerrero, Puebla, Morelos, Tlaxcala, Durango, Oaxaca,
      Nayarit, Chiapas, Zacatecas. */
  const Blocks2022: seq<Block> := [Block(0, 0), Block(2, 2), Block(3, 3), Block(6, 6), Block(5, 5), Block(1, 1),
    Block(7, 7), Block(4, 4), Block(8, 8)]

  /** Every block finds its entry: the split leaves an entry for each state
      of the year's list, whatever the shared dictionary held before, so no
      lookup of an entry fails once the split succeeds. */
  lemma LookupFindsEntry(shared: map<string, Frame>, l: Frame, prefix: int, year: string, entities: seq<string>,
                         states: seq<string>, blocks: seq<Block>, k: nat)
    requires L.AllWellFormed(shared) && WellFormed(l) && L.Entidad in l.columns
    requires Indexed(blocks, entities, states) && k < |blocks|
    ensures LookupsOf(prefix, year, entities, states, blocks)[k].entry in L.Gathered(shared, l, prefix, entities)
  {
    L.GatheredHasEntry(shared, l, prefix, entities, blocks[k].entity);
  }

  /** Every block's table is among those `load_inegi_uniqueloc` reads from
      the year's folder, as the one `generate_uniqueloc` saved for the
      block's state, when no other CSV file there loads under the same key. */
  lemma LookupFindsUniqueloc(files: seq<string>, read: string -> Frame, prefix: int, year: string, entities: seq<string>,
                             states: seq<string>, blocks: seq<Block>, k: nat)
    requires Indexed(blocks, entities, states) && k < |blocks| && Distinct(files)
    requires '.' !in year && G.DotFree(states)
    requires FileName(year, states[blocks[k].state]) in files
    requires forall f :: f in files && Ld.IsCsv(f) && KeyOfFile(f) == Stem(year, states[blocks[k].state]) ==>
      f == FileName(year, states[blocks[k].state])
    ensures LookupsOf(prefix, year, entities, states, blocks)[k].uniqueloc in Ld.Loaded(Ld.CsvFiles(files), read)
    ensures Ld.Loaded(Ld.CsvFiles(files), read)[LookupsOf(prefix, year, entities, states, blocks)[k].uniqueloc] ==
      read(FileName(year, states[blocks[k].state]))
  {
    Ld.LoadedState(files, read, year, states[blocks[k].state]);
  }

  /** Lines 369-374 and 502-507. */
  const LocDictionaryDropped2019: seq<string> := ["BENEFICIARIO", "ZONA", "ENTIDAD", "MUNICIPIO", "LOCALIDAD", "PRODUCTO",
    "FECHA", "MONTO FEDERAL", "CICLO AGR\U{cd}COLA", "ENTIDAD_c_benef", "MUNICIPIO_c_benef", "LOCALIDAD_c_benef",
    "best_match", "CVE_ENT", "Entidad_inegi", "CVE_MUN", "Municipio_inegi", "CVE_LOC", "Localidad_inegi", "POB_TOTAL",
    "Entidad_c_inegi", "Municipio_c_inegi", "Localidad_c_inegi"]

  /** Lines 626-633 and 783-790: the municipality stage's list carries its
      INEGI columns with suffixes. */
  const LocDictionaryDropped2021: seq<string> := ["BENEFICIARIO", "ZONA", "ENTIDAD", "MUNICIPIO", "LOCALIDAD", "PRODUCTO",
    "FECHA", "MONTO FEDERAL", "CICLO AGR\U{cd}COLA", "KEY_benef_mun", "CVE_ENT_benef", "Entidad_inegi_benef",
    "CVE_MUN_benef", "Municipio_inegi_benef", "ENTIDAD_c_benef", "MUNICIPIO_c_benef", "LOCALIDAD_c_benef",
    "best_match", "CVE_ENT_inegi", "Entidad_inegi_inegi", "CVE_MUN_inegi", "Municipio_inegi_inegi", "CVE_LOC",
    "Localidad_inegi", "POB_TOTAL", "Entidad_c_inegi", "Municipio_c_inegi", "Localidad_c_inegi"]

  /** Lines 417-418. */
  const UniqueLocDropped: seq<string> := [U.EntidadClean, U.MunicipioClean, U.LocalidadClean, U.Population]

  /** Lines 427-434; lines 565-572 drop the index column first. */
  const FinalDropped2019: seq<string> := ["ENTIDAD", "MUNICIPIO", "LOCALIDAD", "ENTIDAD_c_benef", "MUNICIPIO_c_benef",
    "LOCALIDAD_c_benef", "KEY_benef_loc_benef", "MUNICIPIO_Clean", "LOCALIDAD_Clean", "Municipio-loc-KEY",
    "KEY_benef_loc_inegi", "match_score", "KEY_inegi_localidad", "KEY_inegi_municipio"]

  /** Lines 688-697 and 840-849. */
  const FinalDropped2021: seq<string> := ["ENTIDAD", "MUNICIPIO", "LOCALIDAD", "KEY_benef_mun", "CVE_ENT_benef",
    "Entidad_inegi_benef", "CVE_MUN_benef", "Municipio_inegi_benef", "MUNICIPIO_Clean", "LOCALIDAD_Clean",
    "Municipio-loc-KEY", "match_score", "KEY_inegi_localidad", "KEY_inegi_municipio", "ENTIDAD_c_benef",
    "MUNICIPIO_c_benef", "LOCALIDAD_c_benef", "KEY_benef_loc_benef", "KEY_benef_loc_inegi"]

  /** Lines 436-447. */
  const FinalNames2019: map<string, string> := map[
    "BENEFICIARIO" := "Nombre del beneficiario",
    "ZONA" := "Zona del pa\U{ed}s",
    "CVE_ENT" := "Clave de entidad",
    "Entidad_inegi" := "Entidad federativa",
    "CVE_MUN" := "Clave de municipio",
    "Municipio_inegi" := "Municipio",
    "CVE_LOC" := "Clave de localidad",
    "Localidad_inegi" := "Localidad",
    "PRODUCTO" := "Producto cultivado",
    "FECHA" := "Fecha de entrega del beneficio",
    "MONTO FEDERAL" := "Monto entregado",
    "CICLO AGR\U{cd}COLA" := "Ciclo agr\U{ed}cola"]

  /** Lines 574-585, 709-710 and 861-862: the INEGI labels carry the suffix
      the catalogue join gives them. */
  const FinalNames2020: map<string, string> := map[
    "BENEFICIARIO" := "Nombre del beneficiario",
    "ZONA" := "Zona del pa\U{ed}s",
    "CVE_ENT_inegi" := "Clave de entidad",
    "Entidad_inegi_inegi" := "Entidad federativa",
    "CVE_MUN_inegi" := "Clave de municipio",
    "Municipio_inegi_inegi" := "Municipio",
    "CVE_LOC" := "Clave de localidad",
    "Localidad_inegi" := "Localidad",
    "PRODUCTO" := "Producto cultivado",
    "FECHA" := "Fecha de entrega del beneficio",
    "MONTO FEDERAL" := "Monto entregado",
    "CICLO AGR\U{cd}COLA" := "Ciclo agr\U{ed}cola"]

  // ---------------------------------------------------------------------
  // What differs from year to year
  // ---------------------------------------------------------------------

  /** How the copy that is split by state is made: without repeated locality
      keys (2019 and 2022), without the index column (2020), or as it is
      (2021). */
  datatype SplitCopy = KeyDeduplicated | IndexDropped | AsIs

  /** One year's branch: the prefix of the entry names; whether the match
      list is the saved file (2019, 2020) or the municipality stage's list
      (2021, 2022); whether the index column is dropped from it and whether
      the locality key is computed on it; how the split copy is made; the
      states it is split into and the blocks' lookups in the order they run
      and are stacked; the labels the locality dictionary drops; whether the
      curated dictionary's labels are stripped; whether the keyed list loses
      its repeated rows before the join; and the labels the final list drops
      and renames. */
  datatype Plan = Plan(prefix: int, fromMatchFile: bool, dropIndex: bool, keyList: bool, split: SplitCopy,
                       entities: seq<string>, lookups: seq<Lookup>, dictionaryDropped: seq<string>,
                       stripSimple: bool, dedupList: bool, finalDropped: seq<string>, finalNames: map<string, string>)

  /** Lines 246-448. */
  function Plan2019(): Plan {
    Plan(19, true, true, true, KeyDeduplicated, Entities2019, LookupsOf(19, "2019", Entities2019, G.States2019, Blocks2019()),
         LocDictionaryDropped2019, false, false, FinalDropped2019, FinalNames2019)
  }

  /** Lines 452-588. */
  function Plan2020(): Plan {
    Plan(20, true, false, true, IndexDropped, Entities2020, LookupsOf(20, "2020", Entities2020, G.States2020, Blocks2020),
         LocDictionaryDropped2019, true, true, [UnnamedIndex] + FinalDropped2019, FinalNames2020)
  }

  /** Lines 590-713. */
  function Plan2021(): Plan {
    Plan(21, false, false, false, AsIs, Entities2021, LookupsOf(21, "2021", Entities2021, G.States2021, Blocks2021),
         LocDictionaryDropped2021, false, true, FinalDropped2021, FinalNames2020)
  }

  /** Lines 715-866. */
  function Plan2022(): Plan {
    Plan(22, false, false, false, KeyDeduplicated, Entities2022, LookupsOf(22, "2022", Entities2022, G.States2022, Blocks2022),
         LocDictionaryDropped2021, false, false, FinalDropped2021, FinalNames2020)
  }

  /** The branch `prefix` selects; any other prefix has none. */
  function PlanOf(prefix: int): (r: Option<Plan>)
    ensures r.Some? <==> 19 <= prefix <= 22
    ensures r.Some? ==> r.value.prefix == prefix
  {
    if prefix == 19 then Some(Plan2019())
    else if prefix == 20 then Some(Plan2020())
    else if prefix == 21 then Some(Plan2021())
    else if prefix == 22 then Some(Plan2022())
    else None
  }

  // ---------------------------------------------------------------------
  // The match list (lines 247-261, 453-469, 591, 717-719)
  // ---------------------------------------------------------------------

  lemma PreparedLabels()
    ensures M.Entidad != UnnamedIndex && M.Municipio != UnnamedIndex && M.Localidad != UnnamedIndex && M.KeyBenefLoc != UnnamedIndex
    ensures M.EntidadBenef != UnnamedIndex && M.MunicipioBenef != UnnamedIndex && M.LocalidadBenef != UnnamedIndex
  {
  }

  /** Dropping the index column leaves every other column as it was. */
  lemma DropIndexKeeps(m: Frame, c: string)
    requires WellFormed(m) && Drop(m, [UnnamedIndex]).Ok? && c != UnnamedIndex
    ensures (c in Drop(m, [UnnamedIndex]).value.columns) == (c in m.columns)
    ensures NoNumbers(Drop(m, [UnnamedIndex]).value, c) == NoNumbers(m, c)
  {
    var d := Drop(m, [UnnamedIndex]).value;
    forall i | 0 <= i < |m.rows| ensures Get(d, i, c) == Get(m, i, c) {
      if c !in m.columns {
        assert IndexOf(d.columns, c).None? && IndexOf(m.columns, c).None?;
      }
    }
  }

  /** The list keyed by municipality and locality, when the plan keys it. */
  function KeyedIf(tr: string -> string, keyList: bool, d: Frame): (r: Result<Frame>)
    requires WellFormed(d)
    ensures !keyList ==> r == Ok(d)
    ensures keyList ==> r == M.LocKeyed(tr, d)
  {
    if keyList then M.LocKeyed(tr, d) else Ok(d)
  }

  /** Lines 249-258 (2019) and 455-464 (2020): the saved index column
      dropped if the plan says so, then the cleaned state, municipality and
      locality and the locality key of the cleaned names if the plan says
      so. The municipality stage's list already has its key (lines 235-243). */
  function PreparedFor(tr: string -> string, plan: Plan, m: Frame): (r: Result<Frame>)
    requires WellFormed(m)
    ensures plan.dropIndex && UnnamedIndex !in m.columns ==> r == Err(KeyError(UnnamedIndex))
    ensures r.Ok? <==> ((plan.dropIndex ==> UnnamedIndex in m.columns) &&
                        (plan.keyList ==> M.Entidad in m.columns && M.Municipio in m.columns && M.Localidad in m.columns &&
                                          NoNumbers(m, M.Entidad) && NoNumbers(m, M.Municipio) && NoNumbers(m, M.Localidad)))
    ensures r.Err? ==> r.error.KeyError? || r.error == AttributeError
    ensures r.Ok? ==> WellFormed(r.value) && |r.value.rows| == |m.rows|
    ensures r.Ok? && plan.dropIndex ==> UnnamedIndex !in r.value.columns
    ensures r.Ok? && plan.keyList ==> M.Entidad in r.value.columns && M.KeyBenefLoc in r.value.columns
    ensures !plan.dropIndex && !plan.keyList ==> r == Ok(m)
  {
    if plan.dropIndex then
      var d :- Drop(m, [UnnamedIndex]);
      PreparedLabels();
      DropIndexKeeps(m, M.Entidad);
      DropIndexKeeps(m, M.Municipio);
      DropIndexKeeps(m, M.Localidad);
      KeyedIf(tr, plan.keyList, d)
    else
      KeyedIf(tr, plan.keyList, m)
  }

  /** The labels preparing the list may drop or overwrite. */
  const KeyLabels: seq<string> := [UnnamedIndex, M.EntidadBenef, M.MunicipioBenef, M.LocalidadBenef, M.KeyBenefLoc]

  /** The prepared list keeps every column of the list outside the index
      and the four new labels. */
  lemma PreparedForColumns(tr: string -> string, plan: Plan, m: Frame)
    requires WellFormed(m) && PreparedFor(tr, plan, m).Ok?
    ensures forall c :: c in m.columns && c !in KeyLabels ==> c in PreparedFor(tr, plan, m).value.columns
  {
    M.LocKeyLabels();
    PreparedLabels();
    var d := if plan.dropIndex then Drop(m, [UnnamedIndex]).value else m;
    assert PreparedFor(tr, plan, m) == KeyedIf(tr, plan.keyList, d);
    forall c | c in m.columns && c !in KeyLabels ensures c in PreparedFor(tr, plan, m).value.columns {
      if plan.dropIndex {
        DropIndexKeeps(m, c);
      }
    }
  }

  /** Row `i` of the prepared list keeps the cell of row `i` of the list
      outside the index and the four new labels, and, when the plan keys the
      list, holds the locality key of its own municipality and locality. */
  lemma PreparedForRow(tr: string -> string, plan: Plan, m: Frame, i: nat)
    requires WellFormed(m) && PreparedFor(tr, plan, m).Ok? && i < |m.rows|
    ensures forall c :: c in m.columns && c !in KeyLabels ==> Get(PreparedFor(tr, plan, m).value, i, c) == Get(m, i, c)
    ensures plan.keyList ==> !Get(m, i, M.Municipio).Num? && !Get(m, i, M.Localidad).Num?
    ensures plan.keyList ==>
      Get(PreparedFor(tr, plan, m).value, i, M.KeyBenefLoc) == NameKey(tr, Get(m, i, M.Municipio), Get(m, i, M.Localidad))
  {
    M.LocKeyLabels();
    PreparedLabels();
    var d := if plan.dropIndex then Drop(m, [UnnamedIndex]).value else m;
    assert PreparedFor(tr, plan, m) == KeyedIf(tr, plan.keyList, d);
    forall c | c in m.columns && c !in KeyLabels ensures Get(d, i, c) == Get(m, i, c) {
      if plan.dropIndex {
        U.DropGet(m, [UnnamedIndex], i, c);
      }
    }
    if plan.keyList {
      M.LocKeyedRow(tr, d, i);
      M.LocKeyedKeeps(tr, d, i);
      assert Get(d, i, M.Municipio) == Get(m, i, M.Municipio) && Get(d, i, M.Localidad) == Get(m, i, M.Localidad);
    }
  }

  /** Lines 262-263 and 717-719: a copy without repeated locality keys, the
      first row of each key kept. */
  function OnePerKey(p: Frame): (r: Frame)
    requires WellFormed(p) && M.KeyBenefLoc in p.columns
    ensures WellFormed(r) && r.columns == p.columns && IsSubsequence(r.rows, p.rows)
    ensures forall s, t :: 0 <= s < t < |r.rows| ==> Get(r, s, M.KeyBenefLoc) != Get(r, t, M.KeyBenefLoc)
  {
    DropDuplicatesOnOneColumn(p, M.KeyBenefLoc);
    DropDuplicatesOn(p, [M.KeyBenefLoc]).value
  }

  /** Every locality key of the list keeps a row. */
  lemma OnePerKeyCovers(p: Frame, i: nat)
    requires WellFormed(p) && M.KeyBenefLoc in p.columns && i < |p.rows|
    ensures exists t :: 0 <= t < |OnePerKey(p).rows| && Get(OnePerKey(p), t, M.KeyBenefLoc) == Get(p, i, M.KeyBenefLoc)
  {
    DropDuplicatesOnOneColumnCovers(p, M.KeyBenefLoc, i);
    assert OnePerKey(p) == DropDuplicatesOn(p, [M.KeyBenefLoc]).value;
  }

  /** Lines 262-263, 467-469, 591 and 717-719: the copy of the prepared list
      that is split by state. */
  function SplitSource(plan: Plan, p: Frame): (r: Result<Frame>)
    requires WellFormed(p)
    ensures r.Err? ==> r.error.KeyError?
    ensures r.Ok? ==> WellFormed(r.value) && |r.value.rows| <= |p.rows|
    ensures plan.split == KeyDeduplicated ==> (r.Ok? <==> M.KeyBenefLoc in p.columns) && (r.Ok? ==> r.value == OnePerKey(p))
    ensures plan.split == IndexDropped ==> (r.Ok? <==> UnnamedIndex in p.columns)
    ensures plan.split == IndexDropped && r.Ok? ==>
      |r.value.rows| == |p.rows| && forall c :: c in r.value.columns <==> c in p.columns && c != UnnamedIndex
    ensures plan.split == AsIs ==> r == Ok(p)
  {
    match plan.split
    case KeyDeduplicated =>
      if M.KeyBenefLoc in p.columns then
        SubsequenceLength(OnePerKey(p).rows, p.rows);
        Ok(OnePerKey(p))
      else Err(KeyError(M.KeyBenefLoc))
    case IndexDropped => Drop(p, [UnnamedIndex])
    case AsIs => Ok(p)
  }

  /** Lines 271, 471, 595 and 723: the split by state into the dictionary
      shared by every call. A copy without `ENTIDAD` raises KeyError at the
      first state, before the dictionary changes. */
  function EntriesFor(shared: map<string, Frame>, l: Frame, prefix: int, entities: seq<string>): (r: Result<map<string, Frame>>)
    requires L.AllWellFormed(shared) && WellFormed(l)
    ensures r.Err? <==> L.Entidad !in l.columns && |entities| > 0
    ensures r.Err? ==> r.error == KeyError(L.Entidad)
    ensures r.Ok? ==> L.AllWellFormed(r.value) && forall n :: n in shared ==> n in r.value
    ensures L.Entidad in l.columns ==> r == Ok(L.Gathered(shared, l, prefix, entities))
    ensures L.Entidad !in l.columns && |entities| == 0 ==> r == Ok(shared)
  {
    if L.Entidad !in l.columns then
      if |entities| > 0 then Err(KeyError(L.Entidad)) else Ok(shared)
    else
      L.GatheredHasEntries(shared, l, prefix, entities);
      Ok(L.Gathered(shared, l, prefix, entities))
  }

  /** The split copy made, then split. */
  function Split(plan: Plan, shared: map<string, Frame>, p: Frame): (r: Result<map<string, Frame>>)
    requires L.AllWellFormed(shared) && WellFormed(p)
    ensures SplitSource(plan, p).Err? ==> r == Err(SplitSource(plan, p).error)
    ensures SplitSource(plan, p).Ok? ==> r == EntriesFor(shared, SplitSource(plan, p).value, plan.prefix, plan.entities)
    ensures r.Ok? ==> L.AllWellFormed(r.value) && forall n :: n in shared ==> n in r.value
  {
    var l :- SplitSource(plan, p);
    EntriesFor(shared, l, plan.prefix, plan.entities)
  }

  // ---------------------------------------------------------------------
  // The per-state matches and the locality dictionary (lines 270-374 and their copies)
  // ---------------------------------------------------------------------

  /** One block: the entry and the state's table are looked up, in that
      order (a missing one raises KeyError), and the entry is fuzzy-matched
      on its locality key against the table's `KEY_inegi_localidad`. */
  function Piece(entries: map<string, Frame>, uniquelocs: map<string, Frame>, score: (string, string) -> Score, l: Lookup): (r: Result<Frame>)
    requires L.AllWellFormed(entries) && L.AllWellFormed(uniquelocs)
    ensures l.entry !in entries ==> r == Err(KeyError(l.entry))
    ensures l.entry in entries && l.uniqueloc !in uniquelocs ==> r == Err(KeyError(l.uniqueloc))
    ensures r.Ok? ==> l.entry in entries && l.uniqueloc in uniquelocs && WellFormed(r.value)
    ensures r.Ok? ==> M.KeyBenefLoc in entries[l.entry].columns && U.LocalidadKey in uniquelocs[l.uniqueloc].columns
  {
    if l.entry !in entries then Err(KeyError(l.entry))
    else if l.uniqueloc !in uniquelocs then Err(KeyError(l.uniqueloc))
    else FuzzyMergeBenef(entries[l.entry], uniquelocs[l.uniqueloc], M.KeyBenefLoc, U.LocalidadKey, score, BenefThreshold)
  }

  /** Block `l` finds its entry and its state's table, and annotating the
      entry does not raise. */
  predicate Annotates(entries: map<string, Frame>, uniquelocs: map<string, Frame>, score: (string, string) -> Score, l: Lookup)
    requires L.AllWellFormed(entries)
  {
    && l.entry in entries && l.uniqueloc in uniquelocs
    && Annotate(entries[l.entry], M.KeyBenefLoc, uniquelocs[l.uniqueloc], U.LocalidadKey, score, BenefThreshold).Ok?
  }

  /** The dictionary after one block: the entry a block looks up is the
      very table the dictionary holds, so the two columns lines 29-31 assign
      into it stay there, even when the join then raises. A block whose
      lookup or annotation raises leaves the dictionary as it was. */
  function Annotated(entries: map<string, Frame>, uniquelocs: map<string, Frame>, score: (string, string) -> Score, l: Lookup): (r: map<string, Frame>)
    requires L.AllWellFormed(entries) && L.AllWellFormed(uniquelocs)
    ensures L.AllWellFormed(r) && r.Keys == entries.Keys
    ensures forall n :: n in entries && n != l.entry ==> r[n] == entries[n]
    ensures Annotates(entries, uniquelocs, score, l) ==>
      r[l.entry] == Annotate(entries[l.entry], M.KeyBenefLoc, uniquelocs[l.uniqueloc], U.LocalidadKey, score, BenefThreshold).value
    ensures !Annotates(entries, uniquelocs, score, l) ==> r == entries
  {
    if l.entry in entries && l.uniqueloc in uniquelocs then
      match Annotate(entries[l.entry], M.KeyBenefLoc, uniquelocs[l.uniqueloc], U.LocalidadKey, score, BenefThreshold)
      case Ok(a) => entries[l.entry := a]
      case Err(_) => entries
    else entries
  }

  /** What the blocks leave behind: the shared dictionary with the entries
      they annotated, and their matches or the error of the first block
      that fails. */
  datatype BlocksRun = BlocksRun(entries: map<string, Frame>, matches: Result<seq<Frame>>)

  /** The blocks `ls` run in order, each on the dictionary the blocks before
      it left; the first that fails stops the rest. */
  function RunBlocks(entries: map<string, Frame>, uniquelocs: map<string, Frame>, score: (string, string) -> Score, ls: seq<Lookup>): (r: BlocksRun)
    requires L.AllWellFormed(entries) && L.AllWellFormed(uniquelocs)
    ensures L.AllWellFormed(r.entries) && r.entries.Keys == entries.Keys
    ensures r.matches.Ok? ==> |r.matches.value| == |ls| && forall k :: 0 <= k < |ls| ==> WellFormed(r.matches.value[k])
    decreases |ls|
  {
    if ls == [] then BlocksRun(entries, Ok([]))
    else
      var before := RunBlocks(entries, uniquelocs, score, ls[..|ls| - 1]);
      if before.matches.Err? then before
      else
        var l := ls[|ls| - 1];
        var p := Piece(before.entries, uniquelocs, score, l);
        var ms := if p.Err? then Err(p.error) else Ok(before.matches.value + [p.value]);
        BlocksRun(Annotated(before.entries, uniquelocs, score, l), ms)
  }

  /** The dictionary block `k` finds: what the blocks before it left. */
  function Before(entries: map<string, Frame>, uniquelocs: map<string, Frame>, score: (string, string) -> Score, ls: seq<Lookup>, k: nat): map<string, Frame>
    requires L.AllWellFormed(entries) && L.AllWellFormed(uniquelocs) && k <= |ls|
  {
    RunBlocks(entries, uniquelocs, score, ls[..k]).entries
  }

  /** The blocks' matches, or the error of the first block that fails. */
  function StateMatches(entries: map<string, Frame>, uniquelocs: map<string, Frame>, score: (string, string) -> Score, ls: seq<Lookup>): (r: Result<seq<Frame>>)
    requires L.AllWellFormed(entries) && L.AllWellFormed(uniquelocs)
    ensures r.Ok? ==> |r.value| == |ls| && forall k :: 0 <= k < |ls| ==> WellFormed(r.value[k])
  {
    RunBlocks(entries, uniquelocs, score, ls).matches
  }

  /** One more block is one more step of the run. */
  lemma RunBlocksSnoc(entries: map<string, Frame>, uniquelocs: map<string, Frame>, score: (string, string) -> Score, ls: seq<Lookup>, k: nat)
    requires L.AllWellFormed(entries) && L.AllWellFormed(uniquelocs) && k < |ls|
    ensures var before := RunBlocks(entries, uniquelocs, score, ls[..k]);
      var p := Piece(before.entries, uniquelocs, score, ls[k]);
      RunBlocks(entries, uniquelocs, score, ls[..k + 1]) ==
        if before.matches.Err? then before
        else BlocksRun(Annotated(before.entries, uniquelocs, score, ls[k]),
                       if p.Err? then Err(p.error) else Ok(before.matches.value + [p.value]))
  {
    assert ls[..k + 1][..k] == ls[..k];
  }

  /** Once a block fails, the later blocks do not run. */
  lemma {:induction false} RunBlocksStop(entries: map<string, Frame>, uniquelocs: map<string, Frame>, score: (string, string) -> Score,
                                         ls: seq<Lookup>, j: nat, m: nat)
    requires L.AllWellFormed(entries) && L.AllWellFormed(uniquelocs) && j <= m <= |ls|
    requires RunBlocks(entries, uniquelocs, score, ls[..j]).matches.Err?
    ensures RunBlocks(entries, uniquelocs, score, ls[..m]) == RunBlocks(entries, uniquelocs, score, ls[..j])
    decreases m
  {
    if m > j {
      RunBlocksStop(entries, uniquelocs, score, ls, j, m - 1);
      RunBlocksSnoc(entries, uniquelocs, score, ls, m - 1);
    }
  }

  /** A successful run ends with the last block's match, after the matches
      of the blocks before it. */
  lemma StateMatchesLast(entries: map<string, Frame>, uniquelocs: map<string, Frame>, score: (string, string) -> Score, ls: seq<Lookup>, n: nat)
    requires L.AllWellFormed(entries) && L.AllWellFormed(uniquelocs) && n + 1 == |ls|
    requires StateMatches(entries, uniquelocs, score, ls).Ok?
    ensures StateMatches(entries, uniquelocs, score, ls[..n]).Ok?
    ensures Piece(Before(entries, uniquelocs, score, ls, n), uniquelocs, score, ls[n]).Ok?
    ensures StateMatches(entries, uniquelocs, score, ls).value ==
      StateMatches(entries, uniquelocs, score, ls[..n]).value + [Piece(Before(entries, uniquelocs, score, ls, n), uniquelocs, score, ls[n]).value]
  {
    assert ls[..n + 1] == ls;
    RunBlocksSnoc(entries, uniquelocs, score, ls, n);
  }

  /** A successful run's first `n` matches are those of its first `n`
      blocks, which find the same dictionaries. */
  lemma StateMatchesInit(entries: map<string, Frame>, uniquelocs: map<string, Frame>, score: (string, string) -> Score, ls: seq<Lookup>, k: nat, n: nat)
    requires L.AllWellFormed(entries) && L.AllWellFormed(uniquelocs) && k < n && n + 1 == |ls|
    requires StateMatches(entries, uniquelocs, score, ls).Ok?
    ensures StateMatches(entries, uniquelocs, score, ls[..n]).Ok?
    ensures StateMatches(entries, uniquelocs, score, ls).value[k] == StateMatches(entries, uniquelocs, score, ls[..n]).value[k]
    ensures Before(entries, uniquelocs, score, ls[..n], k) == Before(entries, uniquelocs, score, ls, k) && ls[..n][k] == ls[k]
  {
    StateMatchesLast(entries, uniquelocs, score, ls, n);
    assert ls[..n][..k] == ls[..k];
  }

  /** When the blocks succeed, match `k` is block `k`'s on the dictionary
      the blocks before it left. */
  lemma {:induction false} StateMatchesPiece(entries: map<string, Frame>, uniquelocs: map<string, Frame>, score: (string, string) -> Score, ls: seq<Lookup>, k: nat)
    requires L.AllWellFormed(entries) && L.AllWellFormed(uniquelocs) && k < |ls|
    requires StateMatches(entries, uniquelocs, score, ls).Ok?
    ensures Piece(Before(entries, uniquelocs, score, ls, k), uniquelocs, score, ls[k]).Ok?
    ensures StateMatches(entries, uniquelocs, score, ls).value[k] ==
      Piece(Before(entries, uniquelocs, score, ls, k), uniquelocs, score, ls[k]).value
    decreases |ls|
  {
    var n := |ls| - 1;
    if k < n {
      StateMatchesInit(entries, uniquelocs, score, ls, k, n);
      StateMatchesPiece(entries, uniquelocs, score, ls[..n], k);
    } else {
      StateMatchesLast(entries, uniquelocs, score, ls, n);
      assert k == n;
    }
  }

  /** The first `n` blocks succeed alone as they did in the longer run. */
  lemma PiecesOkInit(entries: map<string, Frame>, uniquelocs: map<string, Frame>, score: (string, string) -> Score, ls: seq<Lookup>, n: nat)
    requires L.AllWellFormed(entries) && L.AllWellFormed(uniquelocs) && n <= |ls|
    requires forall k :: 0 <= k < n ==> Piece(Before(entries, uniquelocs, score, ls, k), uniquelocs, score, ls[k]).Ok?
    ensures forall k :: 0 <= k < n ==> Piece(Before(entries, uniquelocs, score, ls[..n], k), uniquelocs, score, ls[..n][k]).Ok?
  {
    forall k | 0 <= k < n
      ensures Piece(Before(entries, uniquelocs, score, ls[..n], k), uniquelocs, score, ls[..n][k]).Ok?
    {
      assert ls[..n][..k] == ls[..k] && ls[..n][k] == ls[k];
      assert Piece(Before(entries, uniquelocs, score, ls, k), uniquelocs, score, ls[k]).Ok?;
    }
  }

  /** Blocks that all succeed, each on the dictionary the blocks before it
      left, give their list of matches. */
  lemma {:induction false} StateMatchesOk(entries: map<string, Frame>, uniquelocs: map<string, Frame>, score: (string, string) -> Score, ls: seq<Lookup>)
    requires L.AllWellFormed(entries) && L.AllWellFormed(uniquelocs)
    requires forall k :: 0 <= k < |ls| ==> Piece(Before(entries, uniquelocs, score, ls, k), uniquelocs, score, ls[k]).Ok?
    ensures StateMatches(entries, uniquelocs, score, ls).Ok?
    decreases |ls|
  {
    if ls != [] {
      var n := |ls| - 1;
      PiecesOkInit(entries, uniquelocs, score, ls, n);
      StateMatchesOk(entries, uniquelocs, score, ls[..n]);
      assert Piece(Before(entries, uniquelocs, score, ls, n), uniquelocs, score, ls[n]).Ok?;
    }
  }

  /** A block that fails after blocks that all succeed decides the error. */
  lemma StateMatchesFirstError(entries: map<string, Frame>, uniquelocs: map<string, Frame>, score: (string, string) -> Score, ls: seq<Lookup>, k: nat)
    requires L.AllWellFormed(entries) && L.AllWellFormed(uniquelocs) && k < |ls|
    requires Piece(Before(entries, uniquelocs, score, ls, k), uniquelocs, score, ls[k]).Err?
    requires forall j :: 0 <= j < k ==> Piece(Before(entries, uniquelocs, score, ls, j), uniquelocs, score, ls[j]).Ok?
    ensures StateMatches(entries, uniquelocs, score, ls) == Err(Piece(Before(entries, uniquelocs, score, ls, k), uniquelocs, score, ls[k]).error)
  {
    PiecesOkInit(entries, uniquelocs, score, ls, k);
    StateMatchesOk(entries, uniquelocs, score, ls[..k]);
    RunBlocksSnoc(entries, uniquelocs, score, ls, k);
    TakeAll(ls);
    RunBlocksStop(entries, uniquelocs, score, ls, k + 1, |ls|);
  }

  /** `after` is `before` with some entries annotated: the same names, and
      every entry with the same rows, under at least the same labels, with
      the same cells outside `best_match` and `match_score`. */
  ghost predicate AnnotatedFrom(before: map<string, Frame>, after: map<string, Frame>) {
    && after.Keys == before.Keys
    && forall n :: n in before ==>
         && |after[n].rows| == |before[n].rows|
         && (forall c :: c in before[n].columns ==> c in after[n].columns)
         && forall i, c :: 0 <= i < |before[n].rows| && c != "best_match" && c != "match_score" ==>
              Get(after[n], i, c) == Get(before[n], i, c)
  }

  /** One block only annotates the entry it looks up. */
  lemma AnnotatedKeepsCells(entries: map<string, Frame>, uniquelocs: map<string, Frame>, score: (string, string) -> Score, l: Lookup)
    requires L.AllWellFormed(entries) && L.AllWellFormed(uniquelocs)
    ensures AnnotatedFrom(entries, Annotated(entries, uniquelocs, score, l))
  {
    if Annotates(entries, uniquelocs, score, l) {
      AnnotateSpec(entries[l.entry], M.KeyBenefLoc, uniquelocs[l.uniqueloc], U.LocalidadKey, score, BenefThreshold);
    }
  }

  lemma AnnotatedFromTrans(a: map<string, Frame>, b: map<string, Frame>, c: map<string, Frame>)
    requires AnnotatedFrom(a, b) && AnnotatedFrom(b, c)
    ensures AnnotatedFrom(a, c)
  {
    forall n | n in a
      ensures forall i, l :: 0 <= i < |a[n].rows| && l != "best_match" && l != "match_score" ==> Get(c[n], i, l) == Get(a[n], i, l)
    {
      forall i, l | 0 <= i < |a[n].rows| && l != "best_match" && l != "match_score"
        ensures Get(c[n], i, l) == Get(a[n], i, l)
      {
        assert Get(c[n], i, l) == Get(b[n], i, l);
      }
    }
  }

  /** The blocks change the shared dictionary only by annotating entries: no
      entry gains or loses a row, a label or a cell outside `best_match` and
      `match_score`. */
  lemma {:induction false} RunBlocksKeepsCells(entries: map<string, Frame>, uniquelocs: map<string, Frame>, score: (string, string) -> Score, ls: seq<Lookup>)
    requires L.AllWellFormed(entries) && L.AllWellFormed(uniquelocs)
    ensures AnnotatedFrom(entries, RunBlocks(entries, uniquelocs, score, ls).entries)
    decreases |ls|
  {
    if ls != [] {
      var n := |ls| - 1;
      var before := RunBlocks(entries, uniquelocs, score, ls[..n]);
      RunBlocksKeepsCells(entries, uniquelocs, score, ls[..n]);
      if before.matches.Ok? {
        AnnotatedKeepsCells(before.entries, uniquelocs, score, ls[n]);
        AnnotatedFromTrans(entries, before.entries, Annotated(before.entries, uniquelocs, score, ls[n]));
      }
    }
  }

  /** Blocks that do not look up an entry leave it as it was. */
  lemma {:induction false} RunBlocksKeepEntry(entries: map<string, Frame>, uniquelocs: map<string, Frame>, score: (string, string) -> Score,
                                              ls: seq<Lookup>, k: nat, j: nat, name: string)
    requires L.AllWellFormed(entries) && L.AllWellFormed(uniquelocs) && k <= j <= |ls| && name in entries
    requires forall m :: k <= m < j ==> ls[m].entry != name
    ensures Before(entries, uniquelocs, score, ls, j)[name] == Before(entries, uniquelocs, score, ls, k)[name]
    decreases j
  {
    if j > k {
      RunBlocksKeepEntry(entries, uniquelocs, score, ls, k, j - 1, name);
      RunBlocksSnoc(entries, uniquelocs, score, ls, j - 1);
    }
  }

  /** In a successful run, block `k` annotates its entry: the dictionary
      the next block finds holds the annotated table. */
  lemma RunBlocksAnnotate(entries: map<string, Frame>, uniquelocs: map<string, Frame>, score: (string, string) -> Score, ls: seq<Lookup>, k: nat)
    requires L.AllWellFormed(entries) && L.AllWellFormed(uniquelocs) && k < |ls|
    requires StateMatches(entries, uniquelocs, score, ls).Ok?
    ensures Annotates(Before(entries, uniquelocs, score, ls, k), uniquelocs, score, ls[k])
    ensures var b := Before(entries, uniquelocs, score, ls, k);
      Before(entries, uniquelocs, score, ls, k + 1)[ls[k].entry] ==
        Annotate(b[ls[k].entry], M.KeyBenefLoc, uniquelocs[ls[k].uniqueloc], U.LocalidadKey, score, BenefThreshold).value
  {
    StateMatchesPiece(entries, uniquelocs, score, ls, k);
    assert ls[..|ls|] == ls;
    if RunBlocks(entries, uniquelocs, score, ls[..k]).matches.Err? {
      RunBlocksStop(entries, uniquelocs, score, ls, k, |ls|);
      assert false;
    }
    RunBlocksSnoc(entries, uniquelocs, score, ls, k);
  }

  /** A block's annotation of its entry is what the run leaves when no
      later block looks that entry up. */
  lemma RunBlocksLastAnnotation(entries: map<string, Frame>, uniquelocs: map<string, Frame>, score: (string, string) -> Score,
                                ls: seq<Lookup>, k: nat)
    requires L.AllWellFormed(entries) && L.AllWellFormed(uniquelocs) && k < |ls|
    requires StateMatches(entries, uniquelocs, score, ls).Ok?
    requires forall j :: k < j < |ls| ==> ls[j].entry != ls[k].entry
    ensures Annotates(Before(entries, uniquelocs, score, ls, k), uniquelocs, score, ls[k])
    ensures var b := Before(entries, uniquelocs, score, ls, k);
      RunBlocks(entries, uniquelocs, score, ls).entries[ls[k].entry] ==
        Annotate(b[ls[k].entry], M.KeyBenefLoc, uniquelocs[ls[k].uniqueloc], U.LocalidadKey, score, BenefThreshold).value
  {
    TakeAll(ls);
    RunBlocksAnnotate(entries, uniquelocs, score, ls, k);
    RunBlocksKeepEntry(entries, uniquelocs, score, ls, k + 1, |ls|, ls[k].entry);
  }

  /** What lines 29-31 leave in the shared dictionary: once the blocks have
      succeeded, each row of the entry of block `k` (when no later block
      looks that entry up again) records the best match of its locality key
      among the state's `KEY_inegi_localidad` keys, and its score. */
  lemma RunBlocksRecordMatch(entries: map<string, Frame>, uniquelocs: map<string, Frame>, score: (string, string) -> Score,
                             ls: seq<Lookup>, k: nat, i: nat)
    requires L.AllWellFormed(entries) && L.AllWellFormed(uniquelocs) && k < |ls|
    requires StateMatches(entries, uniquelocs, score, ls).Ok?
    requires forall j :: k < j < |ls| ==> ls[j].entry != ls[k].entry
    ensures ls[k].entry in entries && ls[k].uniqueloc in uniquelocs
    ensures var after := RunBlocks(entries, uniquelocs, score, ls).entries[ls[k].entry];
      var cs := Column(uniquelocs[ls[k].uniqueloc], U.LocalidadKey);
      i < |entries[ls[k].entry].rows| ==>
        i < |after.rows| && AllText(cs) &&
        IsBestMatch(Get(entries[ls[k].entry], i, M.KeyBenefLoc), cs, Get(after, i, "best_match"), Get(after, i, "match_score"),
                    score, BenefThreshold)
  {
    var l := ls[k];
    var b := Before(entries, uniquelocs, score, ls, k);
    RunBlocksLastAnnotation(entries, uniquelocs, score, ls, k);
    RunBlocksKeepsCells(entries, uniquelocs, score, ls[..k]);
    var u := uniquelocs[l.uniqueloc];
    if i < |entries[l.entry].rows| {
      AnnotateRow(b[l.entry], M.KeyBenefLoc, u, U.LocalidadKey, score, BenefThreshold, i);
      assert Get(b[l.entry], i, M.KeyBenefLoc) == Get(entries[l.entry], i, M.KeyBenefLoc);
    }
  }

  /** `diccionario_LOC_<prefix>`: the block matches stacked in the order
      they ran, less the beneficiary and INEGI detail columns of lines
      368-373 (and 502-507, 626-633, 783-790). What is left
      pairs each beneficiary key with its match score and INEGI keys. */
  function LocDictionary(entries: map<string, Frame>, uniquelocs: map<string, Frame>, score: (string, string) -> Score, ls: seq<Lookup>, dropped: seq<string>): (r: Result<Frame>)
    requires L.AllWellFormed(entries) && L.AllWellFormed(uniquelocs)
    ensures StateMatches(entries, uniquelocs, score, ls).Err? ==> r == Err(StateMatches(entries, uniquelocs, score, ls).error)
    ensures r.Ok? ==> StateMatches(entries, uniquelocs, score, ls).Ok?
    ensures r.Ok? ==> WellFormed(r.value) && |r.value.rows| == TotalRows(StateMatches(entries, uniquelocs, score, ls).value)
  {
    var ps :- StateMatches(entries, uniquelocs, score, ls);
    Drop(ConcatAll(ps), dropped)
  }

  /** Dictionary row `t` holds the cells of entry row `i` on every column
      that survives the drop and is neither an INEGI column nor one the match
      adds. */
  predicate DictionaryCarries(d: Frame, t: nat, e: Frame, i: nat, inegiColumns: seq<string>)
    requires t < |d.rows| && i < |e.rows|
  {
    forall c :: c in d.columns && c in e.columns && c !in inegiColumns && c != "best_match" && c != "match_score" ==>
      Get(d, t, c) == Get(e, i, c)
  }

  /** A match row that carries an entry row still carries it once the
      matches are stacked and columns dropped. */
  lemma StackedCarries(ps: seq<Frame>, cs: seq<string>, k: nat, t0: nat, e: Frame, i: nat, inegiColumns: seq<string>)
    requires (forall j :: 0 <= j < |ps| ==> WellFormed(ps[j])) && Drop(ConcatAll(ps), cs).Ok?
    requires k < |ps| && t0 < |ps[k].rows| && i < |e.rows|
    requires CarriesRow(ps[k], t0, e, i, inegiColumns)
    ensures TotalRows(ps[..k]) + t0 < |Drop(ConcatAll(ps), cs).value.rows|
    ensures DictionaryCarries(Drop(ConcatAll(ps), cs).value, TotalRows(ps[..k]) + t0, e, i, inegiColumns)
  {
    var f := ConcatAll(ps);
    var d := Drop(f, cs).value;
    var t := TotalRows(ps[..k]) + t0;
    ConcatAllCarries(ps, k, t0, "");
    assert t < |f.rows| && |d.rows| == |f.rows|;
    forall c | c in d.columns && c in e.columns && c !in inegiColumns && c != "best_match" && c != "match_score"
      ensures Get(d, t, c) == Get(e, i, c)
    {
      ConcatAllCarries(ps, k, t0, c);
      assert Get(ps[k], t0, c) == Get(e, i, c);
      assert Get(d, t, c) == Get(f, t, c);
    }
  }

  /** Row `i` of the entry of block `k`, as the split left it, reaches a
      row of the block's match: the annotations of the blocks before it do
      not touch the cells the match carries. */
  lemma BlockCarriesRow(entries: map<string, Frame>, uniquelocs: map<string, Frame>, score: (string, string) -> Score, ls: seq<Lookup>, k: nat, i: nat)
    requires L.AllWellFormed(entries) && L.AllWellFormed(uniquelocs)
    requires StateMatches(entries, uniquelocs, score, ls).Ok?
    requires k < |ls| && ls[k].entry in entries && i < |entries[ls[k].entry].rows|
    ensures ls[k].uniqueloc in uniquelocs
    ensures var m := StateMatches(entries, uniquelocs, score, ls).value[k];
      exists t :: 0 <= t < |m.rows| && CarriesRow(m, t, entries[ls[k].entry], i, uniquelocs[ls[k].uniqueloc].columns)
  {
    var m := StateMatches(entries, uniquelocs, score, ls).value[k];
    var l := ls[k];
    StateMatchesPiece(entries, uniquelocs, score, ls, k);
    RunBlocksKeepsCells(entries, uniquelocs, score, ls[..k]);
    var e, u := entries[l.entry], uniquelocs[l.uniqueloc];
    var ek := Before(entries, uniquelocs, score, ls, k)[l.entry];
    FuzzyMergeBenefKeepsRows(ek, u, M.KeyBenefLoc, U.LocalidadKey, score, BenefThreshold, i);
    var t0 :| 0 <= t0 < |m.rows| && CarriesRow(m, t0, ek, i, u.columns);
    CarriesRowBack(m, t0, e, ek, i, u.columns);
  }

  /** A row that carries a row of an annotated table carries the row it was
      annotated from. */
  lemma CarriesRowBack(m: Frame, t: nat, e: Frame, ek: Frame, i: nat, inegiColumns: seq<string>)
    requires t < |m.rows| && i < |e.rows| && i < |ek.rows|
    requires forall c :: c in e.columns ==> c in ek.columns
    requires forall c :: c != "best_match" && c != "match_score" ==> Get(ek, i, c) == Get(e, i, c)
    requires CarriesRow(m, t, ek, i, inegiColumns)
    ensures CarriesRow(m, t, e, i, inegiColumns)
  {
    forall c | c in e.columns && c !in inegiColumns && c != "best_match" && c != "match_score"
      ensures Get(m, t, c) == Get(e, i, c)
    {
      assert c in ek.columns && Get(ek, i, c) == Get(e, i, c);
    }
  }

  /** No beneficiary is lost in the dictionary: every row of every block's
      entry, as the split left it, reaches some dictionary row. */
  lemma LocDictionaryKeepsBeneficiary(entries: map<string, Frame>, uniquelocs: map<string, Frame>, score: (string, string) -> Score, ls: seq<Lookup>, dropped: seq<string>, k: nat, i: nat)
    requires L.AllWellFormed(entries) && L.AllWellFormed(uniquelocs)
    requires LocDictionary(entries, uniquelocs, score, ls, dropped).Ok?
    requires k < |ls| && ls[k].entry in entries && i < |entries[ls[k].entry].rows|
    ensures ls[k].uniqueloc in uniquelocs
    ensures var d := LocDictionary(entries, uniquelocs, score, ls, dropped).value;
      var e := entries[ls[k].entry];
      exists t :: 0 <= t < |d.rows| && DictionaryCarries(d, t, e, i, uniquelocs[ls[k].uniqueloc].columns)
  {
    var ps := StateMatches(entries, uniquelocs, score, ls).value;
    var l := ls[k];
    BlockCarriesRow(entries, uniquelocs, score, ls, k, i);
    var t0 :| 0 <= t0 < |ps[k].rows| && CarriesRow(ps[k], t0, entries[l.entry], i, uniquelocs[l.uniqueloc].columns);
    StackedCarries(ps, dropped, k, t0, entries[l.entry], i, uniquelocs[l.uniqueloc].columns);
    assert LocDictionary(entries, uniquelocs, score, ls, dropped).value == Drop(ConcatAll(ps), dropped).value;
  }


  // ---------------------------------------------------------------------
  // The match list completed (lines 379-448 and their copies)
  // ---------------------------------------------------------------------

  lemma MatchLabels()
    ensures M.MunicipioClean != LocalidadClean && M.MunicipioClean != M.Localidad
    ensures MatchKey != M.MunicipioClean && MatchKey != LocalidadClean && MatchKey != M.KeyBenefLoc
    ensures M.Municipio !in KeyLabels && M.Localidad !in KeyLabels
  {
  }

  /** Lines 392-397, 526-534, 650-660 and 808-816: the cleaned municipality
      and locality once more, and their key `Municipio-loc-KEY`. */
  function MatchKeyed(tr: string -> string, p: Frame): (r: Result<Frame>)
    requires WellFormed(p)
    ensures r.Ok? <==> M.Municipio in p.columns && M.Localidad in p.columns && NoNumbers(p, M.Municipio) && NoNumbers(p, M.Localidad)
    ensures r.Ok? ==> WellFormed(r.value) && |r.value.rows| == |p.rows| && MatchKey in r.value.columns
  {
    MatchLabels();
    AssignCleanKey(tr, p, M.Municipio, M.Localidad, M.MunicipioClean, LocalidadClean, MatchKey)
  }

  /** Keying a list the plan has keyed once never fails. */
  lemma PreparedMatchKeyed(tr: string -> string, plan: Plan, m: Frame)
    requires WellFormed(m) && PreparedFor(tr, plan, m).Ok? && plan.keyList
    ensures MatchKeyed(tr, PreparedFor(tr, plan, m).value).Ok?
  {
    MatchLabels();
    var p := PreparedFor(tr, plan, m).value;
    PreparedForColumns(tr, plan, m);
    assert NoNumbers(p, M.Municipio) && NoNumbers(p, M.Localidad) by {
      forall j | 0 <= j < |p.rows| ensures !Get(p, j, M.Municipio).Num? && !Get(p, j, M.Localidad).Num? {
        PreparedForRow(tr, plan, m, j);
      }
    }
  }

  /** The match key is the locality key: both are the cleaned municipality
      and locality joined by a dash. So the left join on `Municipio-loc-KEY`
      meets the curated dictionary's `KEY_benef_loc` exactly where the
      list's own `KEY_benef_loc` would. */
  lemma MatchKeyAgrees(tr: string -> string, plan: Plan, m: Frame, i: nat)
    requires WellFormed(m) && PreparedFor(tr, plan, m).Ok? && plan.keyList && i < |m.rows|
    ensures MatchKeyed(tr, PreparedFor(tr, plan, m).value).Ok?
    ensures Get(MatchKeyed(tr, PreparedFor(tr, plan, m).value).value, i, MatchKey) == Get(PreparedFor(tr, plan, m).value, i, M.KeyBenefLoc)
  {
    MatchLabels();
    var p := PreparedFor(tr, plan, m).value;
    PreparedMatchKeyed(tr, plan, m);
    PreparedForRow(tr, plan, m, i);
    var k := AssignCleanKey(tr, p, M.Municipio, M.Localidad, M.MunicipioClean, LocalidadClean, MatchKey).value;
    assert Get(k, i, MatchKey) == NameKey(tr, Get(p, i, M.Municipio), Get(p, i, M.Localidad));
  }

  /** Keying leaves every other column as it was. */
  lemma MatchKeyedKeeps(tr: string -> string, p: Frame, i: nat, c: string)
    requires WellFormed(p) && MatchKeyed(tr, p).Ok? && i < |p.rows|
    requires c in p.columns && c != M.MunicipioClean && c != LocalidadClean && c != MatchKey
    ensures c in MatchKeyed(tr, p).value.columns && Get(MatchKeyed(tr, p).value, i, c) == Get(p, i, c)
  {
    MatchLabels();
  }

  /** Lines 541 and 664: the keyed list without repeated rows, when the plan
      says so. */
  function Listed(plan: Plan, keyed: Frame): (r: Frame)
    requires WellFormed(keyed)
    ensures WellFormed(r) && r.columns == keyed.columns && IsSubsequence(r.rows, keyed.rows)
    ensures !plan.dedupList ==> r == keyed
  {
    if plan.dedupList then DropDuplicates(keyed)
    else
      SubsequenceReflexive(keyed.rows);
      keyed
  }

  /** Every keyed row is a row of the list. */
  lemma ListedCovers(plan: Plan, keyed: Frame, i: nat)
    requires WellFormed(keyed) && i < |keyed.rows|
    ensures exists j :: 0 <= j < |Listed(plan, keyed).rows| && Listed(plan, keyed).rows[j] == keyed.rows[i]
  {
    if plan.dedupList {
      assert Listed(plan, keyed) == DropDuplicates(keyed);
      DropDuplicatesCovers(keyed, i);
    } else {
      assert Listed(plan, keyed).rows[i] == keyed.rows[i];
    }
  }

  /** The one-entry mapping of lines 388, 523, 647 and 805. */
  function BomNames(): map<string, string> {
    map[BomKey := M.KeyBenefLoc]
  }

  /** The curated dictionary with its marked first label renamed. Without
      the marked label nothing changes; with both labels the result would
      have `KEY_benef_loc` twice, which is reported. */
  function Unmarked(simple: Frame): (r: Result<Frame>)
    requires WellFormed(simple)
    ensures BomKey !in simple.columns ==> r == Ok(simple)
    ensures r.Err? <==> BomKey in simple.columns && M.KeyBenefLoc in simple.columns
    ensures r.Ok? ==> WellFormed(r.value) && r.value.rows == simple.rows
    ensures r.Ok? ==> (M.KeyBenefLoc in r.value.columns <==> M.KeyBenefLoc in simple.columns || BomKey in simple.columns)
    ensures r.Ok? ==> BomKey !in r.value.columns
  {
    assert BomKey !in simple.columns ==>
      seq(|simple.columns|, k requires 0 <= k < |simple.columns| => Renamed(BomNames(), simple.columns[k])) == simple.columns;
    Rename(simple, BomNames())
  }

  /** The stripped label of each label. */
  function StripNames(cols: seq<string>): map<string, string> {
    map c | c in cols :: Strip(c)
  }

  /** Line 536: `columns.str.strip()`, when the plan says so. Two labels that
      strip to one would leave the result with a repeated label, which is
      reported. */
  function Trimmed(plan: Plan, s0: Frame): (r: Result<Frame>)
    requires WellFormed(s0)
    ensures !plan.stripSimple ==> r == Ok(s0)
    ensures plan.stripSimple ==> (r.Ok? <==> Distinct(seq(|s0.columns|, k requires 0 <= k < |s0.columns| => Strip(s0.columns[k]))))
    ensures r.Ok? ==> WellFormed(r.value) && r.value.rows == s0.rows && |r.value.columns| == |s0.columns|
    ensures r.Ok? && plan.stripSimple ==> forall k :: 0 <= k < |s0.columns| ==> r.value.columns[k] == Strip(s0.columns[k])
  {
    if plan.stripSimple then
      var m := StripNames(s0.columns);
      assert forall k :: 0 <= k < |s0.columns| ==> s0.columns[k] in m;
      assert seq(|s0.columns|, k requires 0 <= k < |s0.columns| => Renamed(m, s0.columns[k])) ==
             seq(|s0.columns|, k requires 0 <= k < |s0.columns| => Strip(s0.columns[k]));
      Rename(s0, m)
    else Ok(s0)
  }

  /** The curated dictionary as the join sees it. */
  function Curated(plan: Plan, simple: Frame): (r: Result<Frame>)
    requires WellFormed(simple)
    ensures r.Ok? ==> WellFormed(r.value) && r.value.rows == simple.rows
  {
    var s0 :- Unmarked(simple);
    Trimmed(plan, s0)
  }

  /** A stripped label is one that no whitespace surrounds. */
  lemma CuratedLabels(plan: Plan, simple: Frame, c: string)
    requires WellFormed(simple) && Curated(plan, simple).Ok? && plan.stripSimple && c in Curated(plan, simple).value.columns
    ensures Stripped(c)
  {
    var s0 := Unmarked(simple).value;
    var k :| 0 <= k < |Curated(plan, simple).value.columns| && Curated(plan, simple).value.columns[k] == c;
    assert c == Strip(s0.columns[k]);
  }

  /** Lines 406-413: the keyed list left-joined on `Municipio-loc-KEY` to the
      curated dictionary without repeated rows, on its `KEY_benef_loc`,
      suffixes `_benef` and `_inegi`, and the repeated rows dropped. */
  function LocParteI(keyed: Frame, simple: Frame): (r: Result<Frame>)
    requires WellFormed(keyed) && WellFormed(simple)
    ensures MatchKey !in keyed.columns ==> r == Err(KeyError(MatchKey))
    ensures MatchKey in keyed.columns && M.KeyBenefLoc !in simple.columns ==> r == Err(KeyError(M.KeyBenefLoc))
    ensures r.Ok? <==> (MatchKey in keyed.columns && M.KeyBenefLoc in simple.columns &&
                        Distinct(MergedColumns(keyed.columns, simple.columns, MatchKey, M.KeyBenefLoc, "_benef", "_inegi")))
    ensures r.Ok? ==> WellFormed(r.value) && Distinct(r.value.rows)
    ensures r.Ok? ==> r.value.columns == MergedColumns(keyed.columns, simple.columns, MatchKey, M.KeyBenefLoc, "_benef", "_inegi")
  {
    var m :- MergeFrames(keyed, DropDuplicates(simple), MatchKey, M.KeyBenefLoc, Left, "_benef", "_inegi");
    Ok(DropDuplicates(m))
  }

  /** No beneficiary row is lost: each begins some row of the result. */
  lemma LocParteIKeepsRows(keyed: Frame, simple: Frame, i: nat)
    requires WellFormed(keyed) && WellFormed(simple) && LocParteI(keyed, simple).Ok? && i < |keyed.rows|
    ensures exists t :: (0 <= t < |LocParteI(keyed, simple).value.rows| && |keyed.rows[i]| <= |LocParteI(keyed, simple).value.rows[t]| &&
      LocParteI(keyed, simple).value.rows[t][..|keyed.rows[i]|] == keyed.rows[i])
  {
    var ds := DropDuplicates(simple);
    var m := MergeFrames(keyed, ds, MatchKey, M.KeyBenefLoc, Left, "_benef", "_inegi").value;
    MergeCovers(keyed, ds, MatchKey, M.KeyBenefLoc, Left, i);
    var ps := MergePairs(keyed, ds, MatchKey, M.KeyBenefLoc, Left);
    var t0 :| 0 <= t0 < |ps| && ps[t0].left == i;
    assert m.rows[t0] == JoinedRow(keyed, ds, MatchKey, M.KeyBenefLoc, ps[t0]);
    DropDuplicatesCovers(m, t0);
  }

  /** Each curated row that carries a beneficiary row's key is joined to it:
      a key the curated dictionary lists under several INEGI localities gives
      the beneficiary one row per locality. */
  lemma LocParteIMatched(keyed: Frame, simple: Frame, i: nat, j: nat)
    requires WellFormed(keyed) && WellFormed(simple) && LocParteI(keyed, simple).Ok?
    requires i < |keyed.rows| && j < |simple.rows| && Get(simple, j, M.KeyBenefLoc) == Get(keyed, i, MatchKey)
    ensures exists t :: (0 <= t < |LocParteI(keyed, simple).value.rows| &&
      LocParteI(keyed, simple).value.rows[t] == keyed.rows[i] + simple.rows[j])
  {
    MatchLabels();
    var ds := DropDuplicates(simple);
    var m := MergeFrames(keyed, ds, MatchKey, M.KeyBenefLoc, Left, "_benef", "_inegi").value;
    DropDuplicatesCovers(simple, j);
    var j' :| 0 <= j' < |ds.rows| && ds.rows[j'] == simple.rows[j];
    assert Get(ds, j', M.KeyBenefLoc) == Get(simple, j, M.KeyBenefLoc);
    MergeHasPair(keyed, ds, MatchKey, M.KeyBenefLoc, Left, i, j');
    var ps := MergePairs(keyed, ds, MatchKey, M.KeyBenefLoc, Left);
    var t0 :| 0 <= t0 < |ps| && ps[t0] == Pair(i, Some(j'));
    JoinedRowWhole(keyed, ds, MatchKey, M.KeyBenefLoc, i, j');
    assert m.rows[t0] == keyed.rows[i] + simple.rows[j];
    DropDuplicatesCovers(m, t0);
  }

  /** Every row of the result is a beneficiary row followed by a curated row
      with its key, or by NaN when no curated row has its key. */
  lemma LocParteIFrom(keyed: Frame, simple: Frame, t: nat)
    requires WellFormed(keyed) && WellFormed(simple) && LocParteI(keyed, simple).Ok?
    requires t < |LocParteI(keyed, simple).value.rows|
    ensures exists i :: (0 <= i < |keyed.rows| && (
      (exists j :: 0 <= j < |simple.rows| && Get(simple, j, M.KeyBenefLoc) == Get(keyed, i, MatchKey) &&
        LocParteI(keyed, simple).value.rows[t] == keyed.rows[i] + simple.rows[j]) ||
      ((forall j :: 0 <= j < |simple.rows| ==> Get(simple, j, M.KeyBenefLoc) != Get(keyed, i, MatchKey)) &&
        LocParteI(keyed, simple).value.rows[t] == keyed.rows[i] + seq(|simple.columns|, _ => NaN))))
  {
    MatchLabels();
    var ds := DropDuplicates(simple);
    var m := MergeFrames(keyed, ds, MatchKey, M.KeyBenefLoc, Left, "_benef", "_inegi").value;
    var r := LocParteI(keyed, simple).value;
    DropDuplicatesFrom(m, t);
    var t0 :| 0 <= t0 < |m.rows| && r.rows[t] == m.rows[t0];
    var p := MergePairs(keyed, ds, MatchKey, M.KeyBenefLoc, Left)[t0];
    var i := p.left;
    assert m.rows[t0] == JoinedRow(keyed, ds, MatchKey, M.KeyBenefLoc, p);
    if p.right.Some? {
      var j' := p.right.value;
      DropDuplicatesFrom(simple, j');
      var j :| 0 <= j < |simple.rows| && ds.rows[j'] == simple.rows[j];
      assert Get(simple, j, M.KeyBenefLoc) == Get(ds, j', M.KeyBenefLoc);
      JoinedRowWhole(keyed, ds, MatchKey, M.KeyBenefLoc, i, j');
      assert r.rows[t] == keyed.rows[i] + simple.rows[j];
    } else {
      forall j | 0 <= j < |simple.rows| ensures Get(simple, j, M.KeyBenefLoc) != Get(keyed, i, MatchKey) {
        DropDuplicatesCovers(simple, j);
        var j' :| 0 <= j' < |ds.rows| && ds.rows[j'] == simple.rows[j];
        assert Get(ds, j', M.KeyBenefLoc) == Get(simple, j, M.KeyBenefLoc);
      }
      var row := m.rows[t0];
      var n := |keyed.rows[i]|;
      assert row == row[..n] + row[n..];
      assert row[n..] == seq(|simple.columns|, _ => NaN);
    }
  }

  /** Lines 415-418: the catalogue less its cleaned names and population, one
      row per locality key (the first). */
  function UniqueLocs(cat: Frame): (r: Result<Frame>)
    requires WellFormed(cat)
    ensures r.Ok? <==> (forall c :: c in UniqueLocDropped ==> c in cat.columns) && U.LocalidadKey in cat.columns
    ensures r.Err? ==> r.error.KeyError?
    ensures r.Ok? ==> WellFormed(r.value) && |r.value.rows| <= |cat.rows|
    ensures r.Ok? ==> forall c :: c in r.value.columns <==> c in cat.columns && c !in UniqueLocDropped
  {
    var d :- Drop(cat, UniqueLocDropped);
    var u :- DropDuplicatesOn(d, [U.LocalidadKey]);
    SubsequenceLength(u.rows, d.rows);
    Ok(u)
  }

  /** No locality key is listed twice. */
  lemma UniqueLocsKeys(cat: Frame)
    requires WellFormed(cat) && UniqueLocs(cat).Ok?
    ensures Distinct(Column(UniqueLocs(cat).value, U.LocalidadKey))
  {
    var d := Drop(cat, UniqueLocDropped).value;
    DropDuplicatesOnOneColumn(d, U.LocalidadKey);
  }

  /** Every locality key of the catalogue keeps a row. */
  lemma UniqueLocsCovers(cat: Frame, i: nat)
    requires WellFormed(cat) && UniqueLocs(cat).Ok? && i < |cat.rows|
    ensures exists t :: (0 <= t < |UniqueLocs(cat).value.rows| &&
      Get(UniqueLocs(cat).value, t, U.LocalidadKey) == Get(cat, i, U.LocalidadKey))
  {
    var d := Drop(cat, UniqueLocDropped).value;
    var u := UniqueLocs(cat).value;
    var key := KeyOn(d.columns, [U.LocalidadKey]);
    assert key(d.rows[i]) in KeysOf(d.rows, key);
    var t :| 0 <= t < |u.rows| && key(u.rows[t]) == key(d.rows[i]);
    assert key(u.rows[t]) == [Get(u, t, U.LocalidadKey)];
    assert key(d.rows[i]) == [Get(d, i, U.LocalidadKey)];
    U.DropGet(cat, UniqueLocDropped, i, U.LocalidadKey);
  }

  /** Every kept row is a catalogue row on the labels it keeps. */
  lemma UniqueLocsFrom(cat: Frame, t: nat)
    requires WellFormed(cat) && UniqueLocs(cat).Ok? && t < |UniqueLocs(cat).value.rows|
    ensures exists i :: 0 <= i < |cat.rows| && M.AgreeOutside(UniqueLocs(cat).value, t, cat, i, UniqueLocDropped)
  {
    var d := Drop(cat, UniqueLocDropped).value;
    var u := UniqueLocs(cat).value;
    SubsequenceMembers(u.rows, d.rows);
    var i :| 0 <= i < |d.rows| && d.rows[i] == u.rows[t];
    forall c | c !in UniqueLocDropped ensures Get(u, t, c) == Get(cat, i, c) {
      assert Get(u, t, c) == Get(d, i, c);
      U.DropGet(cat, UniqueLocDropped, i, c);
    }
    assert M.AgreeOutside(u, t, cat, i, UniqueLocDropped);
  }

  /** Lines 420-423: the list left-joined to the unique localities on
      `KEY_inegi_localidad`, suffixes `_benef` and `_inegi`. */
  function LocParteII(p1: Frame, ul: Frame): (r: Result<Frame>)
    requires WellFormed(p1) && WellFormed(ul)
    ensures U.LocalidadKey !in p1.columns ==> r == Err(KeyError(U.LocalidadKey))
    ensures U.LocalidadKey in p1.columns && U.LocalidadKey !in ul.columns ==> r == Err(KeyError(U.LocalidadKey))
    ensures r.Ok? ==> WellFormed(r.value)
  {
    MergeFrames(p1, ul, U.LocalidadKey, U.LocalidadKey, Left, "_benef", "_inegi")
  }

  /** On the unique localities the join neither adds nor loses a row: row `i`
      is row `i` of the list, with the INEGI cells of the locality its key
      names, or NaN when the catalogue has no such key. */
  lemma LocParteIIRows(p1: Frame, cat: Frame, i: nat)
    requires WellFormed(p1) && WellFormed(cat) && UniqueLocs(cat).Ok?
    requires LocParteII(p1, UniqueLocs(cat).value).Ok? && i < |p1.rows|
    ensures |LocParteII(p1, UniqueLocs(cat).value).value.rows| == |p1.rows|
    ensures var ul := UniqueLocs(cat).value;
      forall c :: c in p1.columns && !Overlaps(p1.columns, ul.columns, U.LocalidadKey, U.LocalidadKey, c) ==>
        Get(LocParteII(p1, ul).value, i, c) == Get(p1, i, c)
    ensures var ul := UniqueLocs(cat).value;
      forall j, c :: (0 <= j < |ul.rows| && Get(ul, j, U.LocalidadKey) == Get(p1, i, U.LocalidadKey) &&
        c in RightKept(ul.columns, U.LocalidadKey, U.LocalidadKey) && !Overlaps(p1.columns, ul.columns, U.LocalidadKey, U.LocalidadKey, c)) ==>
        Get(LocParteII(p1, ul).value, i, c) == Get(ul, j, c)
    ensures var ul := UniqueLocs(cat).value;
      (forall j :: 0 <= j < |ul.rows| ==> Get(ul, j, U.LocalidadKey) != Get(p1, i, U.LocalidadKey)) ==>
      forall c :: c in RightKept(ul.columns, U.LocalidadKey, U.LocalidadKey) && !Overlaps(p1.columns, ul.columns, U.LocalidadKey, U.LocalidadKey, c) ==>
        Get(LocParteII(p1, ul).value, i, c) == NaN
  {
    UniqueLocsKeys(cat);
    UniqueKeyJoin(p1, UniqueLocs(cat).value, i);
  }

  /** The second join on any catalogue whose locality keys do not repeat. */
  lemma UniqueKeyJoin(p1: Frame, ul: Frame, i: nat)
    requires WellFormed(p1) && WellFormed(ul) && Distinct(Column(ul, U.LocalidadKey))
    requires LocParteII(p1, ul).Ok? && i < |p1.rows|
    ensures |LocParteII(p1, ul).value.rows| == |p1.rows|
    ensures forall c :: c in p1.columns && !Overlaps(p1.columns, ul.columns, U.LocalidadKey, U.LocalidadKey, c) ==>
      Get(LocParteII(p1, ul).value, i, c) == Get(p1, i, c)
    ensures forall j, c :: (0 <= j < |ul.rows| && Get(ul, j, U.LocalidadKey) == Get(p1, i, U.LocalidadKey) &&
      c in RightKept(ul.columns, U.LocalidadKey, U.LocalidadKey) && !Overlaps(p1.columns, ul.columns, U.LocalidadKey, U.LocalidadKey, c)) ==>
      Get(LocParteII(p1, ul).value, i, c) == Get(ul, j, c)
    ensures (forall j :: 0 <= j < |ul.rows| ==> Get(ul, j, U.LocalidadKey) != Get(p1, i, U.LocalidadKey)) ==>
      forall c :: c in RightKept(ul.columns, U.LocalidadKey, U.LocalidadKey) && !Overlaps(p1.columns, ul.columns, U.LocalidadKey, U.LocalidadKey, c) ==>
        Get(LocParteII(p1, ul).value, i, c) == NaN
  {
    assert LocParteII(p1, ul) == MergeFrames(p1, ul, U.LocalidadKey, U.LocalidadKey, Left, "_benef", "_inegi");
    MergeUniqueLeftCells(p1, ul, U.LocalidadKey, U.LocalidadKey, "_benef", "_inegi", i);
    forall j | 0 <= j < |ul.rows| && Get(ul, j, U.LocalidadKey) == Get(p1, i, U.LocalidadKey)
      ensures forall c :: c in RightKept(ul.columns, U.LocalidadKey, U.LocalidadKey) && !Overlaps(p1.columns, ul.columns, U.LocalidadKey, U.LocalidadKey, c) ==>
        Get(LocParteII(p1, ul).value, i, c) == Get(ul, j, c)
    {
      MergeUniqueMatched(p1, ul, U.LocalidadKey, U.LocalidadKey, "_benef", "_inegi", i, j);
    }
    if forall j :: 0 <= j < |ul.rows| ==> Get(ul, j, U.LocalidadKey) != Get(p1, i, U.LocalidadKey) {
      MergeUniqueUnmatched(p1, ul, U.LocalidadKey, U.LocalidadKey, "_benef", "_inegi", i);
    }
  }

  /** Lines 425-445: the working columns dropped and the rest given their
      published names. */
  function Finalized(p2: Frame, dropped: seq<string>, names: map<string, string>): (r: Result<Frame>)
    requires WellFormed(p2)
    ensures FirstMissing(p2.columns, dropped).Some? ==> r == Err(KeyError(FirstMissing(p2.columns, dropped).value))
    ensures r.Ok? ==> WellFormed(r.value) && |r.value.rows| == |p2.rows|
    ensures r.Ok? ==> forall i, c :: 0 <= i < |p2.rows| && c in p2.columns && c !in dropped ==>
      Get(r.value, i, Renamed(names, c)) == Get(p2, i, c)
  {
    var d :- Drop(p2, dropped);
    Rename(d, names)
  }

  /** Lines 415-445 on the curated join: the catalogue join, then the final
      drop and rename. Every row goes through. */
  function Completed(p1: Frame, cat: Frame, dropped: seq<string>, names: map<string, string>): (r: Result<Frame>)
    requires WellFormed(p1) && WellFormed(cat)
    ensures r.Ok? ==> WellFormed(r.value) && |r.value.rows| == |p1.rows|
  {
    var ul :- UniqueLocs(cat);
    LocParteIIRowCount(p1, cat);
    var p2 :- LocParteII(p1, ul);
    Finalized(p2, dropped, names)
  }

  /** The number of rows the catalogue join keeps. */
  lemma LocParteIIRowCount(p1: Frame, cat: Frame)
    requires WellFormed(p1) && WellFormed(cat) && UniqueLocs(cat).Ok?
    ensures LocParteII(p1, UniqueLocs(cat).value).Ok? ==> |LocParteII(p1, UniqueLocs(cat).value).value.rows| == |p1.rows|
  {
    if LocParteII(p1, UniqueLocs(cat).value).Ok? && |p1.rows| > 0 {
      LocParteIIRows(p1, cat, 0);
    }
  }

  /** A label of the curated join that the catalogue lacks and that is not
      dropped keeps every cell, under its final name. */
  lemma CompletedKeeps(p1: Frame, cat: Frame, dropped: seq<string>, names: map<string, string>, t: nat, c: string)
    requires WellFormed(p1) && WellFormed(cat) && Completed(p1, cat, dropped, names).Ok? && t < |p1.rows|
    requires c in p1.columns && c !in cat.columns && c !in dropped
    ensures Get(Completed(p1, cat, dropped, names).value, t, Renamed(names, c)) == Get(p1, t, c)
  {
    LocParteIIKeeps(p1, cat, t, c);
  }

  /** A result row that begins with a list row holds that row's cell under
      each list label the curated dictionary lacks. */
  lemma LocParteIGetLeft(keyed: Frame, simple: Frame, t: nat, i: nat, c: string)
    requires WellFormed(keyed) && WellFormed(simple) && LocParteI(keyed, simple).Ok?
    requires t < |LocParteI(keyed, simple).value.rows| && i < |keyed.rows|
    requires |keyed.rows[i]| <= |LocParteI(keyed, simple).value.rows[t]|
    requires LocParteI(keyed, simple).value.rows[t][..|keyed.rows[i]|] == keyed.rows[i]
    requires c in keyed.columns && c !in simple.columns
    ensures c in LocParteI(keyed, simple).value.columns
    ensures Get(LocParteI(keyed, simple).value, t, c) == Get(keyed, i, c)
  {
    var p1 := LocParteI(keyed, simple).value;
    var k := IndexOf(keyed.columns, c).value;
    assert p1.columns[k] == c;
    IndexOfDistinct(p1.columns, k);
    assert p1.rows[t][k] == p1.rows[t][..|keyed.rows[i]|][k];
  }

  /** A list label the catalogue lacks keeps its cell through the second
      join. */
  lemma LocParteIIKeeps(p1: Frame, cat: Frame, t: nat, c: string)
    requires WellFormed(p1) && WellFormed(cat) && UniqueLocs(cat).Ok?
    requires LocParteII(p1, UniqueLocs(cat).value).Ok? && t < |p1.rows|
    requires c in p1.columns && c !in cat.columns
    ensures t < |LocParteII(p1, UniqueLocs(cat).value).value.rows|
    ensures c in LocParteII(p1, UniqueLocs(cat).value).value.columns
    ensures Get(LocParteII(p1, UniqueLocs(cat).value).value, t, c) == Get(p1, t, c)
  {
    var ul := UniqueLocs(cat).value;
    LocParteIIRows(p1, cat, t);
    MergedKeepsLeft(p1.columns, ul.columns, U.LocalidadKey, U.LocalidadKey, "_benef", "_inegi", c);
  }

  /** Lines 388-445 on the prepared list (and their copies): the curated
      dictionary's marked label renamed, the match key, the curated labels
      stripped, the list's repeated rows dropped, the curated dictionary
      join, the catalogue join and the final drop and rename, as the plan
      says. */
  function MatchedListado(tr: string -> string, plan: Plan, p: Frame, simple: Frame, cat: Frame): (r: Result<Frame>)
    requires WellFormed(p) && WellFormed(simple) && WellFormed(cat)
    ensures r.Ok? ==> WellFormed(r.value) && Curated(plan, simple).Ok? && MatchKeyed(tr, p).Ok?
    ensures Unmarked(simple).Err? ==> r == Err(Unmarked(simple).error)
    ensures Unmarked(simple).Ok? && MatchKeyed(tr, p).Err? ==> r == Err(MatchKeyed(tr, p).error)
    ensures MatchKeyed(tr, p).Ok? && Curated(plan, simple).Ok? && M.KeyBenefLoc !in Curated(plan, simple).value.columns ==>
      r == Err(KeyError(M.KeyBenefLoc))
  {
    var s0 :- Unmarked(simple);
    var keyed :- MatchKeyed(tr, p);
    var s :- Trimmed(plan, s0);
    ListedCompleted(plan, keyed, s, cat)
  }

  /** Lines 406-445 and their copies on the keyed list and the curated
      dictionary: the list's repeated rows dropped if the plan says so, the
      two joins, the final drop and rename. */
  function ListedCompleted(plan: Plan, keyed: Frame, s: Frame, cat: Frame): (r: Result<Frame>)
    requires WellFormed(keyed) && WellFormed(s) && WellFormed(cat)
    ensures r.Ok? ==> WellFormed(r.value) && LocParteI(Listed(plan, keyed), s).Ok?
    ensures r.Ok? ==> r == Completed(LocParteI(Listed(plan, keyed), s).value, cat, plan.finalDropped, plan.finalNames)
    ensures M.KeyBenefLoc !in s.columns && MatchKey in keyed.columns ==> r == Err(KeyError(M.KeyBenefLoc))
  {
    var p1 :- LocParteI(Listed(plan, keyed), s);
    Completed(p1, cat, plan.finalDropped, plan.finalNames)
  }

  /** A successful completion through its steps. */
  lemma MatchedListadoSteps(tr: string -> string, plan: Plan, p: Frame, simple: Frame, cat: Frame)
    requires WellFormed(p) && WellFormed(simple) && WellFormed(cat) && MatchedListado(tr, plan, p, simple, cat).Ok?
    ensures var s := Curated(plan, simple).value;
      var listed := Listed(plan, MatchKeyed(tr, p).value);
      && LocParteI(listed, s).Ok?
      && MatchedListado(tr, plan, p, simple, cat) == Completed(LocParteI(listed, s).value, cat, plan.finalDropped, plan.finalNames)
  {
    assert MatchedListado(tr, plan, p, simple, cat) ==
      ListedCompleted(plan, MatchKeyed(tr, p).value, Curated(plan, simple).value, cat);
  }

  /** The labels the branch adds to the list. */
  const WorkLabels: seq<string> := [UnnamedIndex, M.EntidadBenef, M.MunicipioBenef, M.LocalidadBenef, M.KeyBenefLoc,
    M.MunicipioClean, LocalidadClean, MatchKey]

  /** A column of the match list that reaches the final list: not one the
      branch adds, not one the curated dictionary or the catalogue also has,
      and not dropped at the end. */
  predicate Traced(c: string, benef: Frame, curated: seq<string>, cat: Frame, finalDropped: seq<string>) {
    c in benef.columns && c !in WorkLabels && c !in curated && c !in cat.columns && c !in finalDropped
  }

  /** Row `t` of `out` carries every traced cell of row `i` of `benef`. */
  ghost predicate RowCarries(out: Frame, t: nat, benef: Frame, i: nat, curated: seq<string>, cat: Frame, dropped: seq<string>,
                             names: map<string, string>)
    requires t < |out.rows| && i < |benef.rows|
  {
    forall c :: Traced(c, benef, curated, cat, dropped) ==> Get(out, t, Renamed(names, c)) == Get(benef, i, c)
  }

  /** One cell of the match list through the steps that follow it. */
  lemma TraceCell(tr: string -> string, plan: Plan, benef: Frame, p: Frame, keyed: Frame, s: Frame, p1: Frame, cat: Frame,
                  i: nat, j: nat, t: nat, c: string)
    requires WellFormed(benef) && WellFormed(s) && WellFormed(cat) && i < |benef.rows|
    requires PreparedFor(tr, plan, benef) == Ok(p) && MatchKeyed(tr, p) == Ok(keyed)
    requires j < |Listed(plan, keyed).rows| && Listed(plan, keyed).rows[j] == keyed.rows[i]
    requires LocParteI(Listed(plan, keyed), s) == Ok(p1) && Completed(p1, cat, plan.finalDropped, plan.finalNames).Ok?
    requires t < |p1.rows| && |keyed.rows[i]| <= |p1.rows[t]| && p1.rows[t][..|keyed.rows[i]|] == keyed.rows[i]
    requires Traced(c, benef, s.columns, cat, plan.finalDropped)
    ensures Get(Completed(p1, cat, plan.finalDropped, plan.finalNames).value, t, Renamed(plan.finalNames, c)) == Get(benef, i, c)
  {
    MatchLabels();
    var listed := Listed(plan, keyed);
    PreparedForColumns(tr, plan, benef);
    PreparedForRow(tr, plan, benef, i);
    MatchKeyedKeeps(tr, p, i, c);
    assert Get(listed, j, c) == Get(keyed, i, c);
    LocParteIGetLeft(listed, s, t, j, c);
    CompletedKeeps(p1, cat, plan.finalDropped, plan.finalNames, t, c);
  }

  /** Each row of the match list has a row of the completed list that
      carries all its traced cells. */
  lemma MatchedListadoKeeps(tr: string -> string, plan: Plan, benef: Frame, simple: Frame, cat: Frame, i: nat)
    requires WellFormed(benef) && WellFormed(simple) && WellFormed(cat) && PreparedFor(tr, plan, benef).Ok? && i < |benef.rows|
    requires MatchedListado(tr, plan, PreparedFor(tr, plan, benef).value, simple, cat).Ok?
    ensures Curated(plan, simple).Ok?
    ensures var out := MatchedListado(tr, plan, PreparedFor(tr, plan, benef).value, simple, cat).value;
      exists t :: 0 <= t < |out.rows| && RowCarries(out, t, benef, i, Curated(plan, simple).value.columns, cat, plan.finalDropped, plan.finalNames)
  {
    var p := PreparedFor(tr, plan, benef).value;
    MatchedListadoSteps(tr, plan, p, simple, cat);
    var keyed := MatchKeyed(tr, p).value;
    var s := Curated(plan, simple).value;
    var listed := Listed(plan, keyed);
    var p1 := LocParteI(listed, s).value;
    var out := Completed(p1, cat, plan.finalDropped, plan.finalNames).value;
    ListedCovers(plan, keyed, i);
    var j :| 0 <= j < |listed.rows| && listed.rows[j] == keyed.rows[i];
    LocParteIKeepsRows(listed, s, j);
    var t :| 0 <= t < |p1.rows| && |listed.rows[j]| <= |p1.rows[t]| && p1.rows[t][..|listed.rows[j]|] == listed.rows[j];
    forall c | Traced(c, benef, s.columns, cat, plan.finalDropped)
      ensures Get(out, t, Renamed(plan.finalNames, c)) == Get(benef, i, c)
    {
      TraceCell(tr, plan, benef, p, keyed, s, p1, cat, i, j, t, c);
    }
    assert 0 <= t < |out.rows| && RowCarries(out, t, benef, i, s.columns, cat, plan.finalDropped, plan.finalNames);
  }

  // ---------------------------------------------------------------------
  // The locality branch of every year
  // ---------------------------------------------------------------------

  /** What a branch produces: the shared dictionary of split lists, the
      locality dictionary (written to `diccionario_LOC_<prefix>.csv`) and the
      completed list (written to
      `listado_beneficiarios_<year>_localidades.csv`). */
  datatype LocOutcome = LocOutcome(entries: map<string, Frame>, dictionary: Frame, listado: Frame)

  /** One year's branch of `data_cleaning3`, after the municipality stage:
      `benef` is the match list (the saved file or the municipality stage's
      list, as the plan says), `shared` the dictionary earlier calls of
      `create_listados_por_entidad` filled, `uniquelocs` the unique-locality
      tables as loaded, `simple` the curated locality dictionary as read
      and `cat` the clean catalogue. */
  function LocalityBranch(tr: string -> string, score: (string, string) -> Score, plan: Plan, shared: map<string, Frame>,
                          benef: Frame, uniquelocs: map<string, Frame>, simple: Frame, cat: Frame): (r: Result<LocOutcome>)
    requires WellFormed(benef) && WellFormed(simple) && WellFormed(cat)
    requires L.AllWellFormed(shared) && L.AllWellFormed(uniquelocs)
    ensures PreparedFor(tr, plan, benef).Err? ==> r == Err(PreparedFor(tr, plan, benef).error)
    ensures r.Ok? ==> PreparedFor(tr, plan, benef).Ok? && forall n :: n in shared ==> n in r.value.entries
    ensures r.Ok? ==> WellFormed(r.value.dictionary) && WellFormed(r.value.listado) && L.AllWellFormed(r.value.entries)
  {
    var p :- PreparedFor(tr, plan, benef);
    var entries :- Split(plan, shared, p);
    var dictionary :- LocDictionary(entries, uniquelocs, score, plan.lookups, plan.dictionaryDropped);
    var listado :- MatchedListado(tr, plan, p, simple, cat);
    Ok(LocOutcome(RunBlocks(entries, uniquelocs, score, plan.lookups).entries, dictionary, listado))
  }

  /** The shared dictionary once the branch has run: split into when the
      list is prepared and split, then with the entries the blocks annotated
      (as far as they ran), and as it was otherwise. A later failure does
      not undo the split or the annotations. */
  function SharedAfter(tr: string -> string, score: (string, string) -> Score, plan: Plan, shared: map<string, Frame>,
                       benef: Frame, uniquelocs: map<string, Frame>): (r: map<string, Frame>)
    requires WellFormed(benef) && L.AllWellFormed(shared) && L.AllWellFormed(uniquelocs)
    ensures L.AllWellFormed(r) && forall n :: n in shared ==> n in r
    ensures PreparedFor(tr, plan, benef).Err? ==> r == shared
    ensures PreparedFor(tr, plan, benef).Ok? && Split(plan, shared, PreparedFor(tr, plan, benef).value).Err? ==> r == shared
    ensures PreparedFor(tr, plan, benef).Ok? && Split(plan, shared, PreparedFor(tr, plan, benef).value).Ok? ==>
      AnnotatedFrom(Split(plan, shared, PreparedFor(tr, plan, benef).value).value, r)
  {
    match PreparedFor(tr, plan, benef)
    case Err(_) => shared
    case Ok(p) =>
      match Split(plan, shared, p)
      case Err(_) => shared
      case Ok(e) =>
        RunBlocksKeepsCells(e, uniquelocs, score, plan.lookups);
        RunBlocks(e, uniquelocs, score, plan.lookups).entries
  }

  /** After a branch whose blocks succeed, each row of a block's entry (one
      no later block looks up) records its best match among the state's
      locality keys, and its score. */
  lemma SharedAfterRecordsMatch(tr: string -> string, score: (string, string) -> Score, plan: Plan, shared: map<string, Frame>,
                                benef: Frame, uniquelocs: map<string, Frame>, k: nat, i: nat)
    requires WellFormed(benef) && L.AllWellFormed(shared) && L.AllWellFormed(uniquelocs)
    requires PreparedFor(tr, plan, benef).Ok? && Split(plan, shared, PreparedFor(tr, plan, benef).value).Ok?
    requires StateMatches(Split(plan, shared, PreparedFor(tr, plan, benef).value).value, uniquelocs, score, plan.lookups).Ok?
    requires k < |plan.lookups| && forall j :: k < j < |plan.lookups| ==> plan.lookups[j].entry != plan.lookups[k].entry
    ensures var e := Split(plan, shared, PreparedFor(tr, plan, benef).value).value;
      var l := plan.lookups[k];
      && l.entry in e && l.uniqueloc in uniquelocs
      && var after := SharedAfter(tr, score, plan, shared, benef, uniquelocs)[l.entry];
         var cs := Column(uniquelocs[l.uniqueloc], U.LocalidadKey);
         i < |e[l.entry].rows| ==>
           i < |after.rows| && AllText(cs) &&
           IsBestMatch(Get(e[l.entry], i, M.KeyBenefLoc), cs, Get(after, i, "best_match"), Get(after, i, "match_score"),
                       score, BenefThreshold)
  {
    var e := Split(plan, shared, PreparedFor(tr, plan, benef).value).value;
    RunBlocksRecordMatch(e, uniquelocs, score, plan.lookups, k, i);
  }

  /** A branch that succeeds returns the dictionary it leaves behind. */
  lemma LocalityBranchEntries(tr: string -> string, score: (string, string) -> Score, plan: Plan, shared: map<string, Frame>,
                              benef: Frame, uniquelocs: map<string, Frame>, simple: Frame, cat: Frame)
    requires WellFormed(benef) && WellFormed(simple) && WellFormed(cat)
    requires L.AllWellFormed(shared) && L.AllWellFormed(uniquelocs)
    requires LocalityBranch(tr, score, plan, shared, benef, uniquelocs, simple, cat).Ok?
    ensures LocalityBranch(tr, score, plan, shared, benef, uniquelocs, simple, cat).value.entries ==
      SharedAfter(tr, score, plan, shared, benef, uniquelocs)
  {
  }

  /** A branch that succeeds returns the list its final step completes. */
  lemma LocalityBranchListado(tr: string -> string, score: (string, string) -> Score, plan: Plan, shared: map<string, Frame>,
                              benef: Frame, uniquelocs: map<string, Frame>, simple: Frame, cat: Frame)
    requires WellFormed(benef) && WellFormed(simple) && WellFormed(cat)
    requires L.AllWellFormed(shared) && L.AllWellFormed(uniquelocs)
    requires LocalityBranch(tr, score, plan, shared, benef, uniquelocs, simple, cat).Ok?
    ensures MatchedListado(tr, plan, PreparedFor(tr, plan, benef).value, simple, cat).Ok?
    ensures LocalityBranch(tr, score, plan, shared, benef, uniquelocs, simple, cat).value.listado ==
      MatchedListado(tr, plan, PreparedFor(tr, plan, benef).value, simple, cat).value
  {
    var p := PreparedFor(tr, plan, benef).value;
    var e := Split(plan, shared, p);
    assert e.Ok?;
    var d := LocDictionary(e.value, uniquelocs, score, plan.lookups, plan.dictionaryDropped);
    assert d.Ok?;
  }

  /** The steps fail in source order: the split copy's missing column stops
      the branch before any block, a block's failed lookup or match stops it
      before the curated dictionary is used, and a curated dictionary
      without `KEY_benef_loc` stops it after. */
  lemma LocalityBranchErrors(tr: string -> string, score: (string, string) -> Score, plan: Plan, shared: map<string, Frame>,
                             benef: Frame, uniquelocs: map<string, Frame>, simple: Frame, cat: Frame)
    requires WellFormed(benef) && WellFormed(simple) && WellFormed(cat)
    requires L.AllWellFormed(shared) && L.AllWellFormed(uniquelocs) && PreparedFor(tr, plan, benef).Ok?
    ensures var p := PreparedFor(tr, plan, benef).value;
      Split(plan, shared, p).Err? ==> LocalityBranch(tr, score, plan, shared, benef, uniquelocs, simple, cat) == Err(Split(plan, shared, p).error)
    ensures var p := PreparedFor(tr, plan, benef).value;
      Split(plan, shared, p).Ok? ==>
      var d := LocDictionary(Split(plan, shared, p).value, uniquelocs, score, plan.lookups, plan.dictionaryDropped);
      d.Err? ==> LocalityBranch(tr, score, plan, shared, benef, uniquelocs, simple, cat) == Err(d.error)
  {
  }

  /** A curated dictionary without `KEY_benef_loc` fails the branch with
      KeyError once the blocks have succeeded, whenever the plan keys the
      list itself (the later years key a list the municipality stage already
      keyed, and may fail earlier on its labels). */
  lemma LocalityBranchMissingKey(tr: string -> string, score: (string, string) -> Score, plan: Plan, shared: map<string, Frame>,
                                 benef: Frame, uniquelocs: map<string, Frame>, simple: Frame, cat: Frame)
    requires WellFormed(benef) && WellFormed(simple) && WellFormed(cat)
    requires L.AllWellFormed(shared) && L.AllWellFormed(uniquelocs) && PreparedFor(tr, plan, benef).Ok? && plan.keyList
    requires Split(plan, shared, PreparedFor(tr, plan, benef).value).Ok?
    requires LocDictionary(Split(plan, shared, PreparedFor(tr, plan, benef).value).value, uniquelocs, score, plan.lookups,
                           plan.dictionaryDropped).Ok?
    requires Curated(plan, simple).Ok? && M.KeyBenefLoc !in Curated(plan, simple).value.columns
    ensures LocalityBranch(tr, score, plan, shared, benef, uniquelocs, simple, cat) == Err(KeyError(M.KeyBenefLoc))
  {
    PreparedMatchKeyed(tr, plan, benef);
  }

  /** No beneficiary is lost: every row of the match list has a row of the
      final list that carries each of its traced cells, under the final name
      of its column. The left joins keep every row and a row that repeats is
      kept once. */
  lemma LocalityBranchKeepsBeneficiary(tr: string -> string, score: (string, string) -> Score, plan: Plan, shared: map<string, Frame>,
                                       benef: Frame, uniquelocs: map<string, Frame>, simple: Frame, cat: Frame, i: nat)
    requires WellFormed(benef) && WellFormed(simple) && WellFormed(cat)
    requires L.AllWellFormed(shared) && L.AllWellFormed(uniquelocs)
    requires LocalityBranch(tr, score, plan, shared, benef, uniquelocs, simple, cat).Ok? && i < |benef.rows|
    ensures Curated(plan, simple).Ok?
    ensures var out := LocalityBranch(tr, score, plan, shared, benef, uniquelocs, simple, cat).value.listado;
      exists t :: 0 <= t < |out.rows| && RowCarries(out, t, benef, i, Curated(plan, simple).value.columns, cat, plan.finalDropped, plan.finalNames)
  {
    LocalityBranchListado(tr, score, plan, shared, benef, uniquelocs, simple, cat);
    MatchedListadoKeeps(tr, plan, benef, simple, cat, i);
  }

  // ---------------------------------------------------------------------
  // The branch, one step at a time
  // ---------------------------------------------------------------------

  /** Lines 249-258 and 455-464 on the caller's match list. */
  method PrepareInPlace(t: Table, tr: string -> string, plan: Plan) returns (err: Option<Error>)
    requires t.Valid()
    modifies t
    ensures t.Valid()
    ensures PreparedFor(tr, plan, old(t.Value())).Ok? ==> err.None? && t.Value() == PreparedFor(tr, plan, old(t.Value())).value
    ensures PreparedFor(tr, plan, old(t.Value())).Err? ==> err == Some(PreparedFor(tr, plan, old(t.Value())).error)
  {
    if plan.dropIndex {
      err := t.DropColumns([UnnamedIndex]);
      if err.Some? {
        return;
      }
    }
    if plan.keyList {
      err := M.LocKeyInPlace(t, tr);
    } else {
      err := None;
    }
  }

  /** Lines 262-263, 467-469, 591 and 717-719: the copy that is split. */
  method CopyForSplit(plan: Plan, p: Frame) returns (r: Result<Frame>)
    requires WellFormed(p)
    ensures r == SplitSource(plan, p)
  {
    var c := new Table(p);
    var err: Option<Error> := None;
    match plan.split {
      case KeyDeduplicated =>
        err := c.DropDuplicateKeys([M.KeyBenefLoc]);
      case IndexDropped =>
        err := c.DropColumns([UnnamedIndex]);
      case AsIs =>
    }
    if err.Some? {
      return Err(err.value);
    }
    r := Ok(c.Value());
  }

  /** One block of lines 272-348 on the shared dictionary: the entry and
      the state's table looked up, the entry fuzzy-matched in place. */
  method RunBlock(listados: L.Listados, uniquelocs: map<string, Frame>, score: (string, string) -> Score, l: Lookup)
    returns (r: Result<Frame>)
    requires listados.Valid() && L.AllWellFormed(uniquelocs)
    modifies listados
    ensures listados.Valid()
    ensures r == Piece(old(listados.entries), uniquelocs, score, l)
    ensures listados.entries == Annotated(old(listados.entries), uniquelocs, score, l)
  {
    if l.entry !in listados.entries {
      return Err(KeyError(l.entry));
    }
    if l.uniqueloc !in uniquelocs {
      return Err(KeyError(l.uniqueloc));
    }
    var e := new Table(listados.entries[l.entry]);
    r := FuzzyMergeBenefTable(e, uniquelocs[l.uniqueloc], M.KeyBenefLoc, U.LocalidadKey, score, BenefThreshold);
    listados.entries := listados.entries[l.entry := e.Value()];
  }

  /** Lines 272-348 and their copies: the blocks run one after the other on
      the shared dictionary, each annotating its entry in place, and the
      first that fails stops the rest. */
  method BuildStateMatches(listados: L.Listados, uniquelocs: map<string, Frame>, score: (string, string) -> Score, ls: seq<Lookup>)
    returns (r: Result<seq<Frame>>)
    requires listados.Valid() && L.AllWellFormed(uniquelocs)
    modifies listados
    ensures listados.Valid()
    ensures r == StateMatches(old(listados.entries), uniquelocs, score, ls)
    ensures listados.entries == RunBlocks(old(listados.entries), uniquelocs, score, ls).entries
  {
    ghost var e0 := listados.entries;
    var acc: seq<Frame> := [];
    for k := 0 to |ls|
      invariant listados.Valid()
      invariant RunBlocks(e0, uniquelocs, score, ls[..k]) == BlocksRun(listados.entries, Ok(acc))
    {
      RunBlocksSnoc(e0, uniquelocs, score, ls, k);
      var m := RunBlock(listados, uniquelocs, score, ls[k]);
      if m.Err? {
        TakeAll(ls);
        RunBlocksStop(e0, uniquelocs, score, ls, k + 1, |ls|);
        return Err(m.error);
      }
      acc := acc + [m.value];
    }
    assert ls[..|ls|] == ls;
    r := Ok(acc);
  }

  /** Lines 272-374 and their copies: the matches stacked and their detail
      columns dropped. */
  method BuildLocDictionary(listados: L.Listados, uniquelocs: map<string, Frame>, score: (string, string) -> Score,
                            ls: seq<Lookup>, dropped: seq<string>) returns (r: Result<Frame>)
    requires listados.Valid() && L.AllWellFormed(uniquelocs)
    modifies listados
    ensures listados.Valid()
    ensures r == LocDictionary(old(listados.entries), uniquelocs, score, ls, dropped)
    ensures listados.entries == RunBlocks(old(listados.entries), uniquelocs, score, ls).entries
  {
    var ps := BuildStateMatches(listados, uniquelocs, score, ls);
    if ps.Err? {
      return Err(ps.error);
    }
    var t := new Table(ConcatAll(ps.value));
    var err := t.DropColumns(dropped);
    if err.Some? {
      return Err(err.value);
    }
    r := Ok(t.Value());
  }

  /** Lines 406-413: the curated dictionary loses its repeated rows in
      place, then the join and its repeated rows. */
  method BuildLocParteI(keyed: Frame, simple: Frame) returns (r: Result<Frame>)
    requires WellFormed(keyed) && WellFormed(simple)
    ensures r == LocParteI(keyed, simple)
  {
    var cur := new Table(simple);
    cur.DropDuplicateRows();
    var m := MergeFrames(keyed, cur.Value(), MatchKey, M.KeyBenefLoc, Left, "_benef", "_inegi");
    if m.Err? {
      return Err(m.error);
    }
    var t := new Table(m.value);
    t.DropDuplicateRows();
    r := Ok(t.Value());
  }

  /** Lines 415-445: the unique localities, the second join, and the final
      drop and rename in place. */
  method BuildCompleted(p1: Frame, cat: Frame, dropped: seq<string>, names: map<string, string>) returns (r: Result<Frame>)
    requires WellFormed(p1) && WellFormed(cat)
    ensures r == Completed(p1, cat, dropped, names)
  {
    var ul := new Table(cat);
    var err := ul.DropColumns(UniqueLocDropped);
    if err.Some? {
      return Err(err.value);
    }
    err := ul.DropDuplicateKeys([U.LocalidadKey]);
    if err.Some? {
      return Err(err.value);
    }
    var m := MergeFrames(p1, ul.Value(), U.LocalidadKey, U.LocalidadKey, Left, "_benef", "_inegi");
    if m.Err? {
      return Err(m.error);
    }
    var t := new Table(m.value);
    err := t.DropColumns(dropped);
    if err.Some? {
      return Err(err.value);
    }
    err := t.RenameColumns(names);
    if err.Some? {
      return Err(err.value);
    }
    r := Ok(t.Value());
  }

  /** The match list prepared in place, then its copy split by state into
      the shared dictionary. */
  method PrepareAndSplit(t: Table, tr: string -> string, plan: Plan, listados: L.Listados) returns (err: Option<Error>)
    requires t.Valid() && listados.Valid()
    modifies t, listados
    ensures t.Valid() && listados.Valid()
    ensures PreparedFor(tr, plan, old(t.Value())).Err? ==>
      err == Some(PreparedFor(tr, plan, old(t.Value())).error) && listados.entries == old(listados.entries)
    ensures PreparedFor(tr, plan, old(t.Value())).Ok? ==>
      && t.Value() == PreparedFor(tr, plan, old(t.Value())).value
      && (Split(plan, old(listados.entries), t.Value()).Err? ==>
            err == Some(Split(plan, old(listados.entries), t.Value()).error) && listados.entries == old(listados.entries))
      && (Split(plan, old(listados.entries), t.Value()).Ok? ==>
            err.None? && listados.entries == Split(plan, old(listados.entries), t.Value()).value)
  {
    err := PrepareInPlace(t, tr, plan);
    if err.Some? {
      return;
    }
    var l := CopyForSplit(plan, t.Value());
    if l.Err? {
      return Some(l.error);
    }
    err := listados.Create(l.value, plan.entities, plan.prefix);
  }

  /** Lines 388-445 and their copies on the caller's prepared list, which
      gains its match key, and loses its repeated rows if the plan says so,
      in place. */
  method MatchInPlace(t: Table, tr: string -> string, plan: Plan, simple: Frame, cat: Frame) returns (r: Result<Frame>)
    requires t.Valid() && WellFormed(simple) && WellFormed(cat)
    modifies t
    ensures t.Valid()
    ensures r == MatchedListado(tr, plan, old(t.Value()), simple, cat)
    ensures r.Ok? ==> t.Value() == Listed(plan, MatchKeyed(tr, old(t.Value())).value)
  {
    MatchLabels();
    var cur := new Table(simple);
    var err := cur.RenameColumns(BomNames());
    if err.Some? {
      return Err(err.value);
    }
    err := M.CleanKeyInPlace(t, tr, M.Municipio, M.Localidad, M.MunicipioClean, LocalidadClean, MatchKey);
    if err.Some? {
      return Err(err.value);
    }
    if plan.stripSimple {
      err := cur.RenameColumns(StripNames(cur.columns));
      if err.Some? {
        return Err(err.value);
      }
    }
    r := CompleteInPlace(t, plan, cur.Value(), cat);
  }

  /** Lines 406-445 and their copies on the caller's keyed list, which loses
      its repeated rows in place if the plan says so. */
  method CompleteInPlace(t: Table, plan: Plan, s: Frame, cat: Frame) returns (r: Result<Frame>)
    requires t.Valid() && WellFormed(s) && WellFormed(cat)
    modifies t
    ensures t.Valid() && t.Value() == Listed(plan, old(t.Value()))
    ensures r == ListedCompleted(plan, old(t.Value()), s, cat)
  {
    if plan.dedupList {
      t.DropDuplicateRows();
    }
    var p1 := BuildLocParteI(t.Value(), s);
    if p1.Err? {
      return Err(p1.error);
    }
    r := BuildCompleted(p1.value, cat, plan.finalDropped, plan.finalNames);
  }

  /** One year's locality branch of `data_cleaning3`: the match list is
      prepared in place, its copy split into the shared dictionary
      `listados`, matched state by state, keyed again in place and
      completed. `uniquelocs` is what `load_inegi_uniqueloc` read, `simple`
      the curated dictionary and `cat` the cleaned catalogue. */
  method DataCleaning3Loc(tr: string -> string, score: (string, string) -> Score, plan: Plan, listados: L.Listados,
                          benef: Frame, uniquelocs: map<string, Frame>, simple: Frame, cat: Frame) returns (r: Result<LocOutcome>)
    requires listados.Valid() && WellFormed(benef) && WellFormed(simple) && WellFormed(cat) && L.AllWellFormed(uniquelocs)
    modifies listados
    ensures listados.Valid()
    ensures r == LocalityBranch(tr, score, plan, old(listados.entries), benef, uniquelocs, simple, cat)
    ensures listados.entries == SharedAfter(tr, score, plan, old(listados.entries), benef, uniquelocs)
  {
    var t := new Table(benef);
    var err := PrepareAndSplit(t, tr, plan, listados);
    if err.Some? {
      return Err(err.value);
    }
    ghost var p := t.Value();
    assert PreparedFor(tr, plan, benef) == Ok(p);
    var dict := BuildLocDictionary(listados, uniquelocs, score, plan.lookups, plan.dictionaryDropped);
    if dict.Err? {
      return Err(dict.error);
    }
    var out := MatchInPlace(t, tr, plan, simple, cat);
    if out.Err? {
      return Err(out.error);
    }
    r := Ok(LocOutcome(listados.entries, dict.value, out.value));
  }

  // ---------------------------------------------------------------------
  // data_cleaning3 (lines 163-866)
  // ---------------------------------------------------------------------

  /** What a call produces: the municipality stage's tables, and the
      locality branch's when the prefix selects one. */
  datatype Cleaned = Cleaned(municipalities: M.MunOutcome, localities: Option<LocOutcome>)

  /** The list a plan's branch starts from. */
  function MatchInput(plan: Plan, matchList: Frame, mun: M.MunOutcome): Frame {
    if plan.fromMatchFile then matchList else mun.listado
  }

  /** The locality branch `prefix` selects, if any, after the municipality
      stage `mun`, on the catalogue `cat` that stage cleaned. */
  function LocalityStage(tr: string -> string, score: (string, string) -> Score, prefix: int, mun: M.MunOutcome,
                         matchList: Frame, shared: map<string, Frame>, uniquelocs: map<string, Frame>, simpleLoc: Frame,
                         cat: Frame): (r: Result<Option<LocOutcome>>)
    requires WellFormed(mun.listado) && WellFormed(matchList) && WellFormed(simpleLoc) && WellFormed(cat)
    requires L.AllWellFormed(shared) && L.AllWellFormed(uniquelocs)
    ensures r.Ok? ==> (r.value.Some? <==> 19 <= prefix <= 22)
    ensures PlanOf(prefix).None? ==> r == Ok(None)
    ensures PlanOf(prefix).Some? ==>
      var plan := PlanOf(prefix).value;
      var b := LocalityBranch(tr, score, plan, shared, MatchInput(plan, matchList, mun), uniquelocs, simpleLoc, cat);
      && (b.Err? ==> r == Err(b.error))
      && (b.Ok? ==> r == Ok(Some(b.value)))
  {
    match PlanOf(prefix)
    case None => Ok(None)
    case Some(plan) =>
      var loc :- LocalityBranch(tr, score, plan, shared, MatchInput(plan, matchList, mun), uniquelocs, simpleLoc, cat);
      Ok(Some(loc))
  }

  /** The shared dictionary once the selected branch has run. */
  function SharedAfterStage(tr: string -> string, score: (string, string) -> Score, prefix: int, mun: M.MunOutcome,
                            matchList: Frame, shared: map<string, Frame>, uniquelocs: map<string, Frame>): (r: map<string, Frame>)
    requires WellFormed(mun.listado) && WellFormed(matchList) && L.AllWellFormed(shared) && L.AllWellFormed(uniquelocs)
    ensures L.AllWellFormed(r) && forall n :: n in shared ==> n in r
    ensures PlanOf(prefix).None? ==> r == shared
  {
    match PlanOf(prefix)
    case None => shared
    case Some(plan) => SharedAfter(tr, score, plan, shared, MatchInput(plan, matchList, mun), uniquelocs)
  }

  /** `data_cleaning3(inegi, benef, prefix)`: the municipality stage, then
      the locality branch `prefix` selects, on the catalogue the stage
      cleaned. `simpleMun` and `simpleLoc` are the curated dictionaries as
      read, `matchList` the saved match list of 2019 or 2020 as read. */
  function CleaningOutcome(tr: string -> string, score: (string, string) -> Score, prefix: int, inegi: Frame, benef: Frame,
                           simpleMun: Frame, matchList: Frame, shared: map<string, Frame>, uniquelocs: map<string, Frame>,
                           simpleLoc: Frame): (r: Result<Cleaned>)
    requires WellFormed(inegi) && WellFormed(benef) && WellFormed(simpleMun) && WellFormed(matchList) && WellFormed(simpleLoc)
    requires L.AllWellFormed(shared) && L.AllWellFormed(uniquelocs)
    ensures M.MunicipalityStage(tr, score, inegi, benef, simpleMun).Err? ==>
      r == Err(M.MunicipalityStage(tr, score, inegi, benef, simpleMun).error)
    ensures r.Ok? ==> r.value.municipalities == M.MunicipalityStage(tr, score, inegi, benef, simpleMun).value
    ensures r.Ok? ==> (r.value.localities.Some? <==> 19 <= prefix <= 22)
  {
    var mun :- M.MunicipalityStage(tr, score, inegi, benef, simpleMun);
    var loc :- LocalityStage(tr, score, prefix, mun, matchList, shared, uniquelocs, simpleLoc, M.Catalogue(inegi).value);
    Ok(Cleaned(mun, loc))
  }

  /** The shared dictionary once a call has run. */
  function SharedAfterCall(tr: string -> string, score: (string, string) -> Score, prefix: int, inegi: Frame, benef: Frame,
                           simpleMun: Frame, matchList: Frame, shared: map<string, Frame>, uniquelocs: map<string, Frame>): (r: map<string, Frame>)
    requires WellFormed(inegi) && WellFormed(benef) && WellFormed(simpleMun) && WellFormed(matchList)
    requires L.AllWellFormed(shared) && L.AllWellFormed(uniquelocs)
    ensures L.AllWellFormed(r) && forall n :: n in shared ==> n in r
    ensures M.MunicipalityStage(tr, score, inegi, benef, simpleMun).Err? || PlanOf(prefix).None? ==> r == shared
  {
    match M.MunicipalityStage(tr, score, inegi, benef, simpleMun)
    case Err(_) => shared
    case Ok(mun) => SharedAfterStage(tr, score, prefix, mun, matchList, shared, uniquelocs)
  }

  /** The selected branch on the shared dictionary `listados`. */
  method LocalityStageInPlace(tr: string -> string, score: (string, string) -> Score, prefix: int, mun: M.MunOutcome,
                              matchList: Frame, listados: L.Listados, uniquelocs: map<string, Frame>, simpleLoc: Frame,
                              cat: Frame) returns (r: Result<Option<LocOutcome>>)
    requires WellFormed(mun.listado) && WellFormed(matchList) && WellFormed(simpleLoc) && WellFormed(cat)
    requires listados.Valid() && L.AllWellFormed(uniquelocs)
    modifies listados
    ensures listados.Valid()
    ensures r == LocalityStage(tr, score, prefix, mun, matchList, old(listados.entries), uniquelocs, simpleLoc, cat)
    ensures listados.entries == SharedAfterStage(tr, score, prefix, mun, matchList, old(listados.entries), uniquelocs)
  {
    var plan := PlanOf(prefix);
    if plan.None? {
      return Ok(None);
    }
    var input := MatchInput(plan.value, matchList, mun);
    var loc := DataCleaning3Loc(tr, score, plan.value, listados, input, uniquelocs, simpleLoc, cat);
    if loc.Err? {
      return Err(loc.error);
    }
    r := Ok(Some(loc.value));
  }

  /** `data_cleaning3` on the shared dictionary `listados`. */
  method DataCleaning3(tr: string -> string, score: (string, string) -> Score, prefix: int, inegi: Frame, benef: Frame,
                       simpleMun: Frame, matchList: Frame, listados: L.Listados, uniquelocs: map<string, Frame>,
                       simpleLoc: Frame) returns (r: Result<Cleaned>)
    requires WellFormed(inegi) && WellFormed(benef) && WellFormed(simpleMun) && WellFormed(matchList) && WellFormed(simpleLoc)
    requires listados.Valid() && L.AllWellFormed(uniquelocs)
    modifies listados
    ensures listados.Valid()
    ensures r == CleaningOutcome(tr, score, prefix, inegi, benef, simpleMun, matchList, old(listados.entries), uniquelocs, simpleLoc)
    ensures listados.entries == SharedAfterCall(tr, score, prefix, inegi, benef, simpleMun, matchList, old(listados.entries), uniquelocs)
  {
    var mun := M.DataCleaning3Mun(tr, score, inegi, benef, simpleMun);
    if mun.Err? {
      return Err(mun.error);
    }
    ghost var shared := listados.entries;
    var cat := M.Catalogue(inegi).value;
    var loc := LocalityStageInPlace(tr, score, prefix, mun.value, matchList, listados, uniquelocs, simpleLoc, cat);
    assert SharedAfterCall(tr, score, prefix, inegi, benef, simpleMun, matchList, shared, uniquelocs) ==
      SharedAfterStage(tr, score, prefix, mun.value, matchList, shared, uniquelocs);
    if loc.Err? {
      return Err(loc.error);
    }
    r := Ok(Cleaned(mun.value, loc.value));
  }
}
