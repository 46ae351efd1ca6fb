/** `generate_uniqueloc` (`inegi_uniqueloc.py`:47-86): for each year, run the
    per-state step over a fixed list of states against that year's catalogue and
    save each result under the state's file name. The files are a map from path
    to table; an exception stops the run with the files written so far. */
module Generate {
  import opened Base
  import opened Seqs
  import opened Frames
  import opened UniqueLoc
  import opened FileNames

  /** The files on disk after a run, and the error that stopped it, if any. */
  datatype Run<T> = Run(files: map<string, T>, failure: Option<Error>)

  /** The paths a list of states is saved to, `path` naming each state's file. */
  function Paths(path: string -> string, estados: seq<string>): (r: set<string>)
    ensures forall e :: e in estados ==> path(e) in r
    ensures forall p :: p in r ==> exists e :: e in estados && p == path(e)
  {
    set e | e in estados :: path(e)
  }

  /** Saving the outcomes of `estados` in order: each success writes (or
      overwrites) the state's file; the first failure stops the loop. */
  function Save<T>(path: string -> string, estados: seq<string>, outcomes: seq<Result<T>>, files: map<string, T>): (r: Run<T>)
    requires |outcomes| == |estados|
    ensures r.failure.None? <==> forall k :: 0 <= k < |outcomes| ==> outcomes[k].Ok?
    ensures r.failure.Some? ==> exists k :: 0 <= k < |outcomes| && outcomes[k] == Err(r.failure.value) &&
                                  forall j :: 0 <= j < k ==> outcomes[j].Ok?
    decreases |estados|
  {
    if estados == [] then Run(files, None)
    else if outcomes[0].Err? then Run(files, Some(outcomes[0].error))
    else
      var r := Save(path, estados[1..], outcomes[1..], files[path(estados[0]) := outcomes[0].value]);
      assert forall k :: 1 <= k < |outcomes| ==> outcomes[k] == outcomes[1..][k - 1];
      r
  }

  /** A run writes only the paths of its states, and all of them when it
      does not fail. */
  lemma {:induction false} SaveKeys<T>(path: string -> string, estados: seq<string>, outcomes: seq<Result<T>>, files: map<string, T>)
    requires |outcomes| == |estados|
    ensures files.Keys <= Save(path, estados, outcomes, files).files.Keys <= files.Keys + Paths(path, estados)
    ensures Save(path, estados, outcomes, files).failure.None? ==>
              Save(path, estados, outcomes, files).files.Keys == files.Keys + Paths(path, estados)
    decreases |estados|
  {
    if estados != [] && outcomes[0].Ok? {
      var g := files[path(estados[0]) := outcomes[0].value];
      SaveKeys(path, estados[1..], outcomes[1..], g);
      assert Paths(path, estados) == {path(estados[0])} + Paths(path, estados[1..]) by {
        assert forall e :: e in estados <==> e == estados[0] || e in estados[1..];
      }
    }
  }

  /** A file whose path no state of the run maps to keeps its table. */
  lemma {:induction false} SaveKeepsOthers<T>(path: string -> string, estados: seq<string>, outcomes: seq<Result<T>>, files: map<string, T>, p: string)
    requires |outcomes| == |estados|
    requires p in files && p !in Paths(path, estados)
    ensures p in Save(path, estados, outcomes, files).files
    ensures Save(path, estados, outcomes, files).files[p] == files[p]
    decreases |estados|
  {
    if estados != [] && outcomes[0].Ok? {
      assert estados[0] in estados;
      var g := files[path(estados[0]) := outcomes[0].value];
      assert p !in Paths(path, estados[1..]) by {
        assert forall e :: e in estados[1..] ==> e in estados;
      }
      SaveKeepsOthers(path, estados[1..], outcomes[1..], g, p);
    }
  }

  /** In a run that does not fail, the file of a state none of whose successors
      shares its path holds that state's table. */
  lemma {:induction false} SaveWrites<T>(path: string -> string, estados: seq<string>, outcomes: seq<Result<T>>, files: map<string, T>, k: nat)
    requires |outcomes| == |estados|
    requires Save(path, estados, outcomes, files).failure.None?
    requires k < |estados|
    requires forall j :: k < j < |estados| ==> path(estados[j]) != path(estados[k])
    ensures path(estados[k]) in Save(path, estados, outcomes, files).files
    ensures Save(path, estados, outcomes, files).files[path(estados[k])] == outcomes[k].value
    decreases |estados|
  {
    assert outcomes[0].Ok?;
    var g := files[path(estados[0]) := outcomes[0].value];
    if k == 0 {
      var p := path(estados[0]);
      assert p !in Paths(path, estados[1..]) by {
        forall e | e in estados[1..] ensures p != path(e) {
          var j :| 0 <= j < |estados[1..]| && estados[1..][j] == e;
          assert estados[j + 1] == e;
        }
      }
      SaveKeepsOthers(path, estados[1..], outcomes[1..], g, p);
    } else {
      assert outcomes[k] == outcomes[1..][k - 1];
      assert forall j :: k - 1 < j < |estados[1..]| ==> estados[1..][j] == estados[j + 1];
      SaveWrites(path, estados[1..], outcomes[1..], g, k - 1);
    }
  }

  /** The table the per-state step saves for `estado`, or the error it raises. */
  function Saved(inegi: Frame, estado: string): (r: Result<Frame>)
    requires WellFormed(inegi)
    ensures r.Ok? <==> Process(inegi, estado).Ok?
    ensures r.Ok? ==> r.value == Process(inegi, estado).value.saved
    ensures r.Err? ==> r.error == Process(inegi, estado).error
  {
    match Process(inegi, estado)
    case Ok(o) => Ok(o.saved)
    case Err(e) => Err(e)
  }

  /** What the per-state step saves for each state of the list. */
  function Outcomes(inegi: Frame, estados: seq<string>): (r: seq<Result<Frame>>)
    requires WellFormed(inegi)
    ensures |r| == |estados|
    ensures forall k :: 0 <= k < |estados| ==> r[k] == Saved(inegi, estados[k])
  {
    seq(|estados|, k requires 0 <= k < |estados| => Saved(inegi, estados[k]))
  }

  /** The run of one year's states against that year's catalogue. */
  function RunYear(year: string, inegi: Frame, estados: seq<string>, files: map<string, Frame>): (r: Run<Frame>)
    requires WellFormed(inegi)
  {
    Save(e => OutputPath(year, e), estados, Outcomes(inegi, estados), files)
  }

  /** The loop of lines 54-56 (and 64-66, 74-76, 84-86) over one year. */
  method GenerateYear(year: string, inegi: Frame, estados: seq<string>, files: map<string, Frame>)
      returns (written: map<string, Frame>, failure: Option<Error>)
    requires WellFormed(inegi)
    ensures Run(written, failure) == RunYear(year, inegi, estados, files)
  {
    ghost var path := e => OutputPath(year, e);
    ghost var outcomes := Outcomes(inegi, estados);
    written := files;
    var i := 0;
    while i < |estados|
      invariant 0 <= i <= |estados|
      invariant Save(path, estados[i..], outcomes[i..], written) == Save(path, estados, outcomes, files)
    {
      var r := ProcesarDatosInegiPorEstado(inegi, estados[i]);
      assert outcomes[i..][0] == Saved(inegi, estados[i]);
      if r.Err? {
        return written, Some(r.error);
      }
      assert estados[i..][1..] == estados[i + 1..];
      assert outcomes[i..][1..] == outcomes[i + 1..];
      written := written[OutputPath(year, estados[i]) := r.value.saved];
      i := i + 1;
    }
    return written, None;
  }

  /** The states of lines 51, 61, 71 and 81. */
  const States2019: seq<string> := ["Puebla", "M\U{e9}xico", "Guanajuato", "Quer\U{e9}taro", "Zacatecas",
    "Veracruz de Ignacio de la Llave", "Hidalgo", "Michoac\U{e1}n de Ocampo", "Oaxaca", "Colima", "Chiapas",
    "San Luis Potos\U{ed}", "Jalisco", "Nayarit", "Guerrero"]
  const States2020: seq<string> := ["Guerrero", "Morelos", "Tlaxcala", "Puebla"]
  const States2021: seq<string> := ["Guerrero", "Morelos", "Tlaxcala", "Puebla"]
  const States2022: seq<string> := ["Guerrero", "Oaxaca", "Puebla", "Morelos", "Chiapas", "Durango", "Tlaxcala",
    "Nayarit", "Zacatecas"]

  /** No state name holds a dot, so a state's file name loses exactly
      ".csv" when loaded. */
  predicate DotFree(estados: seq<string>) {
    forall i :: 0 <= i < |estados| ==> '.' !in estados[i]
  }

  lemma StatesDotFree2019()
    ensures DotFree(States2019)
  {
  }

  lemma StatesDotFreeLater()
    ensures DotFree(States2020) && DotFree(States2021) && DotFree(States2022)
  {
  }

  /** No two states of a list share a file. */
  predicate SlugsDistinct(estados: seq<string>) {
    forall i, j :: 0 <= i < j < |estados| ==> Slug(estados[i]) != Slug(estados[j])
  }

  /** Each year's list names its states apart: they differ in length or in
      their first letter. */
  lemma StatesApart()
    ensures SlugsDistinct(States2019) && SlugsDistinct(States2020)
    ensures SlugsDistinct(States2021) && SlugsDistinct(States2022)
  {
    forall i, j | 0 <= i < j < |States2019| ensures Slug(States2019[i]) != Slug(States2019[j]) {
      assert |States2019[i]| != |States2019[j]| || Slug(States2019[i])[0] != Slug(States2019[j])[0];
    }
    forall i, j | 0 <= i < j < |States2020| ensures Slug(States2020[i]) != Slug(States2020[j]) {
      assert Slug(States2020[i])[0] != Slug(States2020[j])[0];
    }
    forall i, j | 0 <= i < j < |States2022| ensures Slug(States2022[i]) != Slug(States2022[j]) {
      assert Slug(States2022[i])[0] != Slug(States2022[j])[0];
    }
  }

  /** Two years written with as many digits save to different files. */
  lemma YearsApart(y1: string, y2: string, a: string, b: string)
    requires |y1| == |y2| && y1 != y2
    ensures OutputPath(y1, a) != OutputPath(y2, b)
  {
    var p := "data/productores_beneficiarios 2019-2022/diccionarios_E3/";
    assert OutputPath(y1, a) == p + y1 + ("/" + FileName(y1, a));
    assert OutputPath(y2, b) == p + y2 + ("/" + FileName(y2, b));
    assert (p + y1 + ("/" + FileName(y1, a)))[|p|..|p| + |y1|] == y1;
    assert (p + y2 + ("/" + FileName(y2, b)))[|p|..|p| + |y2|] == y2;
  }

  /** A year whose states are named apart and which does not fail leaves in each
      state's file the table computed for that state. */
  lemma YearWrites(year: string, inegi: Frame, estados: seq<string>, files: map<string, Frame>, k: nat)
    requires WellFormed(inegi) && SlugsDistinct(estados)
    requires RunYear(year, inegi, estados, files).failure.None?
    requires k < |estados|
    ensures OutputPath(year, estados[k]) in RunYear(year, inegi, estados, files).files
    ensures Saved(inegi, estados[k]).Ok?
    ensures RunYear(year, inegi, estados, files).files[OutputPath(year, estados[k])] == Saved(inegi, estados[k]).value
  {
    forall j | k < j < |estados| ensures OutputPath(year, estados[j]) != OutputPath(year, estados[k]) {
      OutputPathShared(year, estados[j], estados[k]);
    }
    SaveWrites(e => OutputPath(year, e), estados, Outcomes(inegi, estados), files, k);
  }

  /** A year leaves the files of other years as they were. */
  lemma YearKeepsOthers(year: string, inegi: Frame, estados: seq<string>, files: map<string, Frame>, other: string, estado: string)
    requires WellFormed(inegi)
    requires |other| == |year| && other != year
    requires OutputPath(other, estado) in files
    ensures OutputPath(other, estado) in RunYear(year, inegi, estados, files).files
    ensures RunYear(year, inegi, estados, files).files[OutputPath(other, estado)] == files[OutputPath(other, estado)]
  {
    var path := e => OutputPath(year, e);
    forall e | e in estados ensures OutputPath(other, estado) != path(e) {
      YearsApart(other, year, estado, e);
    }
    SaveKeepsOthers(path, estados, Outcomes(inegi, estados), files, OutputPath(other, estado));
  }

  /** Lines 47-86: the four years in turn, each against its own catalogue;
      an exception stops the whole run. */
  function RunAll(c2019: Frame, c2020: Frame, c2021: Frame, c2022: Frame, files: map<string, Frame>): (r: Run<Frame>)
    requires WellFormed(c2019) && WellFormed(c2020) && WellFormed(c2021) && WellFormed(c2022)
  {
    var r1 := RunYear("2019", c2019, States2019, files);
    if r1.failure.Some? then r1 else
    var r2 := RunYear("2020", c2020, States2020, r1.files);
    if r2.failure.Some? then r2 else
    var r3 := RunYear("2021", c2021, States2021, r2.files);
    if r3.failure.Some? then r3 else
    RunYear("2022", c2022, States2022, r3.files)
  }

  /** `generate_uniqueloc`. */
  method GenerateUniqueloc(c2019: Frame, c2020: Frame, c2021: Frame, c2022: Frame, files: map<string, Frame>)
      returns (written: map<string, Frame>, failure: Option<Error>)
    requires WellFormed(c2019) && WellFormed(c2020) && WellFormed(c2021) && WellFormed(c2022)
    ensures Run(written, failure) == RunAll(c2019, c2020, c2021, c2022, files)
  {
    written, failure := GenerateYear("2019", c2019, States2019, files);
    if failure.Some? {
      return;
    }
    written, failure := GenerateYear("2020", c2020, States2020, written);
    if failure.Some? {
      return;
    }
    written, failure := GenerateYear("2021", c2021, States2021, written);
    if failure.Some? {
      return;
    }
    written, failure := GenerateYear("2022", c2022, States2022, written);
  }

  /** A run that does not fail leaves, for every year and every state of that
      year's list, the table computed from that year's catalogue: no state
      overwrites another, and no year overwrites another's files. */
  lemma EveryStateSaved(c2019: Frame, c2020: Frame, c2021: Frame, c2022: Frame, files: map<string, Frame>)
    requires WellFormed(c2019) && WellFormed(c2020) && WellFormed(c2021) && WellFormed(c2022)
    requires RunAll(c2019, c2020, c2021, c2022, files).failure.None?
    ensures forall k :: 0 <= k < |States2019| ==>
      Saved(c2019, States2019[k]).Ok? && OutputPath("2019", States2019[k]) in RunAll(c2019, c2020, c2021, c2022, files).files &&
      RunAll(c2019, c2020, c2021, c2022, files).files[OutputPath("2019", States2019[k])] == Saved(c2019, States2019[k]).value
    ensures forall k :: 0 <= k < |States2020| ==>
      Saved(c2020, States2020[k]).Ok? && OutputPath("2020", States2020[k]) in RunAll(c2019, c2020, c2021, c2022, files).files &&
      RunAll(c2019, c2020, c2021, c2022, files).files[OutputPath("2020", States2020[k])] == Saved(c2020, States2020[k]).value
    ensures forall k :: 0 <= k < |States2021| ==>
      Saved(c2021, States2021[k]).Ok? && OutputPath("2021", States2021[k]) in RunAll(c2019, c2020, c2021, c2022, files).files &&
      RunAll(c2019, c2020, c2021, c2022, files).files[OutputPath("2021", States2021[k])] == Saved(c2021, States2021[k]).value
    ensures forall k :: 0 <= k < |States2022| ==>
      Saved(c2022, States2022[k]).Ok? && OutputPath("2022", States2022[k]) in RunAll(c2019, c2020, c2021, c2022, files).files &&
      RunAll(c2019, c2020, c2021, c2022, files).files[OutputPath("2022", States2022[k])] == Saved(c2022, States2022[k]).value
  {
    StatesApart();
    var r1 := RunYear("2019", c2019, States2019, files);
    var r2 := RunYear("2020", c2020, States2020, r1.files);
    var r3 := RunYear("2021", c2021, States2021, r2.files);
    var r4 := RunYear("2022", c2022, States2022, r3.files);
    assert r1.failure.None? && r2.failure.None? && r3.failure.None?;
    assert RunAll(c2019, c2020, c2021, c2022, files) == r4;
    forall k | 0 <= k < |States2019|
      ensures Saved(c2019, States2019[k]).Ok? && OutputPath("2019", States2019[k]) in r4.files &&
              r4.files[OutputPath("2019", States2019[k])] == Saved(c2019, States2019[k]).value
    {
      YearWrites("2019", c2019, States2019, files, k);
      YearKeepsOthers("2020", c2020, States2020, r1.files, "2019", States2019[k]);
      YearKeepsOthers("2021", c2021, States2021, r2.files, "2019", States2019[k]);
      YearKeepsOthers("2022", c2022, States2022, r3.files, "2019", States2019[k]);
    }
    forall k | 0 <= k < |States2020|
      ensures Saved(c2020, States2020[k]).Ok? && OutputPath("2020", States2020[k]) in r4.files &&
              r4.files[OutputPath("2020", States2020[k])] == Saved(c2020, States2020[k]).value
    {
      YearWrites("2020", c2020, States2020, r1.files, k);
      YearKeepsOthers("2021", c2021, States2021, r2.files, "2020", States2020[k]);
      YearKeepsOthers("2022", c2022, States2022, r3.files, "2020", States2020[k]);
    }
    forall k | 0 <= k < |States2021|
      ensures Saved(c2021, States2021[k]).Ok? && OutputPath("2021", States2021[k]) in r4.files &&
              r4.files[OutputPath("2021", States2021[k])] == Saved(c2021, States2021[k]).value
    {
      YearWrites("2021", c2021, States2021, r2.files, k);
      YearKeepsOthers("2022", c2022, States2022, r3.files, "2021", States2021[k]);
    }
    forall k | 0 <= k < |States2022|
      ensures Saved(c2022, States2022[k]).Ok? && OutputPath("2022", States2022[k]) in r4.files &&
              r4.files[OutputPath("2022", States2022[k])] == Saved(c2022, States2022[k]).value
    {
      YearWrites("2022", c2022, States2022, r3.files, k);
    }
  }
}
