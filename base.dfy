/** The value of one table cell, Option and Result types shared by the whole
    model, and the errors the modelled pandas operations can raise. */
module Base {

  /** One pandas cell: missing (NaN or None), text, or an integer. */
  datatype Cell = NaN | Str(s: string) | Num(n: int)

  datatype Option<T> = None | Some(value: T)

  /** What a pipeline step raises instead of returning a table. */
  datatype Error =
    | KeyError(name: string)          // a column label (or dictionary key) that is absent
    | DuplicateColumn(name: string)   // the step would give two columns one label
    | AttributeError                   // a text method applied to a number
    | TypeError                        // a non-string key handed to the fuzzy matcher
    | MissingPopulation                // idxmax over a group whose POB_TOTAL is all NaN
    | NonNumericPopulation             // a POB_TOTAL cell holding text
    | SplitShape                       // str.split(expand=True) did not give two parts

  datatype Result<T> = Ok(value: T) | Err(error: Error) {
    predicate IsFailure() { Err? }

    function PropagateFailure<U>(): Result<U>
      requires Err?
    {
      Err(error)
    }

    function Extract(): T
      requires Ok?
    {
      value
    }
  }

  /** A list of steps run in order: all their values, or the error of the
      first step that fails. */
  function AllOk<T>(rs: seq<Result<T>>): (r: Result<seq<T>>)
    ensures r.Ok? <==> forall k :: 0 <= k < |rs| ==> rs[k].Ok?
    ensures r.Ok? ==> |r.value| == |rs| && forall k :: 0 <= k < |rs| ==> r.value[k] == rs[k].value
    decreases |rs|
  {
    if rs == [] then Ok([])
    else
      var init := rs[..|rs| - 1];
      assert forall k :: 0 <= k < |init| ==> init[k] == rs[k];
      var vs :- AllOk(init);
      var v :- rs[|rs| - 1];
      Ok(vs + [v])
  }

  /** The first failing step decides the error. */
  lemma {:induction false} AllOkFirstError<T>(rs: seq<Result<T>>, k: nat)
    requires k < |rs| && rs[k].Err?
    requires forall j :: 0 <= j < k ==> rs[j].Ok?
    ensures AllOk(rs) == Err(rs[k].error)
    decreases |rs|
  {
    var init := rs[..|rs| - 1];
    if k < |rs| - 1 {
      assert init[k] == rs[k];
      assert forall j :: 0 <= j < k ==> init[j] == rs[j];
      AllOkFirstError(init, k);
    } else {
      assert forall j :: 0 <= j < |init| ==> init[j] == rs[j];
    }
  }

  /** One more successful step extends the list of values. */
  lemma AllOkSnoc<T>(rs: seq<Result<T>>, k: nat)
    requires k < |rs| && AllOk(rs[..k]).Ok? && rs[k].Ok?
    ensures AllOk(rs[..k + 1]) == Ok(AllOk(rs[..k]).value + [rs[k].value])
  {
    assert rs[..k + 1][..k] == rs[..k];
  }
}
