/** A pandas DataFrame that the pipeline changes in place: column assignment
    `df[c] = ...` and the `inplace=True` forms of `drop`, `drop_duplicates`,
    `dropna` and `rename`. Each method leaves the table holding what the
    matching operation of `Frames` computes from the old table; an operation
    that raises leaves the table as it was. */
module Tables {
  import opened Base
  import opened Frames

  class Table {
    var columns: seq<string>
    var rows: seq<Row>

    /** The table's current contents. */
    function Value(): Frame
      reads this
    {
      Frame(columns, rows)
    }

    predicate Valid()
      reads this
    {
      WellFormed(Value())
    }

    constructor (f: Frame)
      requires WellFormed(f)
      ensures Valid() && Value() == f
    {
      columns := f.columns;
      rows := f.rows;
    }

    /** `df[c] = vals`. */
    method Assign(c: string, vals: seq<Cell>)
      requires Valid() && |vals| == |rows|
      modifies this
      ensures Valid() && Value() == AssignColumn(old(Value()), c, vals)
    {
      var r := AssignColumn(Value(), c, vals);
      columns, rows := r.columns, r.rows;
    }

    /** `df.drop(columns=cs, inplace=True)`. */
    method DropColumns(cs: seq<string>) returns (err: Option<Error>)
      requires Valid()
      modifies this
      ensures Valid()
      ensures Drop(old(Value()), cs).Ok? ==> err.None? && Value() == Drop(old(Value()), cs).value
      ensures Drop(old(Value()), cs).Err? ==> err == Some(Drop(old(Value()), cs).error) && Value() == old(Value())
    {
      var r := Drop(Value(), cs);
      if r.Ok? {
        columns, rows := r.value.columns, r.value.rows;
        err := None;
      } else {
        err := Some(r.error);
      }
    }

    /** `df.drop_duplicates(inplace=True)`. */
    method DropDuplicateRows()
      requires Valid()
      modifies this
      ensures Valid() && Value() == DropDuplicates(old(Value()))
    {
      rows := DropDuplicates(Value()).rows;
    }

    /** `df.drop_duplicates(subset=cs, keep='first', inplace=True)`. */
    method DropDuplicateKeys(cs: seq<string>) returns (err: Option<Error>)
      requires Valid()
      modifies this
      ensures Valid()
      ensures DropDuplicatesOn(old(Value()), cs).Ok? ==> err.None? && Value() == DropDuplicatesOn(old(Value()), cs).value
      ensures DropDuplicatesOn(old(Value()), cs).Err? ==>
        err == Some(DropDuplicatesOn(old(Value()), cs).error) && Value() == old(Value())
    {
      var r := DropDuplicatesOn(Value(), cs);
      if r.Ok? {
        rows := r.value.rows;
        err := None;
      } else {
        err := Some(r.error);
      }
    }

    /** `df.dropna(inplace=True)`. */
    method DropMissing()
      requires Valid()
      modifies this
      ensures Valid() && Value() == DropNa(old(Value()))
    {
      rows := DropNa(Value()).rows;
    }

    /** `df.rename(columns=m, inplace=True)`. */
    method RenameColumns(m: map<string, string>) returns (err: Option<Error>)
      requires Valid()
      modifies this
      ensures Valid()
      ensures Rename(old(Value()), m).Ok? ==> err.None? && Value() == Rename(old(Value()), m).value
      ensures Rename(old(Value()), m).Err? ==> err == Some(Rename(old(Value()), m).error) && Value() == old(Value())
    {
      var r := Rename(Value(), m);
      if r.Ok? {
        columns := r.value.columns;
        err := None;
      } else {
        err := Some(r.error);
      }
    }
  }
}
