/** `load_inegi_uniqueloc`: every CSV file of a folder read into a dictionary
    keyed by the file name without ".csv". Listing the folder and reading a
    file are the parameters `files` (the listing, in its order) and `read`. */
module Loading {
  import opened Text
  import opened Seqs
  import opened Frames
  import opened FileNames

  predicate IsCsv(f: string) {
    EndsWith(f, ".csv")
  }

  /** `[file for file in files if file.endswith('.csv')]`. */
  function CsvFiles(files: seq<string>): (r: seq<string>)
    ensures forall f :: f in r <==> f in files && IsCsv(f)
    ensures IsSubsequence(r, files)
  {
    FilterSubsequence(files, IsCsv);
    assert forall k :: 0 <= k < |files| && IsCsv(files[k]) ==> files[k] in Filter(files, IsCsv);
    Filter(files, IsCsv)
  }

  /** The dictionary after reading `files` in order; a later file overwrites
      an earlier one with the same key. */
  function Loaded(files: seq<string>, read: string -> Frame): map<string, Frame>
    decreases |files|
  {
    if files == [] then map[]
    else
      var init, last := files[..|files| - 1], files[|files| - 1];
      Loaded(init, read)[KeyOfFile(last) := read(last)]
  }

  /** The keys are the keys of the files read. */
  lemma {:induction false} LoadedKeys(files: seq<string>, read: string -> Frame, key: string)
    ensures key in Loaded(files, read) <==> exists f :: f in files && KeyOfFile(f) == key
    decreases |files|
  {
    if files != [] {
      var init, last := files[..|files| - 1], files[|files| - 1];
      LoadedKeys(init, read, key);
      assert files == init + [last];
      if exists f :: f in files && KeyOfFile(f) == key {
        var f :| f in files && KeyOfFile(f) == key;
        assert f in init || f == last;
      }
    }
  }

  /** A file no later file shares a key with is what its key holds. */
  lemma {:induction false} LoadedValue(files: seq<string>, read: string -> Frame, i: nat)
    requires i < |files|
    requires forall j :: i < j < |files| ==> KeyOfFile(files[j]) != KeyOfFile(files[i])
    ensures KeyOfFile(files[i]) in Loaded(files, read)
    ensures Loaded(files, read)[KeyOfFile(files[i])] == read(files[i])
    decreases |files|
  {
    var init, last := files[..|files| - 1], files[|files| - 1];
    if i < |files| - 1 {
      assert init[i] == files[i];
      LoadedValue(init, read, i);
    }
  }

  /** The table `generate_uniqueloc` saves for a state is found under the
      stem the beneficiary pipeline looks up, provided no other CSV file of
      the folder loads under the same key. A folder listing names each file
      once. */
  lemma LoadedState(files: seq<string>, read: string -> Frame, year: string, estado: string)
    requires Distinct(files) && '.' !in year && '.' !in estado
    requires FileName(year, estado) in files
    requires forall f :: f in files && IsCsv(f) && KeyOfFile(f) == Stem(year, estado) ==> f == FileName(year, estado)
    ensures Stem(year, estado) in Loaded(CsvFiles(files), read)
    ensures Loaded(CsvFiles(files), read)[Stem(year, estado)] == read(FileName(year, estado))
  {
    var name := FileName(year, estado);
    var csv := CsvFiles(files);
    LoadedUnderStem(year, estado);
    assert IsCsv(name) by {
      assert name[|name| - 4..] == ".csv";
    }
    var i :| 0 <= i < |csv| && csv[i] == name;
    forall j | i < j < |csv| ensures KeyOfFile(csv[j]) != KeyOfFile(csv[i]) {
      if KeyOfFile(csv[j]) == KeyOfFile(csv[i]) {
        assert csv[j] in csv;
        assert csv[j] == name;
        SubsequenceDistinct(csv, files);
      }
    }
    LoadedValue(csv, read, i);
  }

  /** `load_inegi_uniqueloc(folder)`. */
  method LoadInegiUniqueloc(files: seq<string>, read: string -> Frame) returns (d: map<string, Frame>)
    ensures d == Loaded(CsvFiles(files), read)
  {
    var csv := CsvFiles(files);
    d := map[];
    for k := 0 to |csv|
      invariant d == Loaded(csv[..k], read)
    {
      assert csv[..k + 1][..k] == csv[..k];
      d := d[KeyOfFile(csv[k]) := read(csv[k])];
    }
    assert csv[..|csv|] == csv;
  }
}
