/** The names under which the per-state INEGI tables are saved
    (`generate_uniqueloc`) and the dictionary keys under which the
    beneficiary pipeline loads them back (`load_inegi_uniqueloc`). */
module FileNames {
  import opened Text

  /** `estado.lower().replace(" ", "_")`. */
  function Slug(estado: string): (r: string)
    ensures |r| == |estado|
    ensures ' ' !in r
  {
    ReplaceChar(LowerStr(estado), ' ', '_')
  }

  /** The saved file's name without directory and extension. */
  function Stem(year: string, estado: string): string {
    "INEGI_UNIQUELOC_" + year + "_" + Slug(estado)
  }

  /** The saved file's name. */
  function FileName(year: string, estado: string): string {
    Stem(year, estado) + ".csv"
  }

  /** The folder the tables of `year` go to. */
  function Folder(year: string): string {
    "data/productores_beneficiarios 2019-2022/diccionarios_E3/" + year + "/"
  }

  /** Where the table of `estado` for `year` is saved. */
  function OutputPath(year: string, estado: string): string {
    Folder(year) + FileName(year, estado)
  }

  /** Two states of one year share a file exactly when their names agree
      once lower-cased with blanks turned into underscores. */
  lemma OutputPathShared(year: string, a: string, b: string)
    ensures OutputPath(year, a) == OutputPath(year, b) <==> Slug(a) == Slug(b)
  {
    var p := Folder(year) + "INEGI_UNIQUELOC_" + year + "_";
    assert OutputPath(year, a) == p + Slug(a) + ".csv";
    assert OutputPath(year, b) == p + Slug(b) + ".csv";
    if OutputPath(year, a) == OutputPath(year, b) {
      assert |Slug(a)| == |Slug(b)|;
      assert (p + Slug(a) + ".csv")[|p|..|p| + |Slug(a)|] == Slug(a);
      assert (p + Slug(b) + ".csv")[|p|..|p| + |Slug(b)|] == Slug(b);
    }
  }

  /** The dictionary key `load_inegi_uniqueloc` gives a file:
      `file_name.replace('.csv', '')`. */
  function KeyOfFile(fileName: string): string {
    ReplaceAll(fileName, ".csv", "")
  }

  /** Removing ".csv" from a dot-free name followed by ".csv" gives the name. */
  lemma {:induction false} StripCsv(s: string)
    requires '.' !in s
    ensures ReplaceAll(s + ".csv", ".csv", "") == s
    decreases |s|
  {
    if s == [] {
      assert [] + ".csv" == ".csv";
      assert StartsWith(".csv", ".csv");
      assert ".csv"[4..] == [];
    } else {
      var t := s + ".csv";
      assert t[0] == s[0] && t[0] != '.';
      assert !StartsWith(t, ".csv");
      assert t[1..] == s[1..] + ".csv";
      StripCsv(s[1..]);
      assert [s[0]] + s[1..] == s;
    }
  }

  /** A table saved for a state is loaded back under its stem when neither the
      year nor the state name holds a dot. */
  lemma LoadedUnderStem(year: string, estado: string)
    requires '.' !in year && '.' !in estado
    ensures KeyOfFile(FileName(year, estado)) == Stem(year, estado)
  {
    var s := Stem(year, estado);
    assert '.' !in Slug(estado) by {
      forall k | 0 <= k < |estado| ensures Slug(estado)[k] != '.' {
        assert estado[k] != '.';
      }
    }
    assert '.' !in s by {
      assert s == "INEGI_UNIQUELOC_" + year + "_" + Slug(estado);
    }
    StripCsv(s);
  }

  /** Michoacán de Ocampo's slug. */
  lemma MichoacanSlug()
    ensures Slug("Michoac\U{e1}n de Ocampo") == "michoac\U{e1}n_de_ocampo"
  {
    var s, t := "Michoac\U{e1}n de Ocampo", "michoac\U{e1}n_de_ocampo";
    var r := Slug(s);
    forall k | 0 <= k < |s| ensures r[k] == t[k] {
      assert r[k] == (if LowerChar(s[k]) == ' ' then '_' else LowerChar(s[k]));
    }
  }

  /** The file name line 55 gives Michoacán de Ocampo in 2019, the name the
      beneficiary pipeline looks up. */
  lemma MichoacanFile()
    ensures Stem("2019", "Michoac\U{e1}n de Ocampo") == "INEGI_UNIQUELOC_2019_michoac\U{e1}n_de_ocampo"
  {
    MichoacanSlug();
  }
}
