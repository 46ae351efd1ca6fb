/** `create_listados_por_entidad`: the beneficiary list split by state into a
    dictionary of tables named `Localidades_{prefix}_{ENTITY}`. The
    dictionary is the function's mutable default argument, so it outlives a
    call: it is modelled as one object whose entries every call extends. */
module Listados {
  import opened Base
  import opened Seqs
  import opened Text
  import opened Frames

  const Entidad := "ENTIDAD"

  /** `f"Localidades_{prefix}_{entity.upper().replace(' ', '_')}"`. */
  function EntryName(prefix: int, entity: string): string {
    "Localidades_" + IntToString(prefix) + "_" + ReplaceChar(UpperStr(entity), ' ', '_')
  }

  /** `listado[listado["ENTIDAD"] == entity]`. */
  function EntityRows(listado: Frame, entity: string): (r: Frame)
    requires WellFormed(listado) && Entidad in listado.columns
    ensures WellFormed(r) && r.columns == listado.columns
    ensures IsSubsequence(r.rows, listado.rows)
  {
    FilterEq(listado, Entidad, entity).value
  }

  predicate AllWellFormed(m: map<string, Frame>) {
    forall n :: n in m ==> WellFormed(m[n])
  }

  /** Every entry has the header `cols`. */
  predicate OnHeader(m: map<string, Frame>, cols: seq<string>) {
    forall n :: n in m ==> m[n].columns == cols
  }

  /** One pass of the loop: the entry of `entity` is created, or the state's
      rows are concatenated to it. */
  function AddEntity(m: map<string, Frame>, listado: Frame, prefix: int, entity: string): (r: map<string, Frame>)
    requires AllWellFormed(m) && WellFormed(listado) && Entidad in listado.columns
    ensures AllWellFormed(r)
  {
    var n := EntryName(prefix, entity);
    var df := EntityRows(listado, entity);
    m[n := if n in m then Concat(m[n], df) else df]
  }

  /** The dictionary after the loop of lines 85-95 over `entities`. */
  function Gathered(m: map<string, Frame>, listado: Frame, prefix: int, entities: seq<string>): (r: map<string, Frame>)
    requires AllWellFormed(m) && WellFormed(listado) && Entidad in listado.columns
    ensures AllWellFormed(r)
    decreases |entities|
  {
    if |entities| == 0 then m
    else Gathered(AddEntity(m, listado, prefix, entities[0]), listado, prefix, entities[1..])
  }

  /** The rows a call adds to entry `n`: for each listed entity, in list
      order, that maps to `n`, the rows of that state. */
  function Collected(listado: Frame, prefix: int, entities: seq<string>, n: string): seq<Row>
    requires WellFormed(listado) && Entidad in listado.columns
    decreases |entities|
  {
    if |entities| == 0 then []
    else
      (if EntryName(prefix, entities[0]) == n then EntityRows(listado, entities[0]).rows else [])
      + Collected(listado, prefix, entities[1..], n)
  }

  /** The entry one pass touches grows by that state's rows; the others stay. */
  lemma AddEntityRows(m: map<string, Frame>, listado: Frame, prefix: int, entity: string)
    requires AllWellFormed(m) && WellFormed(listado) && Entidad in listado.columns && OnHeader(m, listado.columns)
    ensures var r := AddEntity(m, listado, prefix, entity);
      && OnHeader(r, listado.columns)
      && r.Keys == m.Keys + {EntryName(prefix, entity)}
      && (forall n :: n in m && n != EntryName(prefix, entity) ==> r[n] == m[n])
      && r[EntryName(prefix, entity)].rows ==
           (if EntryName(prefix, entity) in m then m[EntryName(prefix, entity)].rows else []) + EntityRows(listado, entity).rows
  {
    var n := EntryName(prefix, entity);
    var df := EntityRows(listado, entity);
    if n in m {
      ConcatSameColumns(m[n], df);
    } else {
      assert [] + df.rows == df.rows;
    }
  }

  /** Some listed entity is stored under `n`. */
  predicate Named(prefix: int, entities: seq<string>, n: string) {
    exists k :: 0 <= k < |entities| && EntryName(prefix, entities[k]) == n
  }

  lemma NamedCons(prefix: int, entities: seq<string>, n: string)
    requires |entities| > 0
    ensures Named(prefix, entities, n) <==> EntryName(prefix, entities[0]) == n || Named(prefix, entities[1..], n)
  {
    if Named(prefix, entities[1..], n) {
      var k :| 0 <= k < |entities[1..]| && EntryName(prefix, entities[1..][k]) == n;
      assert entities[k + 1] == entities[1..][k];
    }
    if Named(prefix, entities, n) {
      var k :| 0 <= k < |entities| && EntryName(prefix, entities[k]) == n;
      if k > 0 {
        assert entities[1..][k - 1] == entities[k];
      }
    }
  }

  /** A call that starts from entries on the list's header keeps that header
      and creates an entry for each listed entity and no other. */
  lemma {:induction false} GatheredKeys(m: map<string, Frame>, listado: Frame, prefix: int, entities: seq<string>)
    requires AllWellFormed(m) && WellFormed(listado) && Entidad in listado.columns && OnHeader(m, listado.columns)
    ensures OnHeader(Gathered(m, listado, prefix, entities), listado.columns)
    ensures forall n :: n in Gathered(m, listado, prefix, entities) <==> n in m || Named(prefix, entities, n)
    decreases |entities|
  {
    if |entities| > 0 {
      var m1 := AddEntity(m, listado, prefix, entities[0]);
      AddEntityRows(m, listado, prefix, entities[0]);
      GatheredKeys(m1, listado, prefix, entities[1..]);
      forall n ensures n in Gathered(m, listado, prefix, entities) <==> n in m || Named(prefix, entities, n) {
        NamedCons(prefix, entities, n);
      }
    }
  }

  /** After the call, every entry holds its old rows followed by the rows
      `Collected` gives it. */
  lemma {:induction false} GatheredRows(m: map<string, Frame>, listado: Frame, prefix: int, entities: seq<string>, n: string)
    requires AllWellFormed(m) && WellFormed(listado) && Entidad in listado.columns && OnHeader(m, listado.columns)
    requires n in Gathered(m, listado, prefix, entities)
    ensures Gathered(m, listado, prefix, entities)[n].rows ==
      (if n in m then m[n].rows else []) + Collected(listado, prefix, entities, n)
    decreases |entities|
  {
    if |entities| > 0 {
      var e := entities[0];
      var m1 := AddEntity(m, listado, prefix, e);
      AddEntityRows(m, listado, prefix, e);
      GatheredRows(m1, listado, prefix, entities[1..], n);
      var old0: seq<Row> := if n in m then m[n].rows else [];
      var own: seq<Row> := if EntryName(prefix, e) == n then EntityRows(listado, e).rows else [];
      var rest := Collected(listado, prefix, entities[1..], n);
      assert (if n in m1 then m1[n].rows else []) == old0 + own;
      assert Collected(listado, prefix, entities, n) == own + rest;
      AppendAssociative(old0, own, rest);
    } else {
      assert Collected(listado, prefix, entities, n) == [];
    }
  }

  /** Entry `n` collects exactly the list's rows whose state is a listed
      entity that maps to `n`. */
  lemma {:induction false} CollectedRows(listado: Frame, prefix: int, entities: seq<string>, n: string, row: Row)
    requires WellFormed(listado) && Entidad in listado.columns
    ensures row in Collected(listado, prefix, entities, n) <==>
      row in listado.rows &&
      exists k :: 0 <= k < |entities| && EntryName(prefix, entities[k]) == n && At(listado.columns, row, Entidad) == Str(entities[k])
    decreases |entities|
  {
    if |entities| > 0 {
      var e := entities[0];
      var df := EntityRows(listado, e);
      CollectedRows(listado, prefix, entities[1..], n, row);
      var own: seq<Row> := if EntryName(prefix, e) == n then df.rows else [];
      assert Collected(listado, prefix, entities, n) == own + Collected(listado, prefix, entities[1..], n);
      assert row in df.rows <==> row in listado.rows && At(listado.columns, row, Entidad) == Str(e) by {
        if row in df.rows {
          var t :| 0 <= t < |df.rows| && df.rows[t] == row;
          assert Get(df, t, Entidad) == Str(e);
          SubsequenceMembers(df.rows, listado.rows);
        }
        if row in listado.rows && At(listado.columns, row, Entidad) == Str(e) {
          var j :| 0 <= j < |listado.rows| && listado.rows[j] == row;
          assert Get(listado, j, Entidad) == Str(e);
        }
      }
      if exists k :: 0 <= k < |entities[1..]| && EntryName(prefix, entities[1..][k]) == n && At(listado.columns, row, Entidad) == Str(entities[1..][k]) {
        var k :| 0 <= k < |entities[1..]| && EntryName(prefix, entities[1..][k]) == n && At(listado.columns, row, Entidad) == Str(entities[1..][k]);
        assert entities[k + 1] == entities[1..][k];
      }
      if exists k :: 0 <= k < |entities| && EntryName(prefix, entities[k]) == n && At(listado.columns, row, Entidad) == Str(entities[k]) {
        var k :| 0 <= k < |entities| && EntryName(prefix, entities[k]) == n && At(listado.columns, row, Entidad) == Str(entities[k]);
        if k > 0 {
          assert entities[1..][k - 1] == entities[k];
        }
      }
    }
  }

  /** With the shared default dictionary, repeating an identical first call
      appends the same rows to every entry a second time. */
  lemma RepeatedCall(listado: Frame, prefix: int, entities: seq<string>)
    requires WellFormed(listado) && Entidad in listado.columns
    ensures var once := Gathered(map[], listado, prefix, entities);
      var twice := Gathered(once, listado, prefix, entities);
      && twice.Keys == once.Keys
      && (forall n :: n in once ==> once[n].rows == Collected(listado, prefix, entities, n))
      && (forall n :: n in once ==> twice[n].rows == once[n].rows + once[n].rows)
  {
    var once := Gathered(map[], listado, prefix, entities);
    var twice := Gathered(once, listado, prefix, entities);
    GatheredKeys(map[], listado, prefix, entities);
    GatheredKeys(once, listado, prefix, entities);
    forall n | n in once ensures once[n].rows == Collected(listado, prefix, entities, n) {
      GatheredRows(map[], listado, prefix, entities, n);
      assert [] + Collected(listado, prefix, entities, n) == Collected(listado, prefix, entities, n);
    }
    forall n | n in once ensures twice[n].rows == once[n].rows + once[n].rows {
      GatheredRows(once, listado, prefix, entities, n);
    }
  }

  /** Upper-casing is determined character by character. */
  lemma {:induction false} UpperStrAgrees(s: string, t: string)
    requires |s| == |t| && forall k :: 0 <= k < |s| ==> UpperChar(s[k]) == UpperChar(t[k])
    ensures UpperStr(s) == UpperStr(t)
    decreases |s|
  {
    if s != [] {
      assert forall k :: 0 <= k < |s[1..]| ==> s[1..][k] == s[k + 1] && t[1..][k] == t[k + 1];
      UpperStrAgrees(s[1..], t[1..]);
    }
  }

  /** Text that differs from a text only by lower-case ASCII letters where
      that has capitals upper-cases to the same text. */
  lemma LowerVariant(s: string, t: string)
    requires |s| == |t|
    requires forall k :: 0 <= k < |s| ==> s[k] == t[k] || ('A' <= t[k] <= 'Z' && s[k] as int == t[k] as int + 32)
    ensures UpperStr(s) == UpperStr(t)
  {
    UpperStrAgrees(s, t);
  }

  /** 'Guerrero' and 'GUERRERO' share one entry: the 2020 list names both
      spellings. */
  lemma GuerreroSharesEntry(prefix: int)
    ensures EntryName(prefix, "Guerrero") == EntryName(prefix, "GUERRERO")
  {
    LowerVariant("Guerrero", "GUERRERO");
  }

  /** 'Puebla' and 'PUEBLA' share one entry as well. */
  lemma PueblaSharesEntry(prefix: int)
    ensures EntryName(prefix, "Puebla") == EntryName(prefix, "PUEBLA")
  {
    LowerVariant("Puebla", "PUEBLA");
  }

  /** Whatever the entries a call starts from, it keeps every one of them. */
  lemma {:induction false} GatheredHasEntries(m: map<string, Frame>, listado: Frame, prefix: int, entities: seq<string>)
    requires AllWellFormed(m) && WellFormed(listado) && Entidad in listado.columns
    ensures forall n :: n in m ==> n in Gathered(m, listado, prefix, entities)
    decreases |entities|
  {
    if |entities| > 0 {
      GatheredHasEntries(AddEntity(m, listado, prefix, entities[0]), listado, prefix, entities[1..]);
    }
  }

  /** Whatever the entries a call starts from, it leaves an entry for each
      listed entity. */
  lemma {:induction false} GatheredHasEntry(m: map<string, Frame>, listado: Frame, prefix: int, entities: seq<string>, k: nat)
    requires AllWellFormed(m) && WellFormed(listado) && Entidad in listado.columns && k < |entities|
    ensures EntryName(prefix, entities[k]) in Gathered(m, listado, prefix, entities)
    decreases |entities|
  {
    var m1 := AddEntity(m, listado, prefix, entities[0]);
    if k == 0 {
      GatheredHasEntries(m1, listado, prefix, entities[1..]);
    } else {
      assert entities[k] == entities[1..][k - 1];
      GatheredHasEntry(m1, listado, prefix, entities[1..], k - 1);
    }
  }

  /** The fold unrolled by one entity. */
  lemma GatheredStep(m: map<string, Frame>, listado: Frame, prefix: int, entities: seq<string>, k: nat)
    requires AllWellFormed(m) && WellFormed(listado) && Entidad in listado.columns && k < |entities|
    ensures Gathered(m, listado, prefix, entities[k..]) ==
      Gathered(AddEntity(m, listado, prefix, entities[k]), listado, prefix, entities[k + 1..])
  {
    assert entities[k..][1..] == entities[k + 1..];
  }

  /** The dictionary the pipeline passes around: one object shared by every
      call that leaves out the argument. */
  class Listados {
    var entries: map<string, Frame>

    predicate Valid()
      reads this
    {
      AllWellFormed(entries)
    }

    /** The empty default, as first created. */
    constructor ()
      ensures Valid() && entries == map[]
    {
      entries := map[];
    }

    /** One pass of the loop: the state's rows are stored under its name, or
        appended to the entry already there. */
    method Add(listado: Frame, prefix: int, entity: string)
      requires Valid() && WellFormed(listado) && Entidad in listado.columns
      modifies this
      ensures Valid() && entries == AddEntity(old(entries), listado, prefix, entity)
    {
      var name := EntryName(prefix, entity);
      var df := EntityRows(listado, entity);
      if name in entries {
        entries := entries[name := Concat(entries[name], df)];
      } else {
        entries := entries[name := df];
      }
    }

    /** `create_listados_por_entidad(listado, entities, prefix)`. The
        selection raises KeyError on a list without an `ENTIDAD` column, at
        the first entity, before any entry changes. */
    method Create(listado: Frame, entities: seq<string>, prefix: int) returns (err: Option<Error>)
      requires Valid() && WellFormed(listado)
      modifies this
      ensures Valid()
      ensures Entidad in listado.columns ==> err.None? && entries == Gathered(old(entries), listado, prefix, entities)
      ensures Entidad !in listado.columns ==>
        entries == old(entries) && (err.Some? <==> |entities| > 0) && (err.Some? ==> err.value == KeyError(Entidad))
    {
      if Entidad !in listado.columns {
        return if |entities| > 0 then Some(KeyError(Entidad)) else None;
      }
      ghost var target := Gathered(entries, listado, prefix, entities);
      assert entities[0..] == entities;
      var k := 0;
      while k < |entities|
        invariant 0 <= k <= |entities| && Valid()
        invariant target == Gathered(entries, listado, prefix, entities[k..])
      {
        GatheredStep(entries, listado, prefix, entities, k);
        Add(listado, prefix, entities[k]);
        k := k + 1;
      }
      assert entities[k..] == [];
      err := None;
    }
  }
}
