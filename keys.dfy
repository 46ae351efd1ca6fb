/** Composite keys and codes: `astype(str)`, the hyphen-joined keys built on
    both sides of every match, `str.split('-')` that undoes them, and
    `str.zfill` for the INEGI codes. */
module Keys {
  import opened Base
  import opened Text

  /** pandas `astype(str)` on one cell: a missing value becomes the text "nan". */
  function AsStr(c: Cell): string {
    match c
    case NaN => "nan"
    case Str(s) => s
    case Num(n) => IntToString(n)
  }

  /** Python's `s.split(sep)` for a one-character separator. */
  function Split(s: string, sep: char): (parts: seq<string>)
    ensures |parts| >= 1
    ensures forall k :: 0 <= k < |parts| ==> sep !in parts[k]
    decreases |s|
  {
    if s == [] then [[]]
    else
      var rest := Split(s[1..], sep);
      if s[0] == sep then [[]] + rest else [[s[0]] + rest[0]] + rest[1..]
  }

  /** Python's `sep.join(parts)`. */
  function Join(parts: seq<string>, sep: char): string
    requires parts != []
    decreases |parts|
  {
    if |parts| == 1 then parts[0] else parts[0] + [sep] + Join(parts[1..], sep)
  }

  /** Joining the pieces of a split gives back the text. */
  lemma {:induction false} JoinSplit(s: string, sep: char)
    ensures Join(Split(s, sep), sep) == s
    decreases |s|
  {
    if s != [] {
      JoinSplit(s[1..], sep);
      var rest := Split(s[1..], sep);
      if s[0] != sep && |rest| > 1 {
        assert Join(rest, sep) == rest[0] + [sep] + Join(rest[1..], sep);
        assert ([s[0]] + rest[0]) + [sep] + Join(rest[1..], sep) == [s[0]] + Join(rest, sep);
      }
    }
  }

  /** Splitting `a + sep + b` splits `a` and `b` separately. */
  lemma {:induction false} SplitAppend(a: string, b: string, sep: char)
    ensures Split(a + [sep] + b, sep) == Split(a, sep) + Split(b, sep)
    decreases |a|
  {
    var s := a + [sep] + b;
    if a == [] {
      assert s[0] == sep && s[1..] == b;
    } else {
      assert s[0] == a[0] && s[1..] == a[1..] + [sep] + b;
      SplitAppend(a[1..], b, sep);
      var rest, ra, rb := Split(s[1..], sep), Split(a[1..], sep), Split(b, sep);
      assert rest == ra + rb;
      if a[0] != sep {
        assert Split(s, sep) == [[a[0]] + rest[0]] + rest[1..];
        assert Split(a, sep) == [[a[0]] + ra[0]] + ra[1..];
        assert rest[0] == ra[0] && rest[1..] == ra[1..] + rb;
      }
    }
  }

  /** A text without the separator splits into itself. */
  lemma {:induction false} SplitWithoutSeparator(a: string, sep: char)
    requires sep !in a
    ensures Split(a, sep) == [a]
    decreases |a|
  {
    if a != [] {
      assert a[0] != sep && forall k :: 1 <= k < |a| ==> a[1..][k - 1] == a[k];
      SplitWithoutSeparator(a[1..], sep);
      assert [a[0]] + a[1..] == a;
    }
  }

  /** The composite key `a.astype(str) + '-' + b.astype(str)`. */
  function JoinKey(a: Cell, b: Cell): Cell {
    Str(AsStr(a) + "-" + AsStr(b))
  }

  /** When neither component holds a hyphen, splitting the key at `-` gives
      back both components. */
  lemma SplitJoinKey(a: Cell, b: Cell)
    requires '-' !in AsStr(a) && '-' !in AsStr(b)
    ensures JoinKey(a, b).Str? && Split(JoinKey(a, b).s, '-') == [AsStr(a), AsStr(b)]
  {
    assert AsStr(a) + "-" + AsStr(b) == AsStr(a) + ['-'] + AsStr(b);
    SplitAppend(AsStr(a), AsStr(b), '-');
    SplitWithoutSeparator(AsStr(a), '-');
    SplitWithoutSeparator(AsStr(b), '-');
  }

  /** Hyphen-free components are determined by their key. */
  lemma JoinKeyInjective(a: Cell, b: Cell, c: Cell, d: Cell)
    requires '-' !in AsStr(a) && '-' !in AsStr(b) && '-' !in AsStr(c) && '-' !in AsStr(d)
    requires JoinKey(a, b) == JoinKey(c, d)
    ensures AsStr(a) == AsStr(c) && AsStr(b) == AsStr(d)
  {
    SplitJoinKey(a, b);
    SplitJoinKey(c, d);
  }

  /** With a hyphen inside a component two different pairs share one key. */
  lemma JoinKeyCollision()
    ensures JoinKey(Str("a-b"), Str("c")) == JoinKey(Str("a"), Str("b-c"))
    ensures AsStr(Str("a-b")) != AsStr(Str("a"))
  {
  }

  /** A missing component enters the key as the text "nan". */
  lemma JoinKeyOfMissing(b: Cell)
    ensures JoinKey(NaN, b) == Str("nan-" + AsStr(b))
    ensures JoinKey(b, NaN) == Str(AsStr(b) + "-nan")
  {
  }

  function Zeros(n: nat): (r: string)
    ensures |r| == n && forall k :: 0 <= k < n ==> r[k] == '0'
  {
    seq(n, k => '0')
  }

  /** The text starts with a sign, which `zfill` keeps in front. */
  predicate Signed(s: string) {
    s != [] && (s[0] == '+' || s[0] == '-')
  }

  /** Python's `s.zfill(width)`. */
  function ZFill(s: string, width: nat): (r: string)
    ensures |r| == if |s| >= width then |s| else width
    ensures |s| >= width ==> r == s
    ensures !Signed(s) ==> EndsWith(r, s) && forall k :: 0 <= k < |r| - |s| ==> r[k] == '0'
    ensures Signed(s) ==>
      r[0] == s[0] && EndsWith(r, s[1..]) && forall k :: 1 <= k <= |r| - |s| ==> r[k] == '0'
  {
    if |s| >= width then s
    else if Signed(s) then [s[0]] + Zeros(width - |s|) + s[1..]
    else Zeros(width - |s|) + s
  }

  /** Padding twice to the same width is padding once. */
  lemma ZFillIdempotent(s: string, width: nat)
    ensures ZFill(ZFill(s, width), width) == ZFill(s, width)
  {
  }

  /** `column.astype(str).str.zfill(width)` on one cell. */
  function ZFillCell(c: Cell, width: nat): (r: Cell)
    ensures r.Str? && |r.s| >= width && |r.s| >= |AsStr(c)|
    ensures c.Str? && !Signed(c.s) ==> EndsWith(r.s, c.s)
  {
    Str(ZFill(AsStr(c), width))
  }

  /** A missing code is not padded away: it becomes the text "nan". */
  lemma ZFillMissing()
    ensures ZFillCell(NaN, 2) == Str("nan") && ZFillCell(NaN, 4) == Str("0nan")
  {
  }
}
