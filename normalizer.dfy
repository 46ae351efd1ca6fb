/** The text normaliser applied to every state, municipality and locality
    name before a key is built (`clean_text_inegi` and its two copies named
    `clean_text`): strip, lower-case, transliterate, delete the span between
    hyphens, collapse whitespace, strip again. A missing value passes through. */
module Normalizer {
  import opened Base
  import opened Text

  /** Where `.` stops matching: the index of the first newline, or `|s|`. */
  function LineEnd(s: string): (n: nat)
    ensures n <= |s|
    ensures forall k :: 0 <= k < n ==> s[k] != '\n'
    ensures n < |s| ==> s[n] == '\n'
    decreases |s|
  {
    if s == [] || s[0] == '\n' then 0 else 1 + LineEnd(s[1..])
  }

  /** The index of the first `-` of `s`. */
  function FirstHyphen(s: string): (r: Option<nat>)
    ensures r.None? <==> '-' !in s
    ensures r.Some? ==> r.value < |s| && s[r.value] == '-' && '-' !in s[..r.value]
    decreases |s|
  {
    if s == [] then None
    else if s[0] == '-' then Some(0)
    else match FirstHyphen(s[1..])
      case Some(i) =>
        assert s[..i + 1] == [s[0]] + s[1..][..i];
        Some(i + 1)
      case None => None
  }

  /** The index of the last `-` of `s`. */
  function LastHyphen(s: string): (r: Option<nat>)
    ensures r.None? <==> '-' !in s
    ensures r.Some? ==> r.value < |s| && s[r.value] == '-' && '-' !in s[r.value + 1..]
    decreases |s|
  {
    if s == [] then None
    else match LastHyphen(s[1..])
      case Some(j) =>
        assert s[j + 2..] == s[1..][j + 1..];
        Some(j + 1)
      case None => if s[0] == '-' then Some(0) else None
  }

  /** `re.sub('-.*-', '', s)`. Scanning from the left, a `-` opens a match that
      runs greedily to the last `-` of the same line (`.` does not match a
      newline); the match is deleted and scanning resumes after it. A `-` with
      no later `-` on its line is kept. */
  function DeleteHyphenSpans(s: string): (r: string)
    ensures multiset(r) <= multiset(s)
    decreases |s|
  {
    if s == [] then []
    else if s[0] == '-' then
      var line := s[1..][..LineEnd(s[1..])];
      match LastHyphen(line)
      case Some(j) =>
        assert s == s[..j + 2] + s[j + 2..];
        DeleteHyphenSpans(s[j + 2..])
      case None =>
        assert s == [s[0]] + s[1..];
        [s[0]] + DeleteHyphenSpans(s[1..])
    else
      assert s == [s[0]] + s[1..];
      [s[0]] + DeleteHyphenSpans(s[1..])
  }

  function HyphenCount(s: string): nat {
    multiset(s)['-']
  }

  /** With fewer than two hyphens there is nothing to match. */
  lemma {:induction false} FewHyphensUntouched(s: string)
    requires HyphenCount(s) < 2
    ensures DeleteHyphenSpans(s) == s
    decreases |s|
  {
    if s != [] {
      assert s == [s[0]] + s[1..];
      assert HyphenCount(s) == HyphenCount([s[0]]) + HyphenCount(s[1..]);
      if s[0] == '-' {
        var line := s[1..][..LineEnd(s[1..])];
        assert '-' !in s[1..];
        assert '-' !in line by {
          forall k | 0 <= k < |line| ensures line[k] != '-' {
            assert line[k] == s[1..][k];
          }
        }
      }
      FewHyphensUntouched(s[1..]);
    }
  }

  /** The last hyphen of a text is determined by the text. */
  lemma LastHyphenIs(t: string, v: nat)
    requires v < |t| && t[v] == '-' && '-' !in t[v + 1..]
    ensures LastHyphen(t) == Some(v)
  {
    assert t[v] in t;
  }

  /** A text without newlines ends its only line. */
  lemma LineEndWithoutNewline(t: string)
    requires '\n' !in t
    ensures LineEnd(t) == |t|
  {
  }

  /** A match that opens at the first character runs to the last hyphen. */
  lemma HyphenSpanAtStart(s: string, j: nat)
    requires '\n' !in s
    requires 0 < j < |s| && s[0] == '-' && s[j] == '-' && '-' !in s[j + 1..]
    ensures DeleteHyphenSpans(s) == s[j + 1..]
  {
    var t := s[1..];
    assert '\n' !in t by {
      forall k | 0 <= k < |t| ensures t[k] != '\n' { assert t[k] == s[k + 1]; assert s[k + 1] in s; }
    }
    LineEndWithoutNewline(t);
    assert t[..|t|] == t;
    assert t[j - 1] == '-' && t[j..] == s[j + 1..];
    LastHyphenIs(t, j - 1);
    assert DeleteHyphenSpans(s) == DeleteHyphenSpans(s[j + 1..]);
    assert HyphenCount(s[j + 1..]) == 0;
    FewHyphensUntouched(s[j + 1..]);
  }

  /** On one line the step deletes from the first `-` to the last `-`. */
  lemma {:induction false} HyphenSpanDeleted(s: string, i: nat, j: nat)
    requires '\n' !in s
    requires i < j < |s| && s[i] == '-' && s[j] == '-'
    requires '-' !in s[..i] && '-' !in s[j + 1..]
    ensures DeleteHyphenSpans(s) == s[..i] + s[j + 1..]
    decreases i, 1
  {
    if i == 0 {
      HyphenSpanAtStart(s, j);
      assert s[..0] + s[j + 1..] == s[j + 1..];
    } else {
      HyphenSpanDeletedLater(s, i, j);
    }
  }

  /** The step of `HyphenSpanDeleted` for a span that does not open the text:
      the first character is kept and the tail holds the span. */
  lemma {:induction false} HyphenSpanDeletedLater(s: string, i: nat, j: nat)
    requires '\n' !in s
    requires 0 < i < j < |s| && s[i] == '-' && s[j] == '-'
    requires '-' !in s[..i] && '-' !in s[j + 1..]
    ensures DeleteHyphenSpans(s) == s[..i] + s[j + 1..]
    decreases i, 0
  {
    SpanInTail(s, i, j);
    HyphenSpanDeleted(s[1..], i - 1, j - 1);
    DeleteHyphenSpansKeepsFirst(s);
    ConsOfCut(s, i, j);
  }

  /** Putting the first character back in front of the tail with a span cut
      out is cutting the same span out of the text. */
  lemma ConsOfCut(s: string, i: nat, j: nat)
    requires 0 < i <= j < |s|
    ensures [s[0]] + (s[1..][..i - 1] + s[1..][j..]) == s[..i] + s[j + 1..]
  {
    assert s[..i] == [s[0]] + s[1..][..i - 1];
    assert s[1..][j..] == s[j + 1..];
  }

  /** A first character other than `-` is kept. */
  lemma DeleteHyphenSpansKeepsFirst(s: string)
    requires s != [] && s[0] != '-'
    ensures DeleteHyphenSpans(s) == [s[0]] + DeleteHyphenSpans(s[1..])
  {
  }

  /** When the first hyphen is not at the start, the tail holds the same
      span one place earlier. */
  lemma SpanInTail(s: string, i: nat, j: nat)
    requires '\n' !in s
    requires 0 < i < j < |s| && s[i] == '-' && s[j] == '-'
    requires '-' !in s[..i] && '-' !in s[j + 1..]
    ensures s[0] != '-' && '\n' !in s[1..] && '-' !in s[1..][..i - 1] && s[1..][j..] == s[j + 1..]
  {
    assert s[0] == s[..i][0];
    var t := s[1..];
    forall k | 0 <= k < |t| ensures t[k] != '\n' {
      assert t[k] == s[k + 1];
      assert s[k + 1] in s;
    }
    forall k | 0 <= k < i - 1 ensures t[k] != '-' {
      assert t[k] == s[..i][k + 1];
    }
  }

  /** With two or more hyphens the first one comes before the last one. */
  lemma FirstHyphenBeforeLast(s: string)
    requires HyphenCount(s) >= 2
    ensures FirstHyphen(s).Some? && LastHyphen(s).Some?
    ensures FirstHyphen(s).value < LastHyphen(s).value
  {
    HyphenAfterFirst(s);
    var i := FirstHyphen(s).value;
    HyphenInSuffix(s, i + 1);
    var k :| i + 1 <= k < |s| && s[k] == '-';
    NoHyphenAfterLast(s);
    assert k <= LastHyphen(s).value;
  }

  /** With two or more hyphens, one follows the first. */
  lemma HyphenAfterFirst(s: string)
    requires HyphenCount(s) >= 2
    ensures FirstHyphen(s).Some? && '-' in s[FirstHyphen(s).value + 1..]
  {
    assert '-' in multiset(s);
    var i := FirstHyphen(s).value;
    var a, b, c := s[..i], [s[i]], s[i + 1..];
    assert s == a + b + c;
    assert multiset(s) == multiset(a) + multiset(b) + multiset(c);
    assert '-' !in multiset(a);
    assert multiset(b)['-'] == 1;
    assert '-' in multiset(c);
  }

  /** A hyphen in a suffix is a hyphen of the text at or after its start. */
  lemma HyphenInSuffix(s: string, i: nat)
    requires i <= |s| && '-' in s[i..]
    ensures exists k :: i <= k < |s| && s[k] == '-'
  {
    var k' :| 0 <= k' < |s[i..]| && s[i..][k'] == '-';
    assert s[i + k'] == '-';
  }

  /** No hyphen follows the last one. */
  lemma NoHyphenAfterLast(s: string)
    requires LastHyphen(s).Some?
    ensures forall k :: LastHyphen(s).value < k < |s| ==> s[k] != '-'
  {
    var j := LastHyphen(s).value;
    forall k | j < k < |s| ensures s[k] != '-' {
      assert s[k] == s[j + 1..][k - j - 1];
    }
  }

  /** No hyphen in either part, none in their concatenation. */
  lemma NoHyphenInJoin(a: string, b: string)
    requires '-' !in a && '-' !in b
    ensures '-' !in a + b
  {
  }

  /** On newline-free text with two or more hyphens, everything from the first
      `-` to the last `-` inclusive disappears, and no `-` is left. */
  lemma SpanBetweenHyphensDeleted(s: string)
    requires '\n' !in s && HyphenCount(s) >= 2
    ensures FirstHyphen(s).Some? && LastHyphen(s).Some?
    ensures FirstHyphen(s).value < LastHyphen(s).value
    ensures DeleteHyphenSpans(s) == s[..FirstHyphen(s).value] + s[LastHyphen(s).value + 1..]
    ensures '-' !in DeleteHyphenSpans(s)
  {
    FirstHyphenBeforeLast(s);
    var i, j := FirstHyphen(s).value, LastHyphen(s).value;
    HyphenSpanDeleted(s, i, j);
    NoHyphenInJoin(s[..i], s[j + 1..]);
  }

  /** On newline-free text the step leaves at most one hyphen. */
  lemma AtMostOneHyphenLeft(s: string)
    requires '\n' !in s
    ensures HyphenCount(DeleteHyphenSpans(s)) <= 1
  {
    if HyphenCount(s) < 2 {
      FewHyphensUntouched(s);
    } else {
      SpanBetweenHyphensDeleted(s);
    }
  }

  /** Every whitespace character is a space and none follows another. */
  predicate Collapsed(s: string) {
    && (forall k :: 0 <= k < |s| && IsSpace(s[k]) ==> s[k] == ' ')
    && (forall k :: 0 <= k < |s| - 1 && IsSpace(s[k]) ==> !IsSpace(s[k + 1]))
  }

  /** The characters of `s` that are not whitespace, in order. */
  function NonSpaces(s: string): string
    decreases |s|
  {
    if s == [] then [] else (if IsSpace(s[0]) then [] else [s[0]]) + NonSpaces(s[1..])
  }

  lemma {:induction false} NonSpacesTrimStart(s: string)
    ensures NonSpaces(TrimStart(s)) == NonSpaces(s)
    decreases |s|
  {
    if s != [] && IsSpace(s[0]) {
      NonSpacesTrimStart(s[1..]);
    }
  }

  lemma CollapsedCons(c: char, r: string)
    requires Collapsed(r)
    requires IsSpace(c) ==> c == ' ' && (r != [] ==> !IsSpace(r[0]))
    ensures Collapsed([c] + r)
  {
    var s := [c] + r;
    forall k | 0 <= k < |s| && IsSpace(s[k]) ensures s[k] == ' ' && (k + 1 < |s| ==> !IsSpace(s[k + 1])) {
      if k > 0 {
        assert s[k] == r[k - 1];
        if k + 1 < |s| { assert s[k + 1] == r[k]; }
      }
    }
  }

  /** `re.sub('\s+', ' ', s)`: each whitespace run becomes one space; all other
      characters are kept, in order (`CollapseShape`). */
  function Collapse(s: string): (r: string)
    ensures |r| <= |s|
    ensures s != [] ==> r != []
    decreases |s|
  {
    if s == [] then []
    else if IsSpace(s[0]) then [' '] + Collapse(TrimStart(s[1..]))
    else [s[0]] + Collapse(s[1..])
  }

  /** `Collapse` starts where `s` starts, with a space for a whitespace run. */
  lemma CollapseHead(s: string)
    requires s != []
    ensures IsSpace(s[0]) ==> Collapse(s)[0] == ' '
    ensures !IsSpace(s[0]) ==> Collapse(s)[0] == s[0]
  {
  }

  /** Every whitespace run of the result is one space. */
  lemma {:induction false} CollapseCollapsed(s: string)
    ensures Collapsed(Collapse(s))
    decreases |s|
  {
    if s != [] {
      if IsSpace(s[0]) {
        var t := TrimStart(s[1..]);
        CollapseCollapsed(t);
        if t != [] { CollapseHead(t); }
        CollapsedCons(' ', Collapse(t));
      } else {
        CollapseCollapsed(s[1..]);
        CollapsedCons(s[0], Collapse(s[1..]));
      }
    }
  }

  /** All other characters are kept, in order. */
  lemma {:induction false} CollapseNonSpaces(s: string)
    ensures NonSpaces(Collapse(s)) == NonSpaces(s)
    decreases |s|
  {
    if s != [] {
      if IsSpace(s[0]) {
        var t := TrimStart(s[1..]);
        CollapseNonSpaces(t);
        NonSpacesTrimStart(s[1..]);
        assert NonSpaces([' '] + Collapse(t)) == NonSpaces(Collapse(t));
      } else {
        CollapseNonSpaces(s[1..]);
        assert NonSpaces([s[0]] + Collapse(s[1..])) == [s[0]] + NonSpaces(Collapse(s[1..]));
      }
    }
  }

  /** A character of `s` that is not whitespace is kept by `NonSpaces`, and
      `NonSpaces` invents nothing. */
  lemma {:induction false} NonSpacesMembers(s: string, c: char)
    ensures c in NonSpaces(s) <==> c in s && !IsSpace(c)
    decreases |s|
  {
    if s != [] {
      NonSpacesMembers(s[1..], c);
      assert s == [s[0]] + s[1..];
    }
  }

  lemma {:induction false} NonSpacesHyphens(s: string)
    ensures HyphenCount(NonSpaces(s)) == HyphenCount(s)
    decreases |s|
  {
    if s != [] {
      NonSpacesHyphens(s[1..]);
      assert s == [s[0]] + s[1..];
      var h := if IsSpace(s[0]) then [] else [s[0]];
      assert NonSpaces(s) == h + NonSpaces(s[1..]);
      assert multiset(NonSpaces(s)) == multiset(h) + multiset(NonSpaces(s[1..]));
      assert multiset(s) == multiset([s[0]]) + multiset(s[1..]);
    }
  }

  /** Collapsing collapsed text changes nothing. */
  lemma {:induction false} CollapseOfCollapsed(s: string)
    requires Collapsed(s)
    ensures Collapse(s) == s
    decreases |s|
  {
    if s != [] {
      CollapsedSlice(s, 1, |s|);
      assert s[1..|s|] == s[1..];
      if IsSpace(s[0]) {
        assert TrimStart(s[1..]) == s[1..];
      }
      CollapseOfCollapsed(s[1..]);
      assert s == [s[0]] + s[1..];
    }
  }

  lemma CollapsedSlice(s: string, a: nat, b: nat)
    requires Collapsed(s) && a <= b <= |s|
    ensures Collapsed(s[a..b])
  {
    var t := s[a..b];
    forall k | 0 <= k < |t| && IsSpace(t[k]) ensures t[k] == ' ' && (k + 1 < |t| ==> !IsSpace(t[k + 1])) {
      assert t[k] == s[a + k];
      if k + 1 < |t| { assert t[k + 1] == s[a + k + 1]; }
    }
  }

  lemma CollapsedSuffix(s: string, a: nat)
    requires Collapsed(s) && a <= |s|
    ensures Collapsed(s[a..])
  {
    CollapsedSlice(s, a, |s|);
    assert s[a..|s|] == s[a..];
  }

  lemma CollapsedPrefix(s: string, b: nat)
    requires Collapsed(s) && b <= |s|
    ensures Collapsed(s[..b])
  {
    CollapsedSlice(s, 0, b);
    assert s[0..b] == s[..b];
  }

  lemma CollapsedStrip(s: string)
    requires Collapsed(s)
    ensures Collapsed(Strip(s))
  {
    var t := TrimStart(s);
    CollapsedSuffix(s, |s| - |t|);
    CollapsedPrefix(t, |TrimEnd(t)|);
  }

  /** The whole normaliser on a string. The final `re.sub('^\s+|\s+?$', '', _)`
      removes exactly the leading and trailing whitespace runs, so it is `Strip`. */
  function CleanString(tr: string -> string, x: string): (r: string)
    ensures Stripped(r) && Collapsed(r)
  {
    var d := DeleteHyphenSpans(tr(LowerStr(Strip(x))));
    CollapseCollapsed(d);
    CollapsedStrip(Collapse(d));
    Strip(Collapse(d))
  }

  /** `clean_text_inegi` (and `clean_text`) applied to one cell: a missing value
      is returned as it is, text is normalised, and a number raises because it
      has no `strip` method. */
  function CleanText(tr: string -> string, c: Cell): (r: Result<Cell>)
    ensures c.NaN? ==> r == Ok(NaN)
    ensures c.Str? ==> r.Ok? && r.value.Str? && Stripped(r.value.s) && Collapsed(r.value.s)
    ensures c.Num? ==> r == Err(AttributeError)
  {
    match c
    case NaN => Ok(NaN)
    case Str(s) => Ok(Str(CleanString(tr, s)))
    case Num(_) => Err(AttributeError)
  }

  /** Lower-case ASCII: what the transliteration is assumed to produce. */
  predicate FoldedChar(c: char) {
    c as int < 128 && !('A' <= c <= 'Z')
  }

  predicate Folded(s: string) {
    forall k :: 0 <= k < |s| ==> FoldedChar(s[k])
  }

  /** What the idempotence of the normaliser needs from unidecode: it yields
      lower-case ASCII, leaves lower-case ASCII alone, and adds no newline. */
  ghost predicate TranslitAssumptions(tr: string -> string) {
    && (forall s :: Folded(tr(s)))
    && (forall s :: Folded(s) ==> tr(s) == s)
    && (forall s :: '\n' !in s ==> '\n' !in tr(s))
  }

  lemma FoldedSub(r: string, s: string)
    requires Folded(s) && multiset(r) <= multiset(s)
    ensures Folded(r)
  {
    forall k | 0 <= k < |r| ensures FoldedChar(r[k]) {
      assert r[k] in multiset(r);
      assert r[k] in s;
    }
  }

  lemma LowerOfFolded(s: string)
    requires Folded(s)
    ensures LowerStr(s) == s
  {
  }

  lemma LowerKeepsNewlineOut(s: string)
    requires '\n' !in s
    ensures '\n' !in LowerStr(s)
  {
    var l := LowerStr(s);
    forall k | 0 <= k < |l| ensures l[k] != '\n' {
      assert s[k] in s;
    }
  }

  lemma NoNewlineReachesTranslit(x: string)
    requires '\n' !in x
    ensures '\n' !in LowerStr(Strip(x))
  {
    LowerKeepsNewlineOut(Strip(x));
  }

  lemma {:induction false} NonSpacesFolded(s: string)
    requires Folded(s)
    ensures Folded(NonSpaces(s))
    decreases |s|
  {
    if s != [] {
      NonSpacesFolded(s[1..]);
    }
  }

  lemma {:induction false} FoldedFromNonSpaces(s: string)
    requires Folded(NonSpaces(s))
    requires forall k :: 0 <= k < |s| && IsSpace(s[k]) ==> s[k] == ' '
    ensures Folded(s)
    decreases |s|
  {
    if s != [] {
      var h := if IsSpace(s[0]) then [] else [s[0]];
      assert NonSpaces(s) == h + NonSpaces(s[1..]);
      assert NonSpaces(s[1..]) == NonSpaces(s)[|h|..];
      FoldedFromNonSpaces(s[1..]);
      if IsSpace(s[0]) {
        assert s[0] == ' ';
      } else {
        assert NonSpaces(s)[0] == s[0];
      }
    }
  }

  lemma CollapsedAt(s: string, k: nat)
    requires Collapsed(s) && k < |s| && IsSpace(s[k])
    ensures s[k] == ' '
  {
  }

  lemma CollapseKeepsFolded(d: string)
    requires Folded(d)
    ensures Folded(Collapse(d)) && HyphenCount(Collapse(d)) == HyphenCount(d)
  {
    var c := Collapse(d);
    CollapseCollapsed(d);
    CollapseNonSpaces(d);
    NonSpacesHyphens(c);
    NonSpacesHyphens(d);
    NonSpacesFolded(d);
    forall k | 0 <= k < |c| && IsSpace(c[k]) ensures c[k] == ' ' {
      CollapsedAt(c, k);
    }
    FoldedFromNonSpaces(c);
  }

  /** Facts about one normalised string used by the idempotence proof. */
  lemma CleanStringShape(tr: string -> string, x: string)
    requires TranslitAssumptions(tr) && '\n' !in x
    ensures Folded(CleanString(tr, x)) && HyphenCount(CleanString(tr, x)) <= 1
  {
    var l := LowerStr(Strip(x));
    NoNewlineReachesTranslit(x);
    var t := tr(l);
    assert Folded(t) && '\n' !in t;
    var d := DeleteHyphenSpans(t);
    FoldedSub(d, t);
    AtMostOneHyphenLeft(t);
    var c := Collapse(d);
    CollapseKeepsFolded(d);
    var y := Strip(c);
    assert y == CleanString(tr, x);
    FoldedSub(y, c);
    assert multiset(y)['-'] <= multiset(c)['-'];
  }

  /** Normalising normalised newline-free text changes nothing, when the
      transliteration meets its assumptions. */
  lemma CleanStringIdempotent(tr: string -> string, x: string)
    requires TranslitAssumptions(tr) && '\n' !in x
    ensures CleanString(tr, CleanString(tr, x)) == CleanString(tr, x)
  {
    var y := CleanString(tr, x);
    CleanStringShape(tr, x);
    StripOfStripped(y);
    LowerOfFolded(y);
    assert tr(y) == y;
    FewHyphensUntouched(y);
    CollapseOfCollapsed(y);
  }

  /** The same on cells: a second application returns the first result. */
  lemma CleanTextIdempotent(tr: string -> string, c: Cell)
    requires TranslitAssumptions(tr)
    requires c.Str? ==> '\n' !in c.s
    ensures CleanText(tr, c).Ok? ==> CleanText(tr, CleanText(tr, c).value) == CleanText(tr, c)
  {
    if c.Str? {
      CleanStringIdempotent(tr, c.s);
    }
  }

  /** A transliteration meeting the assumptions: lower-case ASCII is kept and
      every other character becomes `?`. */
  function AsciiFold(s: string): (r: string)
    ensures |r| == |s| && Folded(r)
  {
    seq(|s|, k requires 0 <= k < |s| => if FoldedChar(s[k]) then s[k] else '?')
  }

  lemma AsciiFoldMeetsAssumptions()
    ensures TranslitAssumptions(AsciiFold)
  {
    forall s | Folded(s) ensures AsciiFold(s) == s {
    }
    forall s | '\n' !in s ensures '\n' !in AsciiFold(s) {
      var r := AsciiFold(s);
      forall k | 0 <= k < |r| ensures r[k] != '\n' {
        assert s[k] in s;
      }
    }
  }
}
