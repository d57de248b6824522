/**
 * The parts of Python's `str` that the herb pipeline relies on, over
 * `string` (a sequence of Unicode scalar values): `isspace`, `strip`,
 * `find`, `startswith`, the `in` operator and slicing.
 */
module Strings {
  import opened Wrappers

  /** Python's `str.isspace` on one character: the characters of Unicode
      category Zs and of bidirectional class WS, B or S. U+3000, the
      ideographic space, is one of them. */
  predicate IsSpace(c: char)
  {
    || ('\t' <= c <= '\r')                      // U+0009 .. U+000D
    || ('\U{1C}' <= c <= '\U{1F}')              // file, group, record, unit separators
    || c == ' '
    || c == '\U{85}' || c == '\U{A0}' || c == '\U{1680}'
    || ('\U{2000}' <= c <= '\U{200A}')
    || c == '\U{2028}' || c == '\U{2029}' || c == '\U{202F}' || c == '\U{205F}'
    || c == '\U{3000}'
  }

  predicate AllSpace(s: string)
  {
    forall k :: 0 <= k < |s| ==> IsSpace(s[k])
  }

  /** `pat` occurs in `s` starting at index `k`. */
  predicate OccursAt(s: string, pat: string, k: nat)
  {
    k + |pat| <= |s| && s[k..k + |pat|] == pat
  }

  /** `pat` occurs somewhere in `s`. */
  ghost predicate IsSubstring(pat: string, s: string)
  {
    exists k: nat :: OccursAt(s, pat, k)
  }

  /** Python's `s.find(pat, start)`: the first index at or after `start` where
      `pat` occurs, `None` standing for Python's `-1`. */
  function Find(s: string, pat: string, start: nat): (r: Option<nat>)
    requires start <= |s|
    ensures r.Some? ==> start <= r.value && OccursAt(s, pat, r.value)
    ensures forall k: nat :: start <= k && OccursAt(s, pat, k) ==> r.Some? && r.value <= k
    decreases |s| - start
  {
    if start + |pat| > |s| then None
    else if s[start..start + |pat|] == pat then Some(start)
    else Find(s, pat, start + 1)
  }
  /** The first index of `c` at or after `from`, or `|s|` when there is none. */
  function IndexOfChar(s: string, c: char, from: nat): (e: nat)
    requires from <= |s|
    ensures from <= e <= |s|
    ensures e < |s| ==> s[e] == c
    ensures forall k :: from <= k < e ==> s[k] != c
    decreases |s| - from
  {
    if from == |s| || s[from] == c then from
    else IndexOfChar(s, c, from + 1)
  }

  /** Searching for a one-character string finds the first index of that character. */
  lemma {:induction false} FindChar(s: string, c: char, from: nat)
    requires from <= |s|
    ensures var e := IndexOfChar(s, c, from);
      Find(s, [c], from) == if e < |s| then Some(e) else None
  {
    var e := IndexOfChar(s, c, from);
    forall k: nat | k < |s| ensures OccursAt(s, [c], k) <==> s[k] == c {
      assert |s[k..k + 1]| == 1 && s[k..k + 1][0] == s[k];
    }
  }


  /** Python's `q in s` for two strings. */
  function Contains(s: string, q: string): (r: bool)
    ensures r <==> IsSubstring(q, s)
  {
    Find(s, q, 0).Some?
  }

  /** Python's `s.startswith(p)`. */
  predicate StartsWith(s: string, p: string)
  {
    OccursAt(s, p, 0)
  }

  /** Python's `s[a:b]` for indices inside the string: empty when `a >= b`. */
  function Slice(s: string, a: nat, b: nat): (r: string)
    requires a <= |s| && b <= |s|
    ensures |r| == if a < b then b - a else 0
    ensures forall k :: 0 <= k < |r| ==> r[k] == s[a + k]
  {
    if a < b then s[a..b] else []
  }

  /** Python's `str.lstrip()`: drops leading whitespace. */
  function TrimLeft(s: string): (r: string)
    ensures |r| <= |s|
  {
    if |s| > 0 && IsSpace(s[0]) then TrimLeft(s[1..]) else s
  }

  /** Python's `str.rstrip()`: drops trailing whitespace. */
  function TrimRight(s: string): (r: string)
    ensures |r| <= |s|
  {
    if |s| > 0 && IsSpace(s[|s| - 1]) then TrimRight(s[..|s| - 1]) else s
  }

  /** `lstrip` removes a whitespace prefix and stops at the first other character. */
  lemma {:induction false} TrimLeftSpan(s: string)
    ensures var r := TrimLeft(s);
      && r == s[|s| - |r|..]
      && AllSpace(s[..|s| - |r|])
      && (r == [] || !IsSpace(r[0]))
  {
    if |s| > 0 && IsSpace(s[0]) {
      TrimLeftSpan(s[1..]);
      var r := TrimLeft(s);
      assert s[..|s| - |r|] == [s[0]] + s[1..][..|s| - 1 - |r|];
    }
  }

  /** `rstrip` removes a whitespace suffix and stops at the last other character. */
  lemma {:induction false} TrimRightSpan(s: string)
    ensures var r := TrimRight(s);
      && r == s[..|r|]
      && AllSpace(s[|r|..])
      && (r == [] || !IsSpace(r[|r| - 1]))
  {
    if |s| > 0 && IsSpace(s[|s| - 1]) {
      TrimRightSpan(s[..|s| - 1]);
      var r := TrimRight(s);
      assert s[|r|..] == s[..|s| - 1][|r|..] + [s[|s| - 1]];
    }
  }

  /** `s` is whitespace, then `r` starting at index `a`, then whitespace. */
  predicate SpacesAround(s: string, a: nat, r: string)
  {
    a + |r| <= |s| && AllSpace(s[..a]) && s[a..a + |r|] == r && AllSpace(s[a + |r|..])
  }

  /** Where `Strip(s)` begins inside `s`. */
  function StripOffset(s: string): nat
  {
    |TrimRight(s)| - |TrimLeft(TrimRight(s))|
  }

  /** Python's `str.strip()`: `s` with leading and trailing whitespace removed. */
  function Strip(s: string): (r: string)
    ensures r == [] || (!IsSpace(r[0]) && !IsSpace(r[|r| - 1]))
  {
    TrimRightSpan(s);
    TrimLeftSpan(TrimRight(s));
    TrimLeft(TrimRight(s))
  }

  /** `strip` keeps one contiguous span of `s` and drops only whitespace
      around it; with the ensures of Strip this determines the result. */
  lemma {:induction false} StripSpan(s: string)
    ensures SpacesAround(s, StripOffset(s), Strip(s))
  {
    var t := TrimRight(s);
    var r := TrimLeft(t);
    TrimRightSpan(s);
    TrimLeftSpan(t);
    var a := |t| - |r|;
    assert s[..a] == t[..a];
    assert s[a..a + |r|] == t[a..];
    assert s[a + |r|..] == s[|t|..];
  }

  /** Adjacent slices join up. */
  lemma {:induction false} SliceJoin(s: string, a: nat, b: nat, c: nat)
    requires a <= b <= c <= |s|
    ensures s[a..c] == s[a..b] + s[b..c]
  {
  }

  /** The pieces of `s` laid end to end. */
  function Concat(pieces: seq<string>): string
  {
    if pieces == [] then [] else pieces[0] + Concat(pieces[1..])
  }

  /** Cut points into `s`, in order. */
  predicate Cuts(s: string, cuts: seq<nat>)
  {
    && |cuts| > 0
    && (forall j :: 0 <= j < |cuts| ==> cuts[j] <= |s|)
    && (forall j :: 0 < j < |cuts| ==> cuts[j - 1] <= cuts[j])
  }

  /** The slices of `s` between consecutive cut points. */
  function Pieces(s: string, cuts: seq<nat>): (r: seq<string>)
    requires Cuts(s, cuts)
    ensures |r| == |cuts| - 1
    ensures forall j :: 0 <= j < |r| ==> r[j] == s[cuts[j]..cuts[j + 1]]
  {
    seq(|cuts| - 1, j requires 0 <= j < |cuts| - 1 => s[cuts[j]..cuts[j + 1]])
  }

  /** The slices between consecutive cut points join up into the slice
      from the first cut point to the last: nothing is lost or repeated. */
  lemma {:induction false} ConcatPieces(s: string, cuts: seq<nat>)
    requires Cuts(s, cuts)
    ensures cuts[0] <= cuts[|cuts| - 1] && Concat(Pieces(s, cuts)) == s[cuts[0]..cuts[|cuts| - 1]]
    decreases |cuts|
  {
    if |cuts| > 1 {
      var tail := cuts[1..];
      assert Pieces(s, cuts)[1..] == Pieces(s, tail);
      ConcatPieces(s, tail);
      assert tail[0] == cuts[1] && tail[|tail| - 1] == cuts[|cuts| - 1];
      SliceJoin(s, cuts[0], cuts[1], cuts[|cuts| - 1]);
    }
  }
}
