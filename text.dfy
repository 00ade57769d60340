/** The three Python string operations the menu scraper relies on:
    `str.strip()`, `str.replace(p, '')` and the substring test `p in s`. */
module Text {

  /** Python's `str.isspace()` on one character: the ASCII whitespace and
      separators plus the Unicode space characters (no-break space included). */
  predicate IsSpace(c: char) {
    || c == ' ' || c == '\t' || c == '\n' || c == '\r'
    || c == '\U{000B}' || c == '\U{000C}' || ('\U{001C}' <= c <= '\U{001F}')
    || c == '\U{0085}' || c == '\U{00A0}' || c == '\U{1680}'
    || ('\U{2000}' <= c <= '\U{200A}') || c == '\U{2028}' || c == '\U{2029}'
    || c == '\U{202F}' || c == '\U{205F}' || c == '\U{3000}'
  }

  predicate AllSpace(s: string) {
    forall i :: 0 <= i < |s| ==> IsSpace(s[i])
  }

  /** `s.lstrip()`: drop the longest all-whitespace prefix. */
  function StripLeft(s: string): (r: string)
    ensures |r| <= |s| && r == s[|s| - |r|..]
    ensures AllSpace(s[..|s| - |r|])
    ensures r != [] ==> !IsSpace(r[0])
  {
    if s != [] && IsSpace(s[0]) then
      var r := StripLeft(s[1..]);
      assert s[..|s| - |r|] == [s[0]] + s[1..][..|s| - 1 - |r|];
      r
    else s
  }

  /** `s.rstrip()`: drop the longest all-whitespace suffix. */
  function StripRight(s: string): (r: string)
    ensures |r| <= |s| && r == s[..|r|]
    ensures AllSpace(s[|r|..])
    ensures r != [] ==> !IsSpace(r[|r| - 1])
  {
    if s != [] && IsSpace(s[|s| - 1]) then
      var r := StripRight(s[..|s| - 1]);
      assert s[|r|..] == s[..|s| - 1][|r|..] + [s[|s| - 1]];
      r
    else s
  }

  /** `r` is `s[i..]` cut to its length, with only whitespace around it. */
  predicate Trims(s: string, i: int, r: string) {
    && 0 <= i <= |s| - |r| && r == s[i..i + |r|]
    && AllSpace(s[..i]) && AllSpace(s[i + |r|..])
  }

  /** `s.strip()`: the infix `s[i..j]` left once leading and trailing
      whitespace is removed; it neither starts nor ends with whitespace. */
  function Strip(s: string): (r: string)
    ensures exists i :: Trims(s, i, r)
    ensures r != [] ==> !IsSpace(r[0]) && !IsSpace(r[|r| - 1])
  {
    var l := StripLeft(s);
    var r := StripRight(l);
    var i := |s| - |l|;
    assert l == s[i..] && r == l[..|r|];
    assert r == s[i..i + |r|];
    assert s[i + |r|..] == l[|r|..];
    assert AllSpace(s[..i]) && AllSpace(s[i + |r|..]);
    assert Trims(s, i, r);
    r
  }

  /** `s.replace(p, '')`: every occurrence of `p`, found left to right
      without overlap, removed. */
  function RemoveAll(s: string, p: string): (r: string)
    requires p != []
    ensures |r| <= |s|
    decreases |s|
  {
    if |s| >= |p| && s[..|p|] == p then RemoveAll(s[|p|..], p)
    else if s == [] then []
    else [s[0]] + RemoveAll(s[1..], p)
  }

  /** `needle` occurs in `hay` starting at index `i`. */
  predicate OccursAt(hay: string, needle: string, i: int) {
    0 <= i <= |hay| - |needle| && hay[i..i + |needle|] == needle
  }

  /** `needle in hay` for strings. */
  ghost predicate Contains(hay: string, needle: string) {
    exists i :: OccursAt(hay, needle, i)
  }

  /** A computable form of `Contains`, scanning start positions from `i`. */
  function ContainsFrom(hay: string, needle: string, i: nat): (b: bool)
    requires i <= |hay|
    ensures b <==> exists j :: i <= j && OccursAt(hay, needle, j)
    decreases |hay| - i
  {
    if i + |needle| > |hay| then false
    else if hay[i..i + |needle|] == needle then assert OccursAt(hay, needle, i); true
    else ContainsFrom(hay, needle, i + 1)
  }

  function HasSubstring(hay: string, needle: string): (b: bool)
    ensures b <==> Contains(hay, needle)
  {
    ContainsFrom(hay, needle, 0)
  }

  /** Removal leaves alone a prefix that cannot start an occurrence of `p`. */
  lemma {:induction false} RemoveAllKeepsPrefix(s: string, t: string, p: string)
    requires p != []
    requires forall i :: 0 <= i < |s| ==> s[i] != p[0]
    ensures RemoveAll(s + t, p) == s + RemoveAll(t, p)
  {
    if s != [] {
      assert (s + t)[0] == s[0] != p[0];
      assert (s + t)[1..] == s[1..] + t;
      RemoveAllKeepsPrefix(s[1..], t, p);
      assert [s[0]] + (s[1..] + RemoveAll(t, p)) == s + RemoveAll(t, p);
    } else {
      assert s + t == t;
    }
  }

  /** A run of trailing whitespace is exactly what `rstrip()` removes. */
  lemma {:induction false} StripRightSpaces(s: string, w: string)
    requires s != [] ==> !IsSpace(s[|s| - 1])
    requires AllSpace(w)
    ensures StripRight(s + w) == s
    decreases |w|
  {
    if w == [] {
      assert s + w == s;
    } else {
      var w' := w[..|w| - 1];
      assert (s + w)[..|s + w| - 1] == s + w';
      StripRightSpaces(s, w');
    }
  }

  /** Trailing whitespace goes away under `strip()`. */
  lemma StripTrailingSpace(s: string, w: string)
    requires s != [] ==> !IsSpace(s[0]) && !IsSpace(s[|s| - 1])
    requires AllSpace(w)
    ensures Strip(s + w) == s
  {
    if s == [] {
      assert s + w == w;
      assert StripLeft(w) == [];
    } else {
      assert StripLeft(s + w) == s + w;
      StripRightSpaces(s, w);
    }
  }
}
