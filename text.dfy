/** Character-level helpers shared by the four outline modes: the whitespace
    class behind the regex `\s` and `str.strip()`, Python's `str * int`,
    `startswith`, and the maximal-run and trimming primitives that replace the
    modes' regular expressions. */
module Text {

  /** One fixed whitespace set, used both for the regex class `\s` and for
      `str.strip()`: space, and the consecutive code points tab, line feed,
      vertical tab, form feed and carriage return. */
  predicate IsWhitespace(c: char) {
    c == ' ' || '\t' <= c <= '\r'
  }

  predicate AllWhitespace(s: string) {
    forall k :: 0 <= k < |s| ==> IsWhitespace(s[k])
  }

  /** Python's `s.startswith(p)`. */
  predicate StartsWith(s: string, p: string) {
    |p| <= |s| && s[..|p|] == p
  }

  /** Python's `s * n`: `n` copies of `s`, and the empty string when `n <= 0`. */
  function Repeat(s: string, n: int): string
    decreases if n <= 0 then 0 else n
  {
    if n <= 0 then "" else s + Repeat(s, n - 1)
  }

  /** A run of `n` copies of one character is exactly `max(n, 0)` copies of it. */
  lemma {:induction false} RepeatChar(c: char, n: int)
    ensures |Repeat([c], n)| == if n <= 0 then 0 else n
    ensures forall k :: 0 <= k < |Repeat([c], n)| ==> Repeat([c], n)[k] == c
    decreases if n <= 0 then 0 else n
  {
    if n > 0 {
      RepeatChar(c, n - 1);
      assert Repeat([c], n) == [c] + Repeat([c], n - 1);
    }
  }

  /** `s * n` has `n * |s|` characters (none when `n <= 0`), all taken from `s`. */
  lemma {:induction false} RepeatShape(s: string, n: int)
    ensures |Repeat(s, n)| == if n <= 0 then 0 else n * |s|
    ensures forall c :: c in Repeat(s, n) ==> c in s
    decreases if n <= 0 then 0 else n
  {
    if n > 0 {
      RepeatShape(s, n - 1);
      assert Repeat(s, n) == s + Repeat(s, n - 1);
      assert n * |s| == |s| + (n - 1) * |s|;
    }
  }

  /** End of the maximal run of `c` in `s` that starts at index `i`: the
      index where a greedy `c+` or `c*` starting at `i` stops. */
  function RunEnd(s: string, c: char, i: nat): (j: nat)
    requires i <= |s|
    ensures i <= j <= |s|
    decreases |s| - i
  {
    if i == |s| || s[i] != c then i else RunEnd(s, c, i + 1)
  }

  /** The run is made of `c` and is maximal: it ends at the end of `s` or at
      a character other than `c`. */
  lemma {:induction false} RunEndSpec(s: string, c: char, i: nat)
    requires i <= |s|
    ensures forall k :: i <= k < RunEnd(s, c, i) ==> s[k] == c
    ensures RunEnd(s, c, i) == |s| || s[RunEnd(s, c, i)] != c
    decreases |s| - i
  {
    if i < |s| && s[i] == c {
      RunEndSpec(s, c, i + 1);
    }
  }

  /** Conversely, a maximal run of `c` from `i` to `j` is the one `RunEnd`
      finds. */
  lemma {:induction false} RunEndOf(s: string, c: char, i: nat, j: nat)
    requires i <= j <= |s|
    requires forall k :: i <= k < j ==> s[k] == c
    requires j == |s| || s[j] != c
    ensures RunEnd(s, c, i) == j
    decreases j - i
  {
    if i < j {
      RunEndOf(s, c, i + 1, j);
    }
  }

  /** End of the maximal run of characters other than `c` that starts at
      index `i`: where a greedy `[^c]+` starting at `i` stops. */
  function RunEndExcept(s: string, c: char, i: nat): (j: nat)
    requires i <= |s|
    ensures i <= j <= |s|
    decreases |s| - i
  {
    if i == |s| || s[i] == c then i else RunEndExcept(s, c, i + 1)
  }

  /** The run holds no `c` and is maximal: it ends at the end of `s` or at
      a `c`. */
  lemma {:induction false} RunEndExceptSpec(s: string, c: char, i: nat)
    requires i <= |s|
    ensures forall k :: i <= k < RunEndExcept(s, c, i) ==> s[k] != c
    ensures RunEndExcept(s, c, i) == |s| || s[RunEndExcept(s, c, i)] == c
    decreases |s| - i
  {
    if i < |s| && s[i] != c {
      RunEndExceptSpec(s, c, i + 1);
    }
  }

  /** Conversely, a maximal `c`-free run from `i` to `j` is the one
      `RunEndExcept` finds. */
  lemma {:induction false} RunEndExceptOf(s: string, c: char, i: nat, j: nat)
    requires i <= j <= |s|
    requires forall k :: i <= k < j ==> s[k] != c
    requires j == |s| || s[j] == c
    ensures RunEndExcept(s, c, i) == j
    decreases j - i
  {
    if i < j {
      RunEndExceptOf(s, c, i + 1, j);
    }
  }

  /** End of the maximal whitespace run that starts at index `i`: where a
      greedy `\s*` starting at `i` stops. */
  function SpaceEnd(s: string, i: nat): (j: nat)
    requires i <= |s|
    ensures i <= j <= |s|
    decreases |s| - i
  {
    if i == |s| || !IsWhitespace(s[i]) then i else SpaceEnd(s, i + 1)
  }

  /** The run is whitespace and is maximal: it ends at the end of `s` or at
      a non-whitespace character. */
  lemma {:induction false} SpaceEndSpec(s: string, i: nat)
    requires i <= |s|
    ensures forall k :: i <= k < SpaceEnd(s, i) ==> IsWhitespace(s[k])
    ensures SpaceEnd(s, i) == |s| || !IsWhitespace(s[SpaceEnd(s, i)])
    decreases |s| - i
  {
    if i < |s| && IsWhitespace(s[i]) {
      SpaceEndSpec(s, i + 1);
    }
  }

  /** Conversely, a maximal whitespace run from `i` to `j` is the one
      `SpaceEnd` finds. */
  lemma {:induction false} SpaceEndOf(s: string, i: nat, j: nat)
    requires i <= j <= |s|
    requires forall k :: i <= k < j ==> IsWhitespace(s[k])
    requires j == |s| || !IsWhitespace(s[j])
    ensures SpaceEnd(s, i) == j
    decreases j - i
  {
    if i < j {
      SpaceEndOf(s, i + 1, j);
    }
  }

  /** Start of the maximal whitespace run that ends at index `j`. */
  function SpaceStart(s: string, j: nat): (i: nat)
    requires j <= |s|
    ensures i <= j
  {
    if j == 0 || !IsWhitespace(s[j - 1]) then j else SpaceStart(s, j - 1)
  }

  /** That run is whitespace and is maximal: it starts at the start of `s`
      or right after a non-whitespace character. */
  lemma {:induction false} SpaceStartSpec(s: string, j: nat)
    requires j <= |s|
    ensures forall k :: SpaceStart(s, j) <= k < j ==> IsWhitespace(s[k])
    ensures SpaceStart(s, j) == 0 || !IsWhitespace(s[SpaceStart(s, j) - 1])
  {
    if j > 0 && IsWhitespace(s[j - 1]) {
      SpaceStartSpec(s, j - 1);
    }
  }

  /** `s` without its leading whitespace: the first half of `str.strip()`. */
  function TrimLeft(s: string): string {
    s[SpaceEnd(s, 0)..]
  }

  /** `s` without its trailing whitespace. */
  function TrimRight(s: string): string {
    s[..SpaceStart(s, |s|)]
  }

  /** Python's `str.strip()`: `s` without leading and trailing whitespace. */
  function Strip(s: string): string {
    TrimRight(TrimLeft(s))
  }

  /** Stripping whitespace `w` followed by a text `t` that starts and ends
      with a non-whitespace character leaves `t`. */
  lemma StripAfterGap(w: string, t: string)
    requires AllWhitespace(w)
    requires t != [] && !IsWhitespace(t[0]) && !IsWhitespace(t[|t| - 1])
    ensures Strip(w + t) == t
  {
    var s := w + t;
    SpaceEndOf(s, 0, |w|);
    assert TrimLeft(s) == t;
  }

  /** `Strip(s)` is the slice of `s` between its leading and its trailing
      whitespace: it keeps everything from the first to the last
      non-whitespace character. */
  lemma StripSlice(s: string)
    ensures var i := SpaceEnd(s, 0);
      i + |Strip(s)| <= |s| && Strip(s) == s[i..i + |Strip(s)|]
      && AllWhitespace(s[..i]) && AllWhitespace(s[i + |Strip(s)|..])
  {
    var i := SpaceEnd(s, 0);
    var l := s[i..];
    var j := SpaceStart(l, |l|);
    SpaceEndSpec(s, 0);
    SpaceStartSpec(l, |l|);
    assert Strip(s) == l[..j] == s[i..i + j];
    assert forall k :: 0 <= k < i ==> s[..i][k] == s[k];
  }

  /** `Strip(s)` starts and ends with a non-whitespace character, unless empty. */
  lemma StripEnds(s: string)
    ensures Strip(s) == [] || (!IsWhitespace(Strip(s)[0]) && !IsWhitespace(Strip(s)[|Strip(s)| - 1]))
  {
    var i := SpaceEnd(s, 0);
    var l := s[i..];
    var j := SpaceStart(l, |l|);
    SpaceEndSpec(s, 0);
    SpaceStartSpec(l, |l|);
    if j > 0 {
      assert Strip(s)[0] == s[i];
    }
  }

  /** `Strip(s)` is empty exactly when `s` is all whitespace. */
  lemma StripEmpty(s: string)
    ensures Strip(s) == [] <==> AllWhitespace(s)
  {
    var i := SpaceEnd(s, 0);
    var l := s[i..];
    SpaceEndSpec(s, 0);
    SpaceStartSpec(l, |l|);
    if i < |s| {
      assert !IsWhitespace(l[0]);
    }
  }
}
