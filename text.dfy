/** The three string primitives the shopping list relies on: `trim` (the
    add form), `toLowerCase` and `includes` (the search filter). */
module Text {

  /** The characters `String.prototype.trim` strips: the ECMAScript
      WhiteSpace set (tab, vertical tab, form feed, space, no-break space,
      byte-order mark and the Zs space separators) and the LineTerminator
      set (line feed, carriage return, line and paragraph separators). */
  predicate IsWhitespace(c: char) {
    c == '\t' || c == '\n' || c == '\U{000B}' || c == '\U{000C}' || c == '\r' ||
    c == ' ' || c == '\U{00A0}' || c == '\U{1680}' ||
    ('\U{2000}' <= c <= '\U{200A}') ||
    c == '\U{2028}' || c == '\U{2029}' || c == '\U{202F}' || c == '\U{205F}' ||
    c == '\U{3000}' || c == '\U{FEFF}'
  }

  /** A string that `trim` reduces to the empty string. */
  predicate IsBlank(s: string) {
    forall i :: 0 <= i < |s| ==> IsWhitespace(s[i])
  }

  /** The position of the first non-whitespace character of `s` at or
      after `i`, or `|s|` when there is none. */
  function SkipWhitespace(s: string, i: nat): (k: nat)
    requires i <= |s|
    ensures i <= k <= |s|
    ensures k < |s| ==> !IsWhitespace(s[k])
    decreases |s| - i
  {
    if i < |s| && IsWhitespace(s[i]) then SkipWhitespace(s, i + 1) else i
  }

  /** What `SkipWhitespace` skips is whitespace. */
  lemma {:induction false} SkipsOnlyWhitespace(s: string, i: nat)
    requires i <= |s|
    ensures forall j :: i <= j < SkipWhitespace(s, i) ==> IsWhitespace(s[j])
    decreases |s| - i
  {
    if i < |s| && IsWhitespace(s[i]) {
      SkipsOnlyWhitespace(s, i + 1);
    }
  }

  /** The end of `s[lo..hi]` once its trailing whitespace is dropped: the
      position just after its last non-whitespace character, or `lo`. */
  function SkipWhitespaceBack(s: string, lo: nat, hi: nat): (k: nat)
    requires lo <= hi <= |s|
    ensures lo <= k <= hi
    ensures k > lo ==> !IsWhitespace(s[k - 1])
    decreases hi
  {
    if hi > lo && IsWhitespace(s[hi - 1]) then SkipWhitespaceBack(s, lo, hi - 1) else hi
  }

  /** What `SkipWhitespaceBack` skips is whitespace. */
  lemma {:induction false} SkipsOnlyWhitespaceBack(s: string, lo: nat, hi: nat)
    requires lo <= hi <= |s|
    ensures forall j :: SkipWhitespaceBack(s, lo, hi) <= j < hi ==> IsWhitespace(s[j])
    decreases hi
  {
    if hi > lo && IsWhitespace(s[hi - 1]) {
      SkipsOnlyWhitespaceBack(s, lo, hi - 1);
    }
  }

  /** `t` occurs in `s` at position `i`. */
  predicate OccursAt(s: string, t: string, i: int) {
    0 <= i <= |s| - |t| && s[i..i + |t|] == t
  }

  /** `s.trim()`: the slice of `s` between its leading and its trailing
      whitespace. Only whitespace is dropped before and after it; it is
      empty exactly when `s` is blank, and otherwise starts and ends with a
      non-whitespace character. */
  function Trim(s: string): (r: string)
    ensures OccursAt(s, r, SkipWhitespace(s, 0))
    ensures var a := SkipWhitespace(s, 0);
      a + |r| <= |s| && IsBlank(s[..a]) && IsBlank(s[a + |r|..])
    ensures r == [] <==> IsBlank(s)
    ensures r != [] ==> !IsWhitespace(r[0]) && !IsWhitespace(r[|r| - 1])
  {
    var a := SkipWhitespace(s, 0);
    var b := SkipWhitespaceBack(s, a, |s|);
    SkipsOnlyWhitespace(s, 0);
    SkipsOnlyWhitespaceBack(s, a, |s|);
    TrimmedEmpty(s);
    s[a..b]
  }

  /** Nothing is left between the leading and the trailing whitespace
      exactly when the string is blank. */
  lemma TrimmedEmpty(s: string)
    ensures var a := SkipWhitespace(s, 0);
      SkipWhitespaceBack(s, a, |s|) == a <==> IsBlank(s)
  {
    var a := SkipWhitespace(s, 0);
    SkipsOnlyWhitespace(s, 0);
    SkipsOnlyWhitespaceBack(s, a, |s|);
  }

  /** Trimming a string that is not blank leaves a non-empty, non-blank
      string with no whitespace at either end, included in the original. */
  lemma TrimmedIncluded(s: string)
    requires !IsBlank(s)
    ensures var r := Trim(s);
      r != [] && !IsBlank(r) && !IsWhitespace(r[0]) && !IsWhitespace(r[|r| - 1]) && Includes(s, r)
  {
    var r := Trim(s);
    assert !IsWhitespace(r[0]);
    assert OccursAt(s, r, SkipWhitespace(s, 0));
    IncludesIff(s, r);
  }

  /** Trimming a trimmed string changes nothing. */
  lemma TrimIdempotent(s: string)
    ensures Trim(Trim(s)) == Trim(s)
  {
    var r := Trim(s);
    if r != [] {
      assert SkipWhitespace(r, 0) == 0;
      assert SkipWhitespaceBack(r, 0, |r|) == |r|;
      assert r[0..|r|] == r;
    }
  }

  /** ASCII-only lower-casing of one character. */
  function LowerChar(c: char): (r: char)
    ensures !('A' <= r <= 'Z')
    ensures 'a' <= r <= 'z' <==> ('a' <= c <= 'z' || 'A' <= c <= 'Z')
  {
    if 'A' <= c <= 'Z' then (c as int + 32) as char else c
  }

  /** `s.toLowerCase()`, restricted to the ASCII letters: every character is
      lowered on its own and the length is kept. */
  function Lower(s: string): (r: string)
    ensures |r| == |s|
    ensures forall i :: 0 <= i < |s| ==> r[i] == LowerChar(s[i])
  {
    if s == [] then [] else [LowerChar(s[0])] + Lower(s[1..])
  }

  /** Lowering twice is lowering once. */
  lemma LowerIdempotent(s: string)
    ensures Lower(Lower(s)) == Lower(s)
  {
    var once := Lower(s);
    var twice := Lower(once);
    forall i | 0 <= i < |s| ensures twice[i] == once[i] {
      assert !('A' <= once[i] <= 'Z');
    }
  }

  /** `s.includes(t)`: scanning from position `i`, `t` occurs somewhere. */
  function IncludesFrom(s: string, t: string, i: nat): bool
    requires i <= |s|
    decreases |s| - i
  {
    OccursAt(s, t, i) || (i < |s| && IncludesFrom(s, t, i + 1))
  }

  /** `s.includes(t)`. */
  function Includes(s: string, t: string): bool {
    IncludesFrom(s, t, 0)
  }

  /** The scan from `i` succeeds exactly when `t` occurs at `i` or later. */
  lemma {:induction false} IncludesFromIff(s: string, t: string, i: nat)
    requires i <= |s|
    ensures IncludesFrom(s, t, i) <==> exists j :: i <= j && OccursAt(s, t, j)
    decreases |s| - i
  {
    if i < |s| {
      IncludesFromIff(s, t, i + 1);
    }
  }

  /** `Includes` holds exactly when `t` occurs in `s` at some position. */
  lemma IncludesIff(s: string, t: string)
    ensures Includes(s, t) <==> exists i :: OccursAt(s, t, i)
  {
    IncludesFromIff(s, t, 0);
  }
}
