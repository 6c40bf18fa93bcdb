/** The string primitives of JavaScript that the core relies on:
    `trim`, `split` with a literal separator, the `\s` class and
    case-insensitive comparison of ASCII literals, and number-to-text
    conversion. */
module Text {
  import opened Common

  /** The characters that both `String.prototype.trim` and the regular
      expression class `\s` treat as white space: ECMAScript's WhiteSpace
      and LineTerminator productions. */
  predicate IsSpace(c: char) {
    c == '\t' || c == '\n' || c == '\U{B}' || c == '\U{C}' || c == '\r' || c == ' '
    || c == '\U{A0}' || c == '\U{1680}' || ('\U{2000}' <= c <= '\U{200A}')
    || c == '\U{2028}' || c == '\U{2029}' || c == '\U{202F}' || c == '\U{205F}'
    || c == '\U{3000}' || c == '\U{FEFF}'
  }

  // ---------------------------------------------------------------------
  // Trimming

  /** The index just past the last character before `j` that is not white
      space, or 0 when there is none: where a backward scan over white space
      stops. */
  function SkipSpaceBack(s: string, j: nat): (r: nat)
    requires j <= |s|
    ensures r <= j
    ensures r > 0 ==> !IsSpace(s[r - 1])
    decreases j
  {
    if j > 0 && IsSpace(s[j - 1]) then SkipSpaceBack(s, j - 1) else j
  }

  /** Everything `SkipSpaceBack` steps over is white space. */
  lemma {:induction false} SkipSpaceBackSkipsSpace(s: string, j: nat)
    requires j <= |s|
    ensures forall k :: SkipSpaceBack(s, j) <= k < j ==> IsSpace(s[k])
    decreases j
  {
    if j > 0 && IsSpace(s[j - 1]) {
      SkipSpaceBackSkipsSpace(s, j - 1);
    }
  }

  predicate IsTrimmed(s: string) {
    s == [] || (!IsSpace(s[0]) && !IsSpace(s[|s| - 1]))
  }

  /** Where the text that `Trim` keeps starts. */
  function TrimOffset(s: string): (k: nat)
    ensures k <= |s|
    ensures k < |s| ==> !IsSpace(s[k])
  {
    SkipSpace(s, 0)
  }

  /** Where the text that `Trim` keeps ends: past its last visible
      character, or at its start when there is none. */
  function TrimLimit(s: string): (m: nat)
    ensures TrimOffset(s) <= m <= |s|
    ensures TrimOffset(s) < m <==> TrimOffset(s) < |s|
    ensures TrimOffset(s) < m ==> !IsSpace(s[m - 1])
  {
    var k := TrimOffset(s);
    if k == |s| then k
    else
      SkipSpaceBackSkipsSpace(s, |s|);
      SkipSpaceBack(s, |s|)
  }

  /** `String.prototype.trim`: the infix of `s` that is left once the white
      space at both ends is cut off. */
  function Trim(s: string): (r: string)
    ensures IsTrimmed(r)
  {
    s[TrimOffset(s)..TrimLimit(s)]
  }

  /** What `Trim` cuts from either end is white space. */
  lemma TrimCutsSpace(s: string)
    ensures forall i :: 0 <= i < TrimOffset(s) ==> IsSpace(s[i])
    ensures forall i :: TrimLimit(s) <= i < |s| ==> IsSpace(s[i])
  {
    SkipSpaceSkipsSpace(s, 0);
    SkipSpaceBackSkipsSpace(s, |s|);
  }

  /** A string without white space at its ends is its own trim. */
  lemma TrimmedIsFixpoint(s: string)
    ensures Trim(s) == s <==> IsTrimmed(s)
  {
    if IsTrimmed(s) && s != [] {
      assert TrimOffset(s) == 0;
      assert SkipSpaceBack(s, |s|) == |s|;
      assert s[0..|s|] == s;
    }
  }

  lemma TrimIdempotent(s: string)
    ensures Trim(Trim(s)) == Trim(s)
  {
    TrimmedIsFixpoint(Trim(s));
  }

  /** Trimming a string that starts with a non-space character keeps that
      character, so the result is not empty. */
  lemma TrimKeepsFirst(s: string)
    requires s != [] && !IsSpace(s[0])
    ensures Trim(s) != [] && Trim(s) == s[..|Trim(s)|]
  {
    assert TrimOffset(s) == 0;
  }

  // ---------------------------------------------------------------------
  // Searching for a literal

  /** A slice of a slice is a slice of the whole. */
  lemma SliceOfSlice(s: string, lo: nat, hi: nat, i: nat, j: nat)
    requires lo <= hi <= |s| && i <= j <= hi - lo
    ensures s[lo..hi][i..j] == s[lo + i..lo + j]
  {
    assert forall k :: 0 <= k < j - i ==> s[lo..hi][i..j][k] == s[lo + i + k];
  }

  /** The start of a suffix is a slice of the whole. */
  lemma PrefixOfSuffix(s: string, lo: nat, rest: string, len: nat)
    requires lo <= |s| && s[lo..] == rest && len <= |rest|
    ensures rest[..len] == s[lo..lo + len]
  {
    assert forall k :: 0 <= k < len ==> rest[..len][k] == s[lo + k];
  }

  /** `pat` occurs in `s` starting at index `i`. */
  predicate OccursAt(s: string, pat: string, i: nat) {
    i + |pat| <= |s| && s[i..i + |pat|] == pat
  }

  /** The leftmost occurrence of `pat` in `s` at or after `from`. */
  function FindFrom(s: string, pat: string, from: nat): (r: Option<nat>)
    requires from <= |s|
    ensures r.Some? ==> from <= r.value && OccursAt(s, pat, r.value)
    ensures forall i :: from <= i && (r.None? || i < r.value) ==> !OccursAt(s, pat, i)
    decreases |s| - from
  {
    if OccursAt(s, pat, from) then Some(from)
    else if from == |s| then None
    else FindFrom(s, pat, from + 1)
  }

  /** `String.prototype.indexOf`, with `None` for -1. */
  function Find(s: string, pat: string): (r: Option<nat>)
    ensures r.Some? ==> OccursAt(s, pat, r.value)
    ensures forall i: nat :: (r.None? || i < r.value) ==> !OccursAt(s, pat, i)
  {
    FindFrom(s, pat, 0)
  }

  /** An occurrence inside a prefix of `s` is an occurrence in `s`. */
  lemma OccursInPrefix(s: string, pat: string, n: nat, i: nat)
    requires n <= |s| && OccursAt(s[..n], pat, i)
    ensures OccursAt(s, pat, i) && i + |pat| <= n
  {
    assert s[..n][i..i + |pat|] == s[i..i + |pat|];
  }

  /** An occurrence stays where it is when text is appended. */
  lemma OccursExtend(a: string, b: string, pat: string, i: nat)
    requires OccursAt(a, pat, i)
    ensures OccursAt(a + b, pat, i)
  {
    assert (a + b)[i..i + |pat|] == a[i..i + |pat|];
  }

  /** An occurrence moves right by the length of prepended text. */
  lemma OccursAfterPrefix(a: string, b: string, pat: string, i: nat)
    requires OccursAt(b, pat, i)
    ensures OccursAt(a + b, pat, |a| + i)
  {
    assert (a + b)[|a| + i..|a| + i + |pat|] == b[i..i + |pat|];
  }

  lemma OccursInMiddle(a: string, b: string, c: string)
    ensures OccursAt(a + b + c, b, |a|)
  {
    assert (a + b + c)[|a|..|a| + |b|] == b;
  }

  /** A one-character pattern occurs in `a + b` only where it occurs in
      `a` or in `b`. */
  lemma NoCharInConcat(a: string, b: string, c: string)
    requires |c| == 1 && Find(a, c).None? && Find(b, c).None?
    ensures Find(a + b, c).None?
  {
    forall i: nat | i < |a + b|
      ensures !OccursAt(a + b, c, i)
    {
      if i < |a| {
        assert (a + b)[i..i + 1] == a[i..i + 1];
        assert !OccursAt(a, c, i);
      } else {
        assert (a + b)[i..i + 1] == b[i - |a|..i - |a| + 1];
        assert !OccursAt(b, c, i - |a|);
      }
    }
  }

  /** With a one-character pattern `b` that `a` does not contain, the first
      `b` in `a + b + c` is the one right after `a`. */
  lemma FindCharAfter(a: string, b: string, c: string)
    requires |b| == 1 && Find(a, b).None?
    ensures Find(a + b + c, b) == Some(|a|)
  {
    OccursInMiddle(a, b, c);
    forall i: nat | i < |a|
      ensures !OccursAt(a + b + c, b, i)
    {
      assert (a + b + c)[i..i + 1] == a[i..i + 1];
      assert !OccursAt(a, b, i);
    }
  }

  /** When `a` does not contain `b`, is empty or ends in white space, and
      `b` holds no white space, the first `b` in `a + b + c` is the one right
      after `a`: no occurrence can straddle the border. */
  lemma {:induction false} FindAfterSpacedPrefix(a: string, b: string, c: string)
    requires Find(a, b).None?
    requires a == [] || IsSpace(a[|a| - 1])
    requires forall k :: 0 <= k < |b| ==> !IsSpace(b[k])
    ensures Find(a + b + c, b) == Some(|a|)
  {
    var s := a + b + c;
    OccursInMiddle(a, b, c);
    forall i: nat | i < |a|
      ensures !OccursAt(s, b, i)
    {
      if i + |b| <= |a| {
        assert s[i..i + |b|] == a[i..i + |b|];
        assert !OccursAt(a, b, i);
      } else {
        var k := |a| - 1 - i;
        assert s[|a| - 1] != b[k];
        assert s[i..i + |b|][k] == s[|a| - 1];
      }
    }
  }

  /** The text before the first occurrence of `sep`, or all of `s`. */
  function BeforeFirst(s: string, sep: string): (r: string)
    ensures |r| <= |s| && r == s[..|r|]
    ensures Find(s, sep).None? ==> r == s
    ensures Find(s, sep).Some? ==> OccursAt(s, sep, |r|)
    ensures sep != [] ==> Find(r, sep).None?
  {
    match Find(s, sep)
    case None => s
    case Some(i) =>
      assert sep != [] ==> Find(s[..i], sep).None? by {
        if sep != [] && Find(s[..i], sep).Some? {
          OccursInPrefix(s, sep, i, Find(s[..i], sep).value);
        }
      }
      s[..i]
  }

  // ---------------------------------------------------------------------
  // Splitting on a literal separator

  /** `String.prototype.split` with a non-empty string separator: the
      pieces between successive non-overlapping occurrences, left to right. */
  function Split(s: string, sep: string): (parts: seq<string>)
    requires sep != []
    ensures |parts| >= 1
    decreases |s|
  {
    match Find(s, sep)
    case None => [s]
    case Some(i) => [s[..i]] + Split(s[i + |sep|..], sep)
  }

  /** `Array.prototype.join`, the inverse of `Split`. */
  function Join(parts: seq<string>, sep: string): string
  {
    if parts == [] then ""
    else if |parts| == 1 then parts[0]
    else parts[0] + sep + Join(parts[1..], sep)
  }

  /** Splitting loses nothing: joining the pieces with the separator gives
      back the original text. */
  lemma {:induction false} JoinSplit(s: string, sep: string)
    requires sep != []
    ensures Join(Split(s, sep), sep) == s
    decreases |s|
  {
    match Find(s, sep)
    case None =>
    case Some(i) =>
      var rest := s[i + |sep|..];
      var parts := Split(s, sep);
      assert parts == [s[..i]] + Split(rest, sep);
      assert parts[0] == s[..i] && parts[1..] == Split(rest, sep);
      JoinSplit(rest, sep);
      assert Join(parts, sep) == s[..i] + sep + rest;
      assert s[i..i + |sep|] == sep;
      assert s == s[..i] + s[i..i + |sep|] + rest;
  }

  /** No piece of a split contains the separator. */
  lemma {:induction false} SplitPiecesAreFree(s: string, sep: string, k: nat)
    requires sep != [] && k < |Split(s, sep)|
    ensures Find(Split(s, sep)[k], sep).None?
    decreases |s|
  {
    match Find(s, sep)
    case None =>
    case Some(i) =>
      if k == 0 {
        assert Split(s, sep)[0] == BeforeFirst(s, sep);
      } else {
        SplitPiecesAreFree(s[i + |sep|..], sep, k - 1);
      }
  }

  /** The first two pieces of a split: the text before the first occurrence
      and, when there is one, the text between the first occurrence and the
      second (or the end). There is more than one piece exactly when the
      separator occurs. */
  lemma SplitHead(s: string, sep: string)
    requires sep != []
    ensures Split(s, sep)[0] == BeforeFirst(s, sep)
    ensures |Split(s, sep)| > 1 <==> Find(s, sep).Some?
    ensures Find(s, sep).Some? ==>
      Split(s, sep)[1] == BeforeFirst(s[Find(s, sep).value + |sep|..], sep)
  {
  }

  // ---------------------------------------------------------------------
  // Case-insensitive comparison of literals

  /** ASCII case folding, as a code point. With the `i` flag and without `u`, a JavaScript
      regular expression only lets a letter match a letter of the other case
      when both are ASCII, so folding ASCII letters is exact for the ASCII
      literals used here. */
  function Fold(c: char): int
  {
    if 'A' <= c <= 'Z' then c as int + 32 else c as int
  }

  /** `lit` occurs at index `i` of `s`, ignoring the case of ASCII letters. */
  predicate MatchesAtIgnoreCase(s: string, i: nat, lit: string) {
    i + |lit| <= |s| && forall k :: 0 <= k < |lit| ==> Fold(s[i + k]) == Fold(lit[k])
  }

  /** The index just past the run of white space starting at `i`: what a
      greedy `\s*` consumes. */
  function SkipSpace(s: string, i: nat): (r: nat)
    requires i <= |s|
    ensures i <= r <= |s|
    ensures r < |s| ==> !IsSpace(s[r])
    decreases |s| - i
  {
    if i < |s| && IsSpace(s[i]) then SkipSpace(s, i + 1) else i
  }

  /** Everything `SkipSpace` steps over is white space. */
  lemma {:induction false} SkipSpaceSkipsSpace(s: string, i: nat)
    requires i <= |s|
    ensures forall k :: i <= k < SkipSpace(s, i) ==> IsSpace(s[k])
    decreases |s| - i
  {
    if i < |s| && IsSpace(s[i]) {
      SkipSpaceSkipsSpace(s, i + 1);
    }
  }

  // ---------------------------------------------------------------------
  // Decimal numerals

  function Digit(d: nat): (c: char)
    requires d < 10
    ensures '0' <= c <= '9' && c as int - '0' as int == d
  {
    ('0' as int + d) as char
  }

  /** The decimal text JavaScript writes for a non-negative integer, as in a
      template literal `${n}`. */
  function DecimalString(n: nat): (r: string)
    ensures |r| >= 1
    ensures forall i :: 0 <= i < |r| ==> '0' <= r[i] <= '9'
  {
    if n < 10 then [Digit(n)] else DecimalString(n / 10) + [Digit(n % 10)]
  }

  /** The value of a string of decimal digits. */
  function DecimalValue(s: string): nat
    requires forall i :: 0 <= i < |s| ==> '0' <= s[i] <= '9'
  {
    if s == [] then 0
    else DecimalValue(s[..|s| - 1]) * 10 + (s[|s| - 1] as int - '0' as int)
  }

  /** Reading back the numeral gives the number. */
  lemma {:induction false} DecimalRoundTrip(n: nat)
    ensures DecimalValue(DecimalString(n)) == n
  {
    if n >= 10 {
      DecimalRoundTrip(n / 10);
      var s := DecimalString(n);
      assert s[..|s| - 1] == DecimalString(n / 10);
    }
  }
}
