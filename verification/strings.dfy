/** String operations of the JavaScript runtime that the worker relies on. */
module Strings {
  import opened Results

  predicate IsDigits(s: string) {
    forall i :: 0 <= i < |s| ==> '0' <= s[i] <= '9'
  }

  function DigitChar(d: nat): (c: char)
    requires d < 10
    ensures '0' <= c <= '9' && c as int - '0' as int == d
  {
    ('0' as int + d) as char
  }

  /** `String(n)` / `n.toString()` for a non-negative integer: base ten, no leading zeros. */
  function Decimal(n: nat): (s: string)
    ensures |s| >= 1 && IsDigits(s)
    ensures s[0] == '0' ==> n == 0
    decreases n
  {
    if n < 10 then [DigitChar(n)] else Decimal(n / 10) + [DigitChar(n % 10)]
  }

  /** The number a string of decimal digits denotes. */
  function DecimalValue(s: string): nat
    requires IsDigits(s)
  {
    if s == [] then 0 else 10 * DecimalValue(s[..|s| - 1]) + (s[|s| - 1] as int - '0' as int)
  }

  /** Printing then reading back a number loses nothing. */
  lemma {:induction false} DecimalRoundTrip(n: nat)
    ensures DecimalValue(Decimal(n)) == n
  {
    if n >= 10 {
      var s := Decimal(n);
      assert s[..|s| - 1] == Decimal(n / 10);
      DecimalRoundTrip(n / 10);
    }
  }

  /** JavaScript's `a || b` on strings: the empty string is the one falsy string. */
  function OrElse(a: string, b: string): string {
    if a != [] then a else b
  }

  // ---------------------------------------------------------------------------
  // String.prototype.trim

  /** The characters `trim` removes: ECMAScript WhiteSpace (tab, VT, FF, space, NBSP, BOM, the Zs category) and LineTerminator. */
  predicate IsSpace(c: char) {
    || '\t' <= c <= '\r' || c == ' ' || c == '\U{A0}' || c == '\U{1680}'
    || '\U{2000}' <= c <= '\U{200A}' || '\U{2028}' <= c <= '\U{2029}'
    || c == '\U{202F}' || c == '\U{205F}' || c == '\U{3000}' || c == '\U{FEFF}'
  }

  predicate AllSpace(s: string) {
    forall k :: 0 <= k < |s| ==> IsSpace(s[k])
  }

  /** What is left of `s` after its leading white space. */
  function TrimStart(s: string): (r: string)
    ensures |r| <= |s| && r == s[|s| - |r|..]
    ensures forall k :: 0 <= k < |s| - |r| ==> IsSpace(s[k])
    ensures r != [] ==> !IsSpace(r[0])
  {
    if s != [] && IsSpace(s[0]) then
      var r := TrimStart(s[1..]);
      assert forall k :: 1 <= k < |s| - |r| ==> s[k] == s[1..][k - 1];
      r
    else s
  }

  /** What is left of `s` before its trailing white space. */
  function TrimEnd(s: string): (r: string)
    ensures |r| <= |s| && r == s[..|r|]
    ensures forall k :: |r| <= k < |s| ==> IsSpace(s[k])
    ensures r != [] ==> !IsSpace(r[|r| - 1])
  {
    if s != [] && IsSpace(s[|s| - 1]) then TrimEnd(s[..|s| - 1]) else s
  }

  /** `s.trim()`: the longest piece of `s` that neither starts nor ends with white space, once white space is removed from both ends. */
  function Trim(s: string): (r: string)
    ensures |r| <= |s|
    ensures r == [] <==> AllSpace(s)
    ensures r != [] ==> !IsSpace(r[0]) && !IsSpace(r[|r| - 1])
  {
    TrimEnd(TrimStart(s))
  }

  /** A string that neither starts nor ends with white space is its own trim. */
  lemma TrimUnchanged(s: string)
    requires s != [] ==> !IsSpace(s[0]) && !IsSpace(s[|s| - 1])
    ensures Trim(s) == s
  {
  }

  /** Trimming twice is trimming once. */
  lemma TrimIdempotent(s: string)
    ensures Trim(Trim(s)) == Trim(s)
  {
    var r := Trim(s);
    if r != [] {
      assert TrimStart(r) == r;
      assert TrimEnd(r) == r;
    }
  }

  /** `x || d` on a string followed by `trim()`: the fallback when `x` is empty, and nothing when `x` is only white space. */
  lemma TrimOrElse(x: string, d: string)
    ensures x == [] ==> Trim(OrElse(x, d)) == Trim(d)
    ensures x != [] && AllSpace(x) ==> Trim(OrElse(x, d)) == []
  {
  }

  // ---------------------------------------------------------------------------
  // The id filter `replace(/[^a-zA-Z0-9_-]/g, "")`

  predicate IsIdChar(c: char) {
    'a' <= c <= 'z' || 'A' <= c <= 'Z' || '0' <= c <= '9' || c == '_' || c == '-'
  }

  predicate IsIdentifier(s: string) {
    forall k :: 0 <= k < |s| ==> IsIdChar(s[k])
  }

  /** Every character outside `[A-Za-z0-9_-]` removed, the others kept in order. */
  function Sanitize(s: string): (r: string)
    ensures IsIdentifier(r) && |r| <= |s|
    ensures r == [] <==> forall k :: 0 <= k < |s| ==> !IsIdChar(s[k])
  {
    if s == [] then []
    else (if IsIdChar(s[0]) then [s[0]] else []) + Sanitize(s[1..])
  }

  /** The filter works piece by piece, so it keeps the order of what it keeps. */
  lemma {:induction false} SanitizeAppend(a: string, b: string)
    ensures Sanitize(a + b) == Sanitize(a) + Sanitize(b)
  {
    if a != [] {
      assert (a + b)[0] == a[0] && (a + b)[1..] == a[1..] + b;
      SanitizeAppend(a[1..], b);
    } else {
      assert a + b == b;
    }
  }

  /** A string already made of id characters passes unchanged; hence sanitising twice is sanitising once. */
  lemma {:induction false} SanitizeKeeps(s: string)
    requires IsIdentifier(s)
    ensures Sanitize(s) == s
  {
    if s != [] {
      SanitizeKeeps(s[1..]);
    }
  }

  // ---------------------------------------------------------------------------
  // toLowerCase and startsWith, for comparisons with ASCII text

  /**
   * `toLowerCase` on one character: A-Z and KELVIN SIGN (to `k`) are lowered,
   * every other character is kept. Exact for comparisons with ASCII text that
   * does not end in `i` (U+0130 lowers to `i` and a combining dot).
   */
  function LowerChar(c: char): char {
    if 'A' <= c <= 'Z' then (c as int + 32) as char
    else if c == '\U{212A}' then 'k'
    else c
  }

  function Lower(s: string): string {
    seq(|s|, k requires 0 <= k < |s| => LowerChar(s[k]))
  }

  /** `s` is the lower-case ASCII text `t` up to case: each character is `t`'s own, its ASCII capital, or KELVIN SIGN for `k`. */
  predicate EqualsIgnoringCase(s: string, t: string) {
    && |s| == |t|
    && forall k :: 0 <= k < |t| ==>
      || s[k] == t[k]
      || ('a' <= t[k] <= 'z' && s[k] == (t[k] as int - 32) as char)
      || (t[k] == 'k' && s[k] == '\U{212A}')
  }

  /** `s.toLowerCase() === t`, for lower-case ASCII text `t`, is a comparison up to case. */
  lemma LowerMatches(s: string, t: string)
    requires forall k :: 0 <= k < |t| ==> !('A' <= t[k] <= 'Z') && t[k] < '\U{80}'
    ensures Lower(s) == t <==> EqualsIgnoringCase(s, t)
  {
    if EqualsIgnoringCase(s, t) {
      forall k | 0 <= k < |t| ensures Lower(s)[k] == t[k] { }
      assert Lower(s) == t;
    }
  }

  /** `s.toLowerCase().startsWith(t)`, for lower-case ASCII text `t`, compares the first `|t|` characters up to case. */
  lemma LowerStartsWith(s: string, t: string)
    requires forall k :: 0 <= k < |t| ==> !('A' <= t[k] <= 'Z') && t[k] < '\U{80}'
    ensures StartsWith(Lower(s), t) <==> |t| <= |s| && EqualsIgnoringCase(s[..|t|], t)
  {
    if |t| <= |s| {
      assert Lower(s)[..|t|] == Lower(s[..|t|]);
      LowerMatches(s[..|t|], t);
    }
  }

  predicate StartsWith(s: string, prefix: string) {
    |prefix| <= |s| && s[..|prefix|] == prefix
  }

  // ---------------------------------------------------------------------------
  // indexOf, includes, split and join

  predicate OccursAt(s: string, pat: string, i: nat) {
    i + |pat| <= |s| && s[i..i + |pat|] == pat
  }

  /** `s.indexOf(pat)`: the first position where `pat` occurs. */
  function IndexOf(s: string, pat: string): (r: Option<nat>)
    ensures r.Some? ==> OccursAt(s, pat, r.value)
    ensures r.Some? ==> forall j :: 0 <= j < r.value ==> !OccursAt(s, pat, j)
    ensures r.None? ==> forall j :: 0 <= j <= |s| ==> !OccursAt(s, pat, j)
    decreases |s|
  {
    if OccursAt(s, pat, 0) then Some(0)
    else if s == [] then None
    else
      ShiftOccurrence(s, pat);
      match IndexOf(s[1..], pat)
      case None => None
      case Some(i) => Some(i + 1)
  }

  lemma ShiftOccurrence(s: string, pat: string)
    requires s != []
    ensures forall j: nat :: 1 <= j ==> (OccursAt(s, pat, j) <==> OccursAt(s[1..], pat, j - 1))
  {
    forall j: nat | 1 <= j ensures OccursAt(s, pat, j) <==> OccursAt(s[1..], pat, j - 1) {
      if j + |pat| <= |s| {
        assert s[1..][j - 1..j - 1 + |pat|] == s[j..j + |pat|];
      }
    }
  }

  /** `s.includes(pat)`. */
  predicate Contains(s: string, pat: string) {
    IndexOf(s, pat).Some?
  }

  /** `s.split(sep)` for a non-empty separator: the pieces between successive occurrences, left to right. */
  function Split(s: string, sep: string): (r: seq<string>)
    requires sep != []
    ensures |r| >= 1
    ensures |r| == 1 <==> !Contains(s, sep)
    decreases |s|
  {
    match IndexOf(s, sep)
    case None => [s]
    case Some(i) => [s[..i]] + Split(s[i + |sep|..], sep)
  }

  /** `parts.join(glue)`. */
  function Join(parts: seq<string>, glue: string): string {
    if |parts| == 0 then ""
    else if |parts| == 1 then parts[0]
    else parts[0] + glue + Join(parts[1..], glue)
  }

  /** Joining the pieces with the separator gives back the string: split loses nothing. */
  lemma {:induction false} JoinSplit(s: string, sep: string)
    requires sep != []
    ensures Join(Split(s, sep), sep) == s
    decreases |s|
  {
    assert Join([s], sep) == s;
    hide Split, Join, IndexOf;
    match IndexOf(s, sep)
    case None =>
      SplitWhole(s, sep);
    case Some(i) =>
      var head, tail := s[..i], s[i + |sep|..];
      SplitStep(s, sep, i);
      JoinSplit(tail, sep);
      Recompose(s, sep, i);
      JoinCons(head, Split(tail, sep), sep);
  }

  lemma Recompose(s: string, sep: string, i: nat)
    requires OccursAt(s, sep, i)
    ensures s == s[..i] + sep + s[i + |sep|..]
  {
    assert s == s[..i] + s[i..i + |sep|] + s[i + |sep|..];
  }

  /** Where `sep` does not occur, split gives the whole string. */
  lemma SplitWhole(s: string, sep: string)
    requires sep != [] && IndexOf(s, sep).None?
    ensures Split(s, sep) == [s]
  {
  }

  /** Where `sep` first occurs at `i`, split gives the piece before it, then the pieces of what follows it. */
  lemma SplitStep(s: string, sep: string, i: nat)
    requires sep != [] && IndexOf(s, sep) == Some(i)
    ensures Split(s, sep) == [s[..i]] + Split(s[i + |sep|..], sep)
  {
  }

  lemma JoinCons(head: string, rest: seq<string>, glue: string)
    requires rest != []
    ensures Join([head] + rest, glue) == head + glue + Join(rest, glue)
  {
    var parts := [head] + rest;
    assert parts[0] == head && parts[1..] == rest;
  }

  /** The piece before the first occurrence holds no occurrence. */
  lemma HeadFree(s: string, sep: string, i: nat)
    requires sep != [] && IndexOf(s, sep) == Some(i)
    ensures !Contains(s[..i], sep)
  {
    var piece := s[..i];
    forall j | 0 <= j <= |piece| ensures !OccursAt(piece, sep, j) {
      if OccursAt(piece, sep, j) {
        assert piece[j..j + |sep|] == s[j..j + |sep|];
        assert OccursAt(s, sep, j);
      }
    }
  }

  /** No piece contains the separator: split cuts at every occurrence. */
  lemma {:induction false} SplitPiecesFree(s: string, sep: string)
    requires sep != []
    ensures forall k :: 0 <= k < |Split(s, sep)| ==> !Contains(Split(s, sep)[k], sep)
    decreases |s|
  {
    hide Split, IndexOf, Contains;
    match IndexOf(s, sep)
    case None =>
      SplitWhole(s, sep);
    case Some(i) =>
      var tail := s[i + |sep|..];
      HeadFree(s, sep, i);
      SplitPiecesFree(tail, sep);
      SplitStep(s, sep, i);
      var parts := Split(s, sep);
      forall k | 0 <= k < |parts| ensures !Contains(parts[k], sep) {
        if k > 0 {
          assert parts[k] == Split(tail, sep)[k - 1];
        }
      }
  }

  /** `s.split(pat).join(rep)`: every occurrence of `pat`, left to right, replaced by `rep`. */
  function ReplaceAll(s: string, pat: string, rep: string): (r: string)
    requires pat != []
    ensures !Contains(s, pat) ==> r == s
  {
    Join(Split(s, pat), rep)
  }

  /**
   * Replacing every occurrence: `s` is cut into pieces free of `pat` that
   * `pat` glues back into `s`, and the result glues the same pieces with `rep`.
   */
  lemma ReplaceAllPieces(s: string, pat: string, rep: string)
    requires pat != []
    ensures var pieces := Split(s, pat);
      && Join(pieces, pat) == s
      && (forall k :: 0 <= k < |pieces| ==> !Contains(pieces[k], pat))
      && (Contains(s, pat) <==> |pieces| >= 2)
      && ReplaceAll(s, pat, rep) == Join(pieces, rep)
  {
    JoinSplit(s, pat);
    SplitPiecesFree(s, pat);
  }
}
