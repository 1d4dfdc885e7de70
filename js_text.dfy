/** The JavaScript string primitives the extension leans on: what `\s`, `\w` and `.` match,
    the `/i` comparison of ASCII pattern letters, `indexOf`-style search, `trim`, `slice` and `join`. */
module JsText {
  import opened Wrappers

  /** WhiteSpace and LineTerminator of ECMAScript: the characters `\s` matches and `trim` removes. */
  predicate IsSpace(c: char) {
    c == '\t' || c == '\n' || c == '\U{000B}' || c == '\U{000C}' || c == '\r' || c == ' ' ||
    c == '\U{00A0}' || c == '\U{1680}' || ('\U{2000}' <= c <= '\U{200A}') ||
    c == '\U{2028}' || c == '\U{2029}' || c == '\U{202F}' || c == '\U{205F}' ||
    c == '\U{3000}' || c == '\U{FEFF}'
  }

  /** The characters `.` does not match when the `s` flag is absent. */
  predicate IsLineTerminator(c: char) {
    c == '\n' || c == '\r' || c == '\U{2028}' || c == '\U{2029}'
  }

  /** `\w`, which with `/i` but without `/u` is still exactly these 63 characters. */
  predicate IsWordChar(c: char) {
    ('a' <= c <= 'z') || ('A' <= c <= 'Z') || ('0' <= c <= '9') || c == '_'
  }

  /** ASCII lower-casing. Without `/u`, `/i` folds a non-ASCII character onto an ASCII one never,
      so comparing lower-cased characters against an ASCII pattern is exactly the regex's test. */
  function Lower(c: char): char {
    if 'A' <= c <= 'Z' then (c as int + 32) as char else c
  }

  predicate StartsWith(t: string, pat: string) {
    |pat| <= |t| && t[..|pat|] == pat
  }

  predicate StartsWithCI(t: string, pat: string) {
    |pat| <= |t| && forall i :: 0 <= i < |pat| ==> Lower(t[i]) == Lower(pat[i])
  }

  /** `pat` occurs in `t` at index `i`, compared exactly or, with `ci`, as under `/i`. */
  predicate MatchesAt(t: string, pat: string, ci: bool, i: nat) {
    i <= |t| && if ci then StartsWithCI(t[i..], pat) else StartsWith(t[i..], pat)
  }

  /** The first index at or after `from` where `pat` occurs: what a lazy `[\s\S]*?` followed
      by the literal `pat` settles on. */
  function Find(t: string, pat: string, ci: bool, from: nat): (r: Option<nat>)
    requires from <= |t|
    ensures r.Some? ==> from <= r.value && r.value + |pat| <= |t| && MatchesAt(t, pat, ci, r.value)
    ensures forall j :: from <= j <= |t| && (r.None? || j < r.value) ==> !MatchesAt(t, pat, ci, j)
    decreases |t| - from
  {
    if MatchesAt(t, pat, ci, from) then Some(from)
    else if from == |t| then None
    else Find(t, pat, ci, from + 1)
  }

  /** What a non-global `match` (or one `exec`) returns: the match `at(q)` for the first position `q` from `p` to `n`
      where one starts. */
  function Leftmost<T(==)>(at: nat -> Option<T>, p: nat, n: nat): (r: Option<T>)
    requires p <= n
    ensures r.Some? ==> exists q :: p <= q <= n && at(q) == r && forall j :: p <= j < q ==> at(j).None?
    ensures r.None? ==> forall j :: p <= j <= n ==> at(j).None?
    decreases n - p
  {
    if at(p).Some? || p == n then at(p)
    else
      var r := Leftmost(at, p + 1, n);
      if r.Some? then
        var q :| p + 1 <= q <= n && at(q) == r && forall j :: p + 1 <= j < q ==> at(j).None?;
        assert forall j :: p <= j < q ==> at(j).None?;
        r
      else r
  }

  predicate AllSpace(s: string) {
    forall i :: 0 <= i < |s| ==> IsSpace(s[i])
  }

  /** The end of the maximal run of spaces starting at `i`: where a greedy `\s*` stops. */
  function SkipSpaces(s: string, i: nat): (j: nat)
    requires i <= |s|
    ensures i <= j <= |s| && AllSpace(s[i..j])
    ensures j < |s| ==> !IsSpace(s[j])
    decreases |s| - i
  {
    if i < |s| && IsSpace(s[i]) then SkipSpaces(s, i + 1) else i
  }

  /** A greedy `\s*` from `i` stops at `j` exactly when only spaces lie before `j` and none at it. */
  lemma SkipSpacesStopsAt(s: string, i: nat, j: nat)
    requires i <= j <= |s| && AllSpace(s[i..j]) && (j < |s| ==> !IsSpace(s[j]))
    ensures SkipSpaces(s, i) == j
  {
  }

  /** The end of the maximal run, starting at `i`, of characters that satisfy `keep`: where a greedy
      character-class repetition such as `[^/?]*` stops. */
  function SpanWhile(s: string, i: nat, keep: char -> bool): (j: nat)
    requires i <= |s|
    ensures i <= j <= |s|
    ensures forall k :: i <= k < j ==> keep(s[k])
    ensures j < |s| ==> !keep(s[j])
    decreases |s| - i
  {
    if i < |s| && keep(s[i]) then SpanWhile(s, i + 1, keep) else i
  }

  function TrimStart(s: string): (r: string)
    ensures |r| <= |s| && r == s[|s| - |r|..]
    ensures AllSpace(s[..|s| - |r|])
    ensures |r| > 0 ==> !IsSpace(r[0])
  {
    if |s| > 0 && IsSpace(s[0]) then TrimStart(s[1..]) else s
  }

  function TrimEnd(s: string): (r: string)
    ensures |r| <= |s| && r == s[..|r|]
    ensures AllSpace(s[|r|..])
    ensures |r| > 0 ==> !IsSpace(r[|r| - 1])
  {
    if |s| > 0 && IsSpace(s[|s| - 1]) then TrimEnd(s[..|s| - 1]) else s
  }

  /** `String.prototype.trim`: the piece of `s` left once its leading and trailing runs of spaces
      are cut away, and nothing left of an all-space string. */
  function Trim(s: string): (r: string)
    ensures |r| <= |s|
    ensures |r| > 0 ==> !IsSpace(r[0]) && !IsSpace(r[|r| - 1])
    ensures r == [] <==> AllSpace(s)
    ensures exists i, j :: 0 <= i <= j <= |s| && r == s[i..j] && AllSpace(s[..i]) && AllSpace(s[j..])
  {
    var a := TrimStart(s);
    var r := TrimEnd(a);
    assert a == [] ==> s[..|s|] == s;
    PieceBetweenSpaces(s, a, r);
    r
  }

  /** A suffix of `s` after a run of spaces, cut before a run of spaces, is a piece of `s` between
      two runs of spaces. */
  lemma PieceBetweenSpaces(s: string, a: string, r: string)
    requires |a| <= |s| && a == s[|s| - |a|..] && AllSpace(s[..|s| - |a|])
    requires |r| <= |a| && r == a[..|r|] && AllSpace(a[|r|..])
    ensures var i := |s| - |a|; r == s[i..i + |r|] && AllSpace(s[..i]) && AllSpace(s[i + |r|..])
  {
    var i := |s| - |a|;
    assert s[i + |r|..] == a[|r|..];
  }

  /** Non-empty, and neither starting nor ending with whitespace. */
  predicate Trimmed(s: string) {
    |s| > 0 && !IsSpace(s[0]) && !IsSpace(s[|s| - 1])
  }

  /** A string that neither starts nor ends with whitespace is its own trim. */
  lemma TrimWithoutOuterSpaces(s: string)
    requires |s| > 0 && !IsSpace(s[0]) && !IsSpace(s[|s| - 1])
    ensures Trim(s) == s
  {
    assert TrimStart(s) == s;
  }

  /** Trimming cuts a contiguous piece out of the string, so it keeps runs of spaces short. */
  lemma TrimKeepsNoAdjacentSpaces(s: string)
    requires NoAdjacentSpaces(s)
    ensures NoAdjacentSpaces(Trim(s))
  {
    var a := TrimStart(s);
    var i := |s| - |a|;
    assert a == s[i..];
    var r := TrimEnd(a);
    assert r == a[..|r|];
    assert Trim(s) == r;
    forall k | 0 <= k < |r| - 1
      ensures !(IsSpace(r[k]) && IsSpace(r[k + 1]))
    {
      assert r[k] == a[k] == s[i + k];
      assert r[k + 1] == a[k + 1] == s[i + k + 1];
    }
  }

  /** `String.prototype.slice(0, n)`: the first `n` characters, or all of a shorter string. */
  function Take(s: string, n: nat): (r: string)
    ensures |r| <= n && |r| <= |s| && r == s[..|r|]
    ensures |s| <= n ==> r == s
    ensures |s| > n ==> |r| == n
  {
    if |s| <= n then s else s[..n]
  }

  /** Trimming only cuts the ends, so it adds no character. */
  lemma TrimKeepsAbsent(s: string, c: char)
    requires c !in s
    ensures c !in Trim(s)
  {
    var r := Trim(s);
    var i, j :| 0 <= i <= j <= |s| && r == s[i..j] && AllSpace(s[..i]) && AllSpace(s[j..]);
    assert forall k :: 0 <= k < |r| ==> r[k] == s[i + k];
  }

  /** `Array.prototype.join(sep)`. */
  function Join(segs: seq<string>, sep: string): string {
    if |segs| == 0 then ""
    else if |segs| == 1 then segs[0]
    else segs[0] + sep + Join(segs[1..], sep)
  }

  predicate NoAdjacentSpaces(s: string) {
    forall i :: 0 <= i < |s| - 1 ==> !(IsSpace(s[i]) && IsSpace(s[i + 1]))
  }

  predicate IsDigit(c: char) {
    '0' <= c <= '9'
  }

  /** The decimal text of a number, as a template literal renders an HTTP status. */
  function NatToString(n: nat): (r: string)
    ensures |r| > 0 && forall i :: 0 <= i < |r| ==> IsDigit(r[i])
    ensures n < 10 <==> |r| == 1
  {
    if n < 10 then ["0123456789"[n]] else NatToString(n / 10) + ["0123456789"[n % 10]]
  }

  /** The number a run of decimal digits denotes. */
  function DigitsValue(s: string): nat
    requires forall i :: 0 <= i < |s| ==> IsDigit(s[i])
  {
    if |s| == 0 then 0
    else
      assert IsDigit(s[|s| - 1]);
      10 * DigitsValue(s[..|s| - 1]) + (s[|s| - 1] as int - '0' as int)
  }

  /** The decimal text reads back as the number it was made from. */
  lemma {:induction false} NatToStringRoundTrip(n: nat)
    ensures DigitsValue(NatToString(n)) == n
  {
    if n >= 10 {
      NatToStringRoundTrip(n / 10);
      var r := NatToString(n);
      assert r[..|r| - 1] == NatToString(n / 10);
    }
  }
}
