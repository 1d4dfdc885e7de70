/** `String.prototype.replace` with a global regular expression, stated once for every pattern of the
    extension. A pattern is given by its matcher `m`: `m(t)` is the length of the match the regex
    finds starting at the first character of `t`, and 0 when no match starts there. None of the
    extension's global patterns can match the empty string, so 0 always means "no match". */
module JsReplace {
  import opened JsText

  /** A match starts at the first character of `t`. */
  predicate MatchHere(t: string, m: string -> nat) {
    0 < m(t) <= |t|
  }

  /** The engine tries each position from left to right, replaces the match starting there by
      `rep` and resumes right after it, or keeps the character when no match starts there. */
  function ReplaceMatches(s: string, m: string -> nat, rep: string): string
    decreases |s|
  {
    if |s| == 0 then ""
    else if MatchHere(s, m) then rep + ReplaceMatches(s[m(s)..], m, rep)
    else [s[0]] + ReplaceMatches(s[1..], m, rep)
  }

  /** The matcher of a regex that is just the literal `pat`, as in `/&amp;/g`. */
  function Literal(pat: string): string -> nat {
    t => if |pat| > 0 && StartsWith(t, pat) then |pat| else 0
  }

  /** `s.replace(/pat/g, rep)` for a literal pattern. */
  function ReplaceLiteral(s: string, pat: string, rep: string): string {
    ReplaceMatches(s, Literal(pat), rep)
  }

  /** A literal occurrence at the head is replaced and the scan resumes after it. */
  lemma ReplaceLiteralHit(s: string, pat: string, rep: string)
    requires |pat| > 0 && StartsWith(s, pat)
    ensures ReplaceLiteral(s, pat, rep) == rep + ReplaceLiteral(s[|pat|..], pat, rep)
  {
  }

  /** A string that does not contain the first character of the literal is returned unchanged. */
  lemma ReplaceLiteralAbsent(s: string, pat: string, rep: string)
    requires |pat| > 0 && pat[0] !in s
    ensures ReplaceLiteral(s, pat, rep) == s
  {
    ReplaceWithoutMatch(s, Literal(pat), rep);
  }

  /** A string whose only candidate start, the head, fails on the second character is returned unchanged. */
  lemma ReplaceLiteralOnlyFalseStart(s: string, pat: string, rep: string)
    requires |s| > 1 && |pat| > 1 && s[1] != pat[1] && pat[0] !in s[1..]
    ensures ReplaceLiteral(s, pat, rep) == s
  {
    ReplaceLiteralAbsent(s[1..], pat, rep);
    assert [s[0]] + s[1..] == s;
  }

  /** No match of `m` starts anywhere in `s`. */
  predicate NoMatch(s: string, m: string -> nat) {
    forall i :: 0 <= i < |s| ==> !MatchHere(s[i..], m)
  }

  /** A replace whose pattern never matches returns the string unchanged. */
  lemma {:induction false} ReplaceWithoutMatch(s: string, m: string -> nat, rep: string)
    requires NoMatch(s, m)
    ensures ReplaceMatches(s, m, rep) == s
    decreases |s|
  {
    if |s| > 0 {
      assert s[0..] == s;
      assert NoMatch(s[1..], m) by {
        forall i | 0 <= i < |s| - 1 ensures !MatchHere(s[1..][i..], m) {
          assert s[1..][i..] == s[i + 1..];
        }
      }
      ReplaceWithoutMatch(s[1..], m, rep);
    }
  }

  /** Where no match starts at the first character, that character is kept in front. */
  lemma KeepsUnmatchedHead(s: string, m: string -> nat, rep: string)
    requires |s| > 0 && !MatchHere(s, m)
    ensures |ReplaceMatches(s, m, rep)| > 0 && ReplaceMatches(s, m, rep)[0] == s[0]
  {
  }

  /** A character that is in neither the input nor the replacement never appears in the output. */
  lemma {:induction false} NoNewCharacter(s: string, m: string -> nat, rep: string, c: char)
    requires c !in s && c !in rep
    ensures c !in ReplaceMatches(s, m, rep)
    decreases |s|
  {
    if |s| > 0 {
      if MatchHere(s, m) {
        assert forall k :: 0 <= k < |s| - m(s) ==> s[m(s)..][k] == s[m(s) + k];
        NoNewCharacter(s[m(s)..], m, rep, c);
      } else {
        assert forall k :: 0 <= k < |s| - 1 ==> s[1..][k] == s[k + 1];
        NoNewCharacter(s[1..], m, rep, c);
      }
    }
  }

  /** Replacing every occurrence of one character by a text without it leaves none of that character. */
  lemma {:induction false} ReplaceCharRemovesIt(s: string, c: char, rep: string)
    requires c !in rep
    ensures c !in ReplaceLiteral(s, [c], rep)
    decreases |s|
  {
    if |s| > 0 {
      assert forall k :: 0 <= k < |s| - 1 ==> s[1..][k] == s[k + 1];
      ReplaceCharRemovesIt(s[1..], c, rep);
      if s[0] == c {
        assert StartsWith(s, [c]);
      } else {
        assert !StartsWith(s, [c]);
      }
    }
  }

  /** `a` can be obtained from `b` by deleting characters (matched greedily from the left). */
  predicate IsSubsequence(a: string, b: string)
    decreases |b|
  {
    |a| == 0 || (|b| > 0 && if a[0] == b[0] then IsSubsequence(a[1..], b[1..]) else IsSubsequence(a, b[1..]))
  }

  lemma {:induction false} SubsequenceDropHead(a: string, b: string)
    requires |a| > 0 && IsSubsequence(a, b)
    ensures IsSubsequence(a[1..], b)
    decreases |b|, 0
  {
    if a[0] != b[0] {
      SubsequenceDropHead(a, b[1..]);
      SubsequenceConsRight(a[1..], b[1..], b[0]);
      assert [b[0]] + b[1..] == b;
    } else {
      SubsequenceConsRight(a[1..], b[1..], b[0]);
      assert [b[0]] + b[1..] == b;
    }
  }

  lemma {:induction false} SubsequenceConsRight(a: string, b: string, x: char)
    requires IsSubsequence(a, b)
    ensures IsSubsequence(a, [x] + b)
    decreases |b|, 1
  {
    var xb := [x] + b;
    assert xb[1..] == b;
    if |a| > 0 && a[0] == x {
      SubsequenceDropHead(a, b);
    }
  }

  lemma {:induction false} SubsequenceConsBoth(a: string, b: string, x: char)
    requires IsSubsequence(a, b)
    ensures IsSubsequence([x] + a, [x] + b)
  {
    assert ([x] + a)[1..] == a && ([x] + b)[1..] == b;
  }

  lemma {:induction false} SubsequenceOfSuffix(a: string, b: string, k: nat)
    requires k <= |b| && IsSubsequence(a, b[k..])
    ensures IsSubsequence(a, b)
    decreases k
  {
    if k > 0 {
      SubsequenceConsRight(a, b[k..], b[k - 1]);
      assert [b[k - 1]] + b[k..] == b[k - 1..];
      SubsequenceOfSuffix(a, b, k - 1);
    }
  }

  lemma {:induction false} SubsequenceOfPrefix(b: string, k: nat)
    requires k <= |b|
    ensures IsSubsequence(b[..k], b)
    decreases k
  {
    if k > 0 {
      SubsequenceOfPrefix(b[1..], k - 1);
      assert b[..k][1..] == b[1..][..k - 1];
    }
  }

  lemma {:induction false} SubsequenceTransitive(a: string, b: string, c: string)
    requires IsSubsequence(a, b) && IsSubsequence(b, c)
    ensures IsSubsequence(a, c)
    decreases |c|
  {
    if |a| > 0 {
      if b[0] == c[0] {
        if a[0] == b[0] {
          SubsequenceTransitive(a[1..], b[1..], c[1..]);
        } else {
          SubsequenceTransitive(a, b[1..], c[1..]);
          SubsequenceConsRight(a, c[1..], c[0]);
          assert [c[0]] + c[1..] == c;
        }
      } else {
        SubsequenceTransitive(a, b, c[1..]);
        SubsequenceConsRight(a, c[1..], c[0]);
        assert [c[0]] + c[1..] == c;
      }
    }
  }

  lemma {:induction false} SubsequenceReflexive(a: string)
    ensures IsSubsequence(a, a)
    decreases |a|
  {
    if |a| > 0 {
      SubsequenceReflexive(a[1..]);
    }
  }

  lemma {:induction false} SubsequenceNoLonger(a: string, b: string)
    requires IsSubsequence(a, b)
    ensures |a| <= |b|
    decreases |b|
  {
    if |a| > 0 {
      if a[0] == b[0] { SubsequenceNoLonger(a[1..], b[1..]); } else { SubsequenceNoLonger(a, b[1..]); }
    }
  }

  /** Replacing matches by nothing only deletes: the result is a subsequence of the input. */
  lemma {:induction false} DeletionIsSubsequence(s: string, m: string -> nat)
    ensures IsSubsequence(ReplaceMatches(s, m, ""), s)
    decreases |s|
  {
    if |s| > 0 {
      if MatchHere(s, m) {
        DeletionIsSubsequence(s[m(s)..], m);
        assert "" + ReplaceMatches(s[m(s)..], m, "") == ReplaceMatches(s[m(s)..], m, "");
        SubsequenceOfSuffix(ReplaceMatches(s[m(s)..], m, ""), s, m(s));
      } else {
        DeletionIsSubsequence(s[1..], m);
        SubsequenceConsBoth(ReplaceMatches(s[1..], m, ""), s[1..], s[0]);
        assert [s[0]] + s[1..] == s;
      }
    }
  }
}
