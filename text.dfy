/**
 * The few Python string operations the core relies on, restricted to ASCII:
 * `str.strip()`, `str.lower()`, `str.upper()`, the substring test `sub in s`
 * and the ordering `a <= b` on strings (code-point lexicographic order).
 */
module Text {

  /** The ASCII characters for which Python's `str.isspace()` holds. */
  predicate IsSpace(c: char) {
    c == ' ' || (9 <= c as int <= 13) || (28 <= c as int <= 31)
  }

  /** Number of whitespace characters at the start of `s`. */
  function LeadingSpace(s: string): (k: nat)
    ensures k <= |s|
    ensures forall i :: 0 <= i < k ==> IsSpace(s[i])
    ensures k < |s| ==> !IsSpace(s[k])
  {
    if s == [] || !IsSpace(s[0]) then 0 else 1 + LeadingSpace(s[1..])
  }

  /** Number of whitespace characters at the end of `s`. */
  function TrailingSpace(s: string): (k: nat)
    ensures k <= |s|
    ensures forall i :: |s| - k <= i < |s| ==> IsSpace(s[i])
    ensures k < |s| ==> !IsSpace(s[|s| - 1 - k])
  {
    if s == [] || !IsSpace(s[|s| - 1]) then 0 else 1 + TrailingSpace(s[..|s| - 1])
  }

  /** `r` is the piece `s[i..j]` of `s`, and everything of `s` outside it is whitespace. */
  predicate TrimmedTo(s: string, r: string, i: int, j: int) {
    && 0 <= i <= j <= |s| && r == s[i..j]
    && (forall k :: 0 <= k < i ==> IsSpace(s[k]))
    && (forall k :: j <= k < |s| ==> IsSpace(s[k]))
  }

  /**
   * `s.strip()`: `s` without its leading and trailing whitespace, that is, the
   * piece of `s` left once only whitespace is cut off either end, and which
   * itself neither starts nor ends with whitespace.
   */
  function Strip(s: string): (r: string)
    ensures |r| <= |s|
    ensures exists i, j :: TrimmedTo(s, r, i, j)
    ensures r != [] ==> !IsSpace(r[0]) && !IsSpace(r[|r| - 1])
  {
    var t := s[LeadingSpace(s)..];
    var r := t[..|t| - TrailingSpace(t)];
    assert TrimmedTo(s, r, LeadingSpace(s), LeadingSpace(s) + |r|) by {
      forall k | LeadingSpace(s) + |r| <= k < |s|
        ensures IsSpace(s[k])
      {
        assert s[k] == t[k - LeadingSpace(s)];
      }
    }
    r
  }

  function LowerChar(c: char): char {
    if 'A' <= c <= 'Z' then (c as int + 32) as char else c
  }

  function UpperChar(c: char): char {
    if 'a' <= c <= 'z' then (c as int - 32) as char else c
  }

  /** `s.lower()` on ASCII letters. */
  function Lower(s: string): (r: string)
    ensures |r| == |s|
    ensures forall i :: 0 <= i < |s| ==> r[i] == LowerChar(s[i])
  {
    seq(|s|, i requires 0 <= i < |s| => LowerChar(s[i]))
  }

  /** `s.upper()` on ASCII letters. */
  function Upper(s: string): (r: string)
    ensures |r| == |s|
    ensures forall i :: 0 <= i < |s| ==> r[i] == UpperChar(s[i])
  {
    seq(|s|, i requires 0 <= i < |s| => UpperChar(s[i]))
  }

  /** Case mapping never turns whitespace into anything else, or the reverse. */
  lemma CaseKeepsSpace(c: char)
    ensures IsSpace(LowerChar(c)) == IsSpace(c)
    ensures IsSpace(UpperChar(c)) == IsSpace(c)
  {
  }

  /** Upper-casing forgets any earlier lower-casing: `s.lower().upper() == s.upper()`. */
  lemma UpperLower(s: string)
    ensures Upper(Lower(s)) == Upper(s)
  {
    assert forall i :: 0 <= i < |s| ==> Upper(Lower(s))[i] == UpperChar(LowerChar(s[i])) == Upper(s)[i];
  }

  /** `s.upper().upper() == s.upper()`. */
  lemma UpperIdempotent(s: string)
    ensures Upper(Upper(s)) == Upper(s)
  {
    assert forall i :: 0 <= i < |s| ==> Upper(Upper(s))[i] == UpperChar(UpperChar(s[i])) == Upper(s)[i];
  }

  /** Lower-casing forgets any earlier upper-casing: `s.upper().lower() == s.lower()`. */
  lemma LowerUpper(s: string)
    ensures Lower(Upper(s)) == Lower(s)
  {
    assert forall i :: 0 <= i < |s| ==> Lower(Upper(s))[i] == LowerChar(UpperChar(s[i])) == Lower(s)[i];
  }

  /** `r` has the length of `s` and whitespace at exactly the same positions. */
  predicate SameSpaces(s: string, r: string) {
    |r| == |s| && forall i :: 0 <= i < |s| ==> (IsSpace(r[i]) <==> IsSpace(s[i]))
  }

  /** The contract of `LeadingSpace` determines it. */
  lemma LeadingUnique(s: string, k: nat)
    requires k <= |s| && forall i :: 0 <= i < k ==> IsSpace(s[i])
    requires k < |s| ==> !IsSpace(s[k])
    ensures k == LeadingSpace(s)
  {
  }

  /** The contract of `TrailingSpace` determines it. */
  lemma TrailingUnique(s: string, k: nat)
    requires k <= |s| && forall i :: |s| - k <= i < |s| ==> IsSpace(s[i])
    requires k < |s| ==> !IsSpace(s[|s| - 1 - k])
    ensures k == TrailingSpace(s)
  {
  }

  /** `strip()` keeps the piece of `s` that starts after its leading whitespace. */
  lemma StripIsSlice(s: string)
    ensures LeadingSpace(s) + |Strip(s)| <= |s|
    ensures Strip(s) == s[LeadingSpace(s)..LeadingSpace(s) + |Strip(s)|]
  {
  }

  /** Two texts with whitespace in the same places are stripped at the same positions. */
  lemma StripSameSpaces(s: string, r: string)
    requires SameSpaces(s, r)
    ensures LeadingSpace(r) == LeadingSpace(s)
    ensures |Strip(r)| == |Strip(s)|
  {
    var i := LeadingSpace(s);
    LeadingUnique(r, i);
    SameSpacesSuffix(s, r, i);
    TrailingUnique(r[i..], TrailingSpace(s[i..]));
  }

  lemma SameSpacesSuffix(s: string, r: string, i: nat)
    requires SameSpaces(s, r) && i <= |s|
    ensures SameSpaces(s[i..], r[i..])
  {
    var t, u := s[i..], r[i..];
    forall k | 0 <= k < |t| ensures IsSpace(u[k]) <==> IsSpace(t[k]) {
      assert t[k] == s[i + k] && u[k] == r[i + k];
    }
  }

  lemma LowerSlice(s: string, i: nat, j: nat)
    requires i <= j <= |s|
    ensures Lower(s)[i..j] == Lower(s[i..j])
  {
    assert forall k :: 0 <= k < j - i ==> Lower(s)[i..j][k] == Lower(s)[i + k];
  }

  lemma UpperSlice(s: string, i: nat, j: nat)
    requires i <= j <= |s|
    ensures Upper(s)[i..j] == Upper(s[i..j])
  {
    assert forall k :: 0 <= k < j - i ==> Upper(s)[i..j][k] == Upper(s)[i + k];
  }

  /** Lower-casing and stripping commute: `s.strip().lower() == s.lower().strip()`. */
  lemma StripLower(s: string)
    ensures Strip(Lower(s)) == Lower(Strip(s))
  {
    forall i | 0 <= i < |s| ensures IsSpace(Lower(s)[i]) <==> IsSpace(s[i]) {
      CaseKeepsSpace(s[i]);
    }
    StripSameSpaces(s, Lower(s));
    StripIsSlice(s);
    StripIsSlice(Lower(s));
    LowerSlice(s, LeadingSpace(s), LeadingSpace(s) + |Strip(s)|);
  }

  /** Upper-casing and stripping commute: `s.strip().upper() == s.upper().strip()`. */
  lemma StripUpper(s: string)
    ensures Strip(Upper(s)) == Upper(Strip(s))
  {
    forall i | 0 <= i < |s| ensures IsSpace(Upper(s)[i]) <==> IsSpace(s[i]) {
      CaseKeepsSpace(s[i]);
    }
    StripSameSpaces(s, Upper(s));
    StripIsSlice(s);
    StripIsSlice(Upper(s));
    UpperSlice(s, LeadingSpace(s), LeadingSpace(s) + |Strip(s)|);
  }

  predicate StartsWith(s: string, prefix: string) {
    |prefix| <= |s| && s[..|prefix|] == prefix
  }

  /** Python's `sub in s`: `sub` occurs somewhere in `s` as a contiguous piece. */
  predicate Contains(s: string, sub: string)
    decreases |s|
  {
    StartsWith(s, sub) || (s != [] && Contains(s[1..], sub))
  }

  /** A text that neither starts nor ends with whitespace is its own `strip()`. */
  lemma StripUnspaced(s: string)
    requires s != [] && !IsSpace(s[0]) && !IsSpace(s[|s| - 1])
    ensures Strip(s) == s
  {
    assert LeadingSpace(s) == 0 && TrailingSpace(s) == 0;
  }

  /** Nothing longer than `s` occurs in it. */
  lemma {:induction false} ContainsFits(s: string, sub: string)
    ensures Contains(s, sub) ==> |sub| <= |s|
    decreases |s|
  {
    if s != [] {
      ContainsFits(s[1..], sub);
    }
  }

  /** `sub` occurs in `s` starting at position `i`. */
  predicate OccursAt(s: string, sub: string, i: int) {
    0 <= i <= |s| - |sub| && s[i..i + |sub|] == sub
  }

  /** The recursive occurrence test agrees with the definition by position. */
  lemma {:induction false} ContainsAt(s: string, sub: string)
    ensures Contains(s, sub) <==> exists i :: OccursAt(s, sub, i)
  {
    if s == [] {
      if Contains(s, sub) { assert OccursAt(s, sub, 0); }
    } else {
      ContainsAt(s[1..], sub);
      if StartsWith(s, sub) {
        assert OccursAt(s, sub, 0);
      } else if Contains(s[1..], sub) {
        var i :| OccursAt(s[1..], sub, i);
        assert s[1..][i..i + |sub|] == s[i + 1..i + 1 + |sub|];
        assert OccursAt(s, sub, i + 1);
      }
      if exists i :: OccursAt(s, sub, i) {
        var i :| OccursAt(s, sub, i);
        if i > 0 {
          assert s[1..][i - 1..i - 1 + |sub|] == s[i..i + |sub|];
          assert OccursAt(s[1..], sub, i - 1);
        }
      }
    }
  }

  /** An occurrence in the kept piece is an occurrence in the whole text. */
  lemma OccursWidened(s: string, r: string, i: int, j: int, sub: string, p: int)
    requires TrimmedTo(s, r, i, j) && OccursAt(r, sub, p)
    ensures OccursAt(s, sub, i + p)
  {
    var x, y := s[i + p..i + p + |sub|], r[p..p + |sub|];
    forall k | 0 <= k < |sub| ensures x[k] == y[k] {
      assert x[k] == s[i + p + k] == r[p + k] == y[k];
    }
    assert x == y;
  }

  /** An occurrence of a text with non-space ends lies inside the kept piece. */
  lemma OccursNarrowed(s: string, r: string, i: int, j: int, sub: string, p: int)
    requires TrimmedTo(s, r, i, j) && OccursAt(s, sub, p)
    requires sub != [] && !IsSpace(sub[0]) && !IsSpace(sub[|sub| - 1])
    ensures OccursAt(r, sub, p - i)
  {
    assert s[p] == sub[0] && s[p + |sub| - 1] == sub[|sub| - 1];
    assert i <= p && p + |sub| <= j;
    var x, y := r[p - i..p - i + |sub|], s[p..p + |sub|];
    forall k | 0 <= k < |sub| ensures x[k] == y[k] {
      assert x[k] == r[p - i + k] == s[p + k] == y[k];
    }
    assert x == y;
  }

  /**
   * A piece of text that neither starts nor ends with whitespace occurs in
   * `s.strip()` exactly when it occurs in `s`: stripping only cuts whitespace.
   */
  lemma ContainsStripped(s: string, sub: string)
    requires sub != [] && !IsSpace(sub[0]) && !IsSpace(sub[|sub| - 1])
    ensures Contains(Strip(s), sub) <==> Contains(s, sub)
  {
    var r := Strip(s);
    var i, j :| TrimmedTo(s, r, i, j);
    ContainsAt(r, sub);
    ContainsAt(s, sub);
    if p :| OccursAt(r, sub, p) {
      OccursWidened(s, r, i, j, sub, p);
    }
    if p :| OccursAt(s, sub, p) {
      OccursNarrowed(s, r, i, j, sub, p);
    }
  }

  /**
   * Python's `a <= b` on `str`: code-point lexicographic order, a proper
   * prefix coming first. (Dafny's own `<=` on sequences is the prefix test.)
   */
  predicate LexLe(a: string, b: string)
    decreases |a|
  {
    if a == [] then true
    else if b == [] then false
    else if a[0] != b[0] then a[0] < b[0]
    else LexLe(a[1..], b[1..])
  }

  lemma {:induction false} LexLeReflexive(a: string)
    ensures LexLe(a, a)
  {
    if a != [] { LexLeReflexive(a[1..]); }
  }

  /** Any two strings are comparable, so `not (a <= b)` means `b < a`. */
  lemma {:induction false} LexLeTotal(a: string, b: string)
    ensures LexLe(a, b) || LexLe(b, a)
  {
    if a != [] && b != [] && a[0] == b[0] { LexLeTotal(a[1..], b[1..]); }
  }

  lemma {:induction false} LexLeAntisymmetric(a: string, b: string)
    requires LexLe(a, b) && LexLe(b, a)
    ensures a == b
  {
    if a != [] && b != [] {
      LexLeAntisymmetric(a[1..], b[1..]);
      assert a == [a[0]] + a[1..] && b == [b[0]] + b[1..];
    }
  }

  lemma {:induction false} LexLeTransitive(a: string, b: string, c: string)
    requires LexLe(a, b) && LexLe(b, c)
    ensures LexLe(a, c)
  {
    if a != [] && b != [] && c != [] && a[0] == b[0] && b[0] == c[0] {
      LexLeTransitive(a[1..], b[1..], c[1..]);
    }
  }
}
