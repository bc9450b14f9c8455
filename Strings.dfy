/**
 * The parts of Go's `strings` package and of Go's string comparison that the
 * modelled code relies on.
 */
module Strings {

  /** Go's `a < b` on strings: lexicographic, a proper prefix sorts first.
      Go compares UTF-8 bytes, whose order agrees with code-point order. */
  predicate LexLess(a: string, b: string)
    decreases |a|
  {
    if |a| == 0 then |b| > 0
    else if |b| == 0 then false
    else if a[0] != b[0] then a[0] < b[0]
    else LexLess(a[1..], b[1..])
  }

  lemma {:induction false} LexLessIrreflexive(a: string)
    ensures !LexLess(a, a)
    decreases |a|
  {
    if |a| > 0 { LexLessIrreflexive(a[1..]); }
  }

  lemma {:induction false} LexLessTransitive(a: string, b: string, c: string)
    requires LexLess(a, b) && LexLess(b, c)
    ensures LexLess(a, c)
    decreases |a|
  {
    if |a| > 0 && |b| > 0 && |c| > 0 && a[0] == b[0] && b[0] == c[0] {
      LexLessTransitive(a[1..], b[1..], c[1..]);
    }
  }

  lemma LexLessAsymmetric(a: string, b: string)
    requires LexLess(a, b)
    ensures !LexLess(b, a)
  {
    if LexLess(b, a) {
      LexLessTransitive(a, b, a);
      LexLessIrreflexive(a);
    }
  }

  /** Any two distinct strings are ordered one way or the other. */
  lemma {:induction false} LexLessTotal(a: string, b: string)
    requires a != b
    ensures LexLess(a, b) || LexLess(b, a)
    decreases |a|
  {
    if |a| > 0 && |b| > 0 && a[0] == b[0] {
      assert a == [a[0]] + a[1..] && b == [b[0]] + b[1..];
      LexLessTotal(a[1..], b[1..]);
    }
  }

  /** "Not after" is transitive: the fact an insertion sort needs. */
  lemma NotLessTransitive(a: string, b: string, c: string)
    requires !LexLess(b, a) && !LexLess(c, b)
    ensures !LexLess(c, a)
  {
    if LexLess(c, a) {
      if a == b {
        LexLessIrreflexive(a);
      } else {
        LexLessTotal(a, b);
        if b == c {
          assert false;
        } else {
          LexLessTotal(b, c);
          LexLessTransitive(a, b, c);
          LexLessTransitive(c, a, c);
          LexLessIrreflexive(c);
        }
      }
    }
  }

  /** The characters `unicode.IsSpace` accepts, which `strings.TrimSpace` removes. */
  const WhiteSpace: set<char> := {
    '\t', '\n', '\U{000B}', '\U{000C}', '\r', ' ', '\U{0085}', '\U{00A0}', '\U{1680}',
    '\U{2000}', '\U{2001}', '\U{2002}', '\U{2003}', '\U{2004}', '\U{2005}', '\U{2006}',
    '\U{2007}', '\U{2008}', '\U{2009}', '\U{200A}', '\U{2028}', '\U{2029}', '\U{202F}',
    '\U{205F}', '\U{3000}'
  }

  /** `strings.TrimLeft(s, cutset)`: drops every leading character in `cut`. */
  function TrimLeft(s: string, cut: set<char>): string
  {
    if |s| > 0 && s[0] in cut then TrimLeft(s[1..], cut) else s
  }

  /** `TrimLeft` leaves the longest suffix that does not start with a character
      of `cut`. */
  lemma {:induction false} TrimLeftSpec(s: string, cut: set<char>)
    ensures var r := TrimLeft(s, cut);
      && |r| <= |s| && r == s[|s| - |r|..]
      && (forall i :: 0 <= i < |s| - |r| ==> s[i] in cut)
      && (|r| > 0 ==> r[0] !in cut)
    decreases |s|
  {
    if |s| > 0 && s[0] in cut {
      TrimLeftSpec(s[1..], cut);
      var r := TrimLeft(s, cut);
      assert forall i :: 1 <= i < |s| - |r| ==> s[i] == s[1..][i - 1];
    }
  }

  /** `strings.TrimRight(s, cutset)`: drops every trailing character in `cut`. */
  function TrimRight(s: string, cut: set<char>): string
  {
    if |s| > 0 && s[|s| - 1] in cut then TrimRight(s[..|s| - 1], cut) else s
  }

  /** `TrimRight` leaves the longest prefix that does not end with a character
      of `cut`. */
  lemma {:induction false} TrimRightSpec(s: string, cut: set<char>)
    ensures var r := TrimRight(s, cut);
      && |r| <= |s| && r == s[..|r|]
      && (forall i :: |r| <= i < |s| ==> s[i] in cut)
      && (|r| > 0 ==> r[|r| - 1] !in cut)
    decreases |s|
  {
    if |s| > 0 && s[|s| - 1] in cut {
      TrimRightSpec(s[..|s| - 1], cut);
      var r := TrimRight(s, cut);
      assert forall i :: |r| <= i < |s| - 1 ==> s[i] == s[..|s| - 1][i];
    }
  }

  /** `strings.Trim(s, cutset)`: drops the leading, then the trailing characters in `cut`. */
  function Trim(s: string, cut: set<char>): string
  {
    TrimRight(TrimLeft(s, cut), cut)
  }

  /** `Trim` keeps exactly the infix between the first and the last character
      not in `cut`. */
  lemma TrimExact(s: string, cut: set<char>, i: int, j: int)
    requires 0 <= i < j <= |s|
    requires forall k :: 0 <= k < i ==> s[k] in cut
    requires forall k :: j <= k < |s| ==> s[k] in cut
    requires s[i] !in cut && s[j - 1] !in cut
    ensures Trim(s, cut) == s[i..j]
  {
    var left := TrimLeft(s, cut);
    TrimLeftSpec(s, cut);
    TrimRightSpec(left, cut);
    assert left == s[i..] by {
      var n := |s| - |left|;
      assert left[0] == s[n];
    }
    assert left[j - i - 1] == s[j - 1];
  }

  /** A string made only of characters in `cut` trims to nothing. */
  lemma TrimAllCut(s: string, cut: set<char>)
    requires forall k :: 0 <= k < |s| ==> s[k] in cut
    ensures Trim(s, cut) == ""
  {
    TrimLeftSpec(s, cut);
    TrimRightSpec(TrimLeft(s, cut), cut);
  }

  /** A string whose ends are not in `cut` is left as it is. */
  lemma TrimUntouched(s: string, cut: set<char>)
    requires |s| > 0 ==> s[0] !in cut && s[|s| - 1] !in cut
    ensures Trim(s, cut) == s
  {
    if |s| > 0 {
      TrimExact(s, cut, 0, |s|);
    }
  }

  /** `strings.TrimSpace`. */
  function TrimSpace(s: string): string
  {
    Trim(s, WhiteSpace)
  }

  /** Index of the first `c` in `s`, or `|s|` when there is none. */
  function IndexOf(s: string, c: char): (r: nat)
    ensures r <= |s|
    ensures c !in s[..r]
    ensures r < |s| ==> s[r] == c
  {
    if |s| == 0 then 0
    else if s[0] == c then 0
    else 1 + IndexOf(s[1..], c)
  }
}
