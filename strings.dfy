/**
 * The two Python string operations the filter relies on: the `in` operator
 * (substring containment) and `str.count` (non-overlapping occurrences).
 * Both compare characters exactly, so matching is case-sensitive.
 */
module Strings {

  /** `p` occurs in `s` starting at position `i`. */
  ghost predicate OccursAt(s: string, p: string, i: int)
  {
    0 <= i && i + |p| <= |s| && s[i..i + |p|] == p
  }

  /** Python's `p in s`: scan `s` for a position where `p` starts. */
  function Contains(s: string, p: string): bool
    decreases |s|
  {
    if p <= s then true
    else if s == [] then false
    else Contains(s[1..], p)
  }

  /** `Contains` holds exactly when `p` occurs somewhere in `s`; the empty string occurs in every string. */
  lemma {:induction false} ContainsIffOccurs(s: string, p: string)
    ensures Contains(s, p) <==> exists i :: OccursAt(s, p, i)
    decreases |s|
  {
    if p <= s {
      assert OccursAt(s, p, 0);
    } else if s != [] {
      ContainsIffOccurs(s[1..], p);
      if Contains(s[1..], p) {
        var i :| OccursAt(s[1..], p, i);
        assert s[1..][i..i + |p|] == s[i + 1..i + 1 + |p|];
        assert OccursAt(s, p, i + 1);
      }
      if exists i :: OccursAt(s, p, i) {
        var i :| OccursAt(s, p, i);
        if i > 0 {
          assert s[1..][i - 1..i - 1 + |p|] == s[i..i + |p|];
          assert OccursAt(s[1..], p, i - 1);
        }
      }
    }
  }

  /**
   * Python's `s.count(p)`. For the empty pattern Python answers `len(s) + 1`;
   * otherwise it scans left to right and resumes after each match, so
   * occurrences never overlap (`"aaa".count("aa") == 1`).
   */
  function Count(s: string, p: string): nat
  {
    if p == [] then |s| + 1 else CountNonEmpty(s, p)
  }

  /** The left-to-right scan of `Count` for a non-empty pattern. */
  function CountNonEmpty(s: string, p: string): nat
    requires p != []
    decreases |s|
  {
    if p <= s then 1 + CountNonEmpty(s[|p|..], p)
    else if s == [] then 0
    else CountNonEmpty(s[1..], p)
  }

  /**
   * A pattern is counted at least once exactly when it is contained in the
   * text; the empty pattern is both counted and contained.
   */
  lemma {:induction false} CountPositiveIffContains(s: string, p: string)
    ensures Count(s, p) > 0 <==> Contains(s, p)
    decreases |s|
  {
    if !(p <= s) && s != [] {
      CountPositiveIffContains(s[1..], p);
    }
  }

  /** Non-overlapping occurrences of a pattern fit in the text. */
  lemma {:induction false} CountBound(s: string, p: string)
    ensures Count(s, p) * |p| <= |s|
    decreases |s|
  {
    if p == [] {
    } else if p <= s {
      CountBound(s[|p|..], p);
      var c := Count(s[|p|..], p);
      assert Count(s, p) == 1 + c;
      assert (1 + c) * |p| == |p| + c * |p|;
    } else if s != [] {
      CountBound(s[1..], p);
    }
  }

  /** `w` written `m` times in a row. */
  function Power(w: string, m: nat): string
    decreases m
  {
    if m == 0 then "" else w + Power(w, m - 1)
  }

  /** A non-empty word written `m` times in a row is counted `m` times. */
  lemma {:induction false} CountPower(w: string, m: nat)
    requires w != []
    ensures Count(Power(w, m), w) == m
    decreases m
  {
    if m > 0 {
      var s := Power(w, m);
      assert s == w + Power(w, m - 1);
      assert w <= s;
      assert s[|w|..] == Power(w, m - 1);
      CountPower(w, m - 1);
    }
  }
}
