/** Small sequence helpers shared by the filter model. */
module Seqs {

  /** `m` copies of `x`, built by appending one at a time as `list.append` does. */
  function Repeat<T>(x: T, m: nat): (s: seq<T>)
    ensures |s| == m
    ensures forall j :: 0 <= j < m ==> s[j] == x
  {
    if m == 0 then [] else Repeat(x, m - 1) + [x]
  }

  /** `x` occurs exactly `m` times in `Repeat(x, m)`, and nothing else occurs in it. */
  lemma {:induction false} RepeatMultiplicity<T>(x: T, m: nat, y: T)
    ensures multiset(Repeat(x, m))[y] == if x == y then m else 0
  {
    if m > 0 {
      RepeatMultiplicity(x, m - 1, y);
      assert Repeat(x, m) == Repeat(x, m - 1) + [x];
    }
  }

  /** Appending `m` copies of `x` adds `m` occurrences of `x` and none of anything else. */
  lemma RepeatAppendMultiplicity<T>(a: seq<T>, x: T, m: nat, y: T)
    ensures multiset(a + Repeat(x, m))[y] == multiset(a)[y] + (if x == y then m else 0)
  {
    assert multiset(a + Repeat(x, m)) == multiset(a) + multiset(Repeat(x, m));
    RepeatMultiplicity(x, m, y);
  }
}
