/** Concatenations: parentheses, which the solver does not move by itself, and parts. */
module Sequences {
  lemma Regrouped<T>(a: seq<T>, b: seq<T>, c: seq<T>)
    ensures (a + b) + c == a + (b + c)
  {
  }

  /** What lies behind one more element */
  lemma OneBefore<T>(x: T, s: seq<T>, j: nat, k: nat)
    requires j <= k <= |s|
    ensures var t := [x] + s;
            && t[..j + 1] == [x] + s[..j] && t[j + 1..] == s[j..] && t[j + 1..k + 1] == s[j..k]
            && (j < |s| ==> t[j + 1] == s[j])
  {
  }

  lemma RegroupedBehind<T>(a: seq<T>, b: seq<T>, c: seq<T>, d: seq<T>, e: seq<T>)
    ensures (a + (b + (c + d))) + e == a + (b + (c + (d + e)))
  {
  }
}
