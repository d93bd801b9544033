/** Equations between sequences that the other modules use by name. */
module Sequences {

  lemma {:induction false} InitAndLast<T>(s: seq<T>)
    requires s != []
    ensures s == s[..|s| - 1] + [s[|s| - 1]]
  {
  }

  lemma {:induction false} Associative<T>(a: seq<T>, b: seq<T>, c: seq<T>)
    ensures (a + b) + c == a + (b + c)
  {
  }

  lemma {:induction false} Slices<T>(s: seq<T>, start: nat, j: nat)
    requires start + j <= |s|
    ensures s[start..][..j] == s[start..start + j] && s[start..][j..] == s[start + j..]
  {
  }
}
