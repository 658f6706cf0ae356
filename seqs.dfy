/** Sequence helpers shared by several parts of the model. */
module Seqs {
  /** The sequence in reverse order (Rust's `Vec::reverse`, `Iterator::rev`). */
  function Reverse<T>(s: seq<T>): (r: seq<T>)
    ensures |r| == |s|
    ensures forall i :: 0 <= i < |s| ==> r[i] == s[|s| - 1 - i]
  {
    seq(|s|, i requires 0 <= i < |s| => s[|s| - 1 - i])
  }

  /** Reversing twice gives back the original sequence. */
  lemma ReverseReverse<T>(s: seq<T>)
    ensures Reverse(Reverse(s)) == s
  {
  }

  /** Turning back the first `m` elements of the reversed sequence gives its last `m` elements. */
  lemma ReverseOfReversedPrefix<T>(s: seq<T>, m: nat)
    requires m <= |s|
    ensures Reverse(Reverse(s)[..m]) == s[|s| - m..]
  {
  }

  /** At most the first `n` elements (`Iterator::take`). */
  function Take<T>(n: nat, s: seq<T>): (r: seq<T>)
    ensures |r| == if n < |s| then n else |s|
  {
    if n == 0 || s == [] then [] else [s[0]] + Take(n - 1, s[1..])
  }

  lemma {:induction false} TakeIsPrefix<T>(n: nat, s: seq<T>)
    ensures Take(n, s) == s[..if n < |s| then n else |s|]
  {
    if n != 0 && s != [] {
      TakeIsPrefix(n - 1, s[1..]);
    }
  }

  lemma AppendAssoc<T>(a: seq<T>, b: seq<T>, c: seq<T>)
    ensures a + b + c == a + (b + c)
  {
  }
}
