/** Sequence reversal, shared by the border search (`img[::-1]`, and profiles read from
    the far end) and the NIfTI shape (`reversed`). */
module Sequences {

  /** `s` read from its last element to its first. */
  function Reverse<X>(s: seq<X>): (r: seq<X>)
    ensures |r| == |s| && forall i :: 0 <= i < |s| ==> r[i] == s[|s| - 1 - i]
  {
    seq(|s|, i requires 0 <= i < |s| => s[|s| - 1 - i])
  }

  /** Reversing twice gives back the sequence. */
  lemma ReverseReverse<X>(s: seq<X>)
    ensures Reverse(Reverse(s)) == s
  {
  }
}
