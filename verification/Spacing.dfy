/** Moments that keep a minimum distance: how many of them fit into a window. */
module Spacing {

  predicate Spaced(moments: seq<real>, gap: real)
  {
    forall i :: 0 <= i < |moments| - 1 ==> moments[i + 1] - moments[i] >= gap
  }

  lemma {:induction false} FirstToLast(moments: seq<real>, gap: real)
    requires Spaced(moments, gap) && moments != [] && gap > 0.0
    ensures moments[|moments| - 1] - moments[0] >= (|moments| - 1) as real * gap
    decreases |moments|
  {
    if |moments| > 1 {
      var n := |moments| - 1;
      FirstToLast(moments[..n], gap);
      assert n as real * gap == (n - 1) as real * gap + gap;
    }
  }

  lemma MultiplyBoth(x: real, y: real, gap: real)
    requires x > y && gap > 0.0
    ensures x * gap > y * gap
  {
    assert (x - y) * gap > 0.0;
  }

  /** A window of length w holds at most w / gap + 1 moments of a spaced sequence. */
  lemma WindowBound(moments: seq<real>, gap: real, i: nat, j: nat, w: real)
    requires Spaced(moments, gap) && gap > 0.0 && i < j <= |moments|
    requires moments[j - 1] - moments[i] <= w
    ensures (j - i) as real <= w / gap + 1.0
  {
    FirstToLast(moments[i..j], gap);
    var n := (j - i - 1) as real;
    assert n * gap <= w;
    if n > w / gap {
      MultiplyBoth(n, w / gap, gap);
      assert false;
    }
  }
}
