/** Small facts about integers, sets and sequences that several components need. */
module Facts {

  // ----- Integers

  lemma SmallerFactor(x: int, y: int, n: nat)
    requires n > 0
    ensures x < y ==> x * n < y * n
    ensures x <= y ==> x * n <= y * n
  {
    assert x < y ==> (y - x) * n > 0;
  }

  /** Only multiples of size zero are smaller than the factor. */
  lemma Multiples(k: int, d: int)
    requires d > 0
    ensures k >= 1 ==> k * d >= d
    ensures k <= -1 ==> k * d <= -d
  {
    assert k >= 1 ==> (k - 1) * d >= 0;
    assert k <= -1 ==> (k + 1) * d <= 0;
  }

  lemma RemainderIs(n: int, d: int, q: int, r: int)
    requires d > 0 && n == q * d + r && 0 <= r < d
    ensures n % d == r
  {
    var k := n / d - q;
    assert k * d == r - n % d;
    Multiples(k, d);
  }

  // ----- Sets and sequences

  lemma SubsetSize<T>(part: set<T>, whole: set<T>)
    requires part <= whole
    ensures |whole - part| == |whole| - |part|
  {
    assert whole == part + (whole - part);
  }

  lemma HeadIsMember<T>(s: seq<T>)
    ensures s != [] ==> s[0] in s
  {
  }
}
