/** `StringExtensions.ManyStartWith`: the length of the longest common prefix of two strings. */
module StringExtensions {

  /** Reference definition: how many leading characters `a` and `b` share. */
  function CommonPrefixLength(a: string, b: string): (n: nat)
    ensures n <= |a| && n <= |b|
    ensures a[..n] == b[..n]
    ensures n < |a| && n < |b| ==> a[n] != b[n]
  {
    if a == [] || b == [] || a[0] != b[0] then 0
    else 1 + CommonPrefixLength(a[1..], b[1..])
  }

  /** The index loop of the source, with its early return at the first mismatch. */
  method ManyStartWith(s1: string, s2: string) returns (r: nat)
    ensures s1 == [] || s2 == [] ==> r == 0
    ensures r <= |s1| && r <= |s2|
    ensures s1[..r] == s2[..r]
    ensures r < |s1| && r < |s2| ==> s1[r] != s2[r]
    ensures r == CommonPrefixLength(s1, s2)
  {
    if s1 == [] || s2 == [] {
      return 0;
    }
    var i := 0;
    while i < |s1| && i < |s2|
      invariant i <= |s1| && i <= |s2|
      invariant s1[..i] == s2[..i]
    {
      if s1[i] != s2[i] {
        PrefixLengthUnique(s1, s2, i);
        return i;
      }
      i := i + 1;
    }
    PrefixLengthUnique(s1, s2, i);
    r := if |s1| < |s2| then |s1| else |s2|;
  }

  /** The three properties of the result determine it: it is the longest common prefix. */
  lemma {:induction false} PrefixLengthUnique(a: string, b: string, n: nat)
    requires n <= |a| && n <= |b| && a[..n] == b[..n]
    requires n < |a| && n < |b| ==> a[n] != b[n]
    ensures n == CommonPrefixLength(a, b)
  {
    if n > 0 {
      assert a[0] == a[..n][0] == b[..n][0] == b[0];
      assert a[1..][..n - 1] == a[1..n] == b[1..n] == b[1..][..n - 1];
      PrefixLengthUnique(a[1..], b[1..], n - 1);
    }
  }

  /** The common prefix length does not depend on the order of the two strings. */
  lemma {:induction false} CommonPrefixSymmetric(a: string, b: string)
    ensures CommonPrefixLength(a, b) == CommonPrefixLength(b, a)
  {
    var n := CommonPrefixLength(a, b);
    PrefixLengthUnique(b, a, n);
  }
}
