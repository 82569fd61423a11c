/** The order of strings by code points. */
module LexOrder {
  /** The strings agree up to `k`, and there the first has the smaller code point. */
  predicate LessAt(a: string, b: string, k: nat) {
    k < |a| && k < |b| && a[..k] == b[..k] && a[k] < b[k]
  }

  /** By code points at the first difference, a string before its extensions. */
  predicate LexLess(a: string, b: string) {
    a < b || exists k | 0 <= k < |a| :: LessAt(a, b, k)
  }

  lemma LessAtFirst(a: string, b: string)
    requires a != "" && b != ""
    ensures LessAt(a, b, 0) <==> a[0] < b[0]
    ensures a[0] != b[0] ==> forall k | 0 < k < |a| :: !LessAt(a, b, k)
  {
    assert a[..0] == b[..0];
    forall k | 0 < k < |a| && LessAt(a, b, k) ensures a[0] == b[0] {
      assert a[..k][0] == b[..k][0];
    }
  }

  lemma LessAtNext(a: string, b: string, k: nat)
    requires a != "" && b != "" && a[0] == b[0]
    ensures LessAt(a, b, k + 1) <==> LessAt(a[1..], b[1..], k)
  {
    if k + 1 < |a| && k + 1 < |b| {
      assert a[..k + 1] == [a[0]] + a[1..][..k] && b[..k + 1] == [b[0]] + b[1..][..k];
      assert a[..k + 1][1..] == a[1..][..k] && b[..k + 1][1..] == b[1..][..k];
    }
  }

  lemma PrefixNext(a: string, b: string)
    requires a != "" && b != ""
    ensures a < b <==> a[0] == b[0] && a[1..] < b[1..]
  {
    assert a == [a[0]] + a[1..] && b == [b[0]] + b[1..];
  }

  lemma LexNext(a: string, b: string)
    requires a != "" && b != ""
    ensures LexLess(a, b) <==> a[0] < b[0] || (a[0] == b[0] && LexLess(a[1..], b[1..]))
  {
    LessAtFirst(a, b);
    PrefixNext(a, b);
    if a[0] == b[0] {
      if k :| 0 <= k < |a| && LessAt(a, b, k) { LessAtNext(a, b, k - 1); }
      if k :| 0 <= k < |a[1..]| && LessAt(a[1..], b[1..], k) { LessAtNext(a, b, k); }
    }
  }
}
