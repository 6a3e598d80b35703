/** Where a sequence occurs inside a longer one. */
module Slices {

  // d holds b from position p on.
  ghost predicate Has<T>(d: seq<T>, p: nat, b: seq<T>)
  {
    p + |b| <= |d| && forall k {:trigger b[k]} :: 0 <= k < |b| ==> d[p + k] == b[k]
  }

  lemma HasSlice<T>(d: seq<T>, p: nat, b: seq<T>)
    requires Has(d, p, b)
    ensures d[p..p + |b|] == b
  {
  }

  lemma HasFits<T>(d: seq<T>, p: nat, b: seq<T>)
    requires Has(d, p, b)
    ensures p + |b| <= |d|
  {
  }

  lemma HasPart<T>(d: seq<T>, p: nat, b: seq<T>, i: nat, j: nat)
    requires Has(d, p, b) && i <= j <= |b|
    ensures Has(d, p + i, b[i..j])
  {
    forall k | 0 <= k < j - i ensures d[p + i + k] == b[i..j][k] {
      assert d[p + (i + k)] == b[i + k];
    }
  }

  lemma HasAt<T>(d: seq<T>, p: nat, b: seq<T>, i: nat)
    requires Has(d, p, b) && i < |b|
    ensures d[p + i] == b[i]
  {
  }

  lemma HasSplit<T>(d: seq<T>, p: nat, a: seq<T>, b: seq<T>)
    requires Has(d, p, a + b)
    ensures Has(d, p, a) && Has(d, p + |a|, b)
  {
    forall k | 0 <= k < |a| ensures d[p + k] == a[k] {
      assert (a + b)[k] == a[k];
    }
    forall k | 0 <= k < |b| ensures d[p + |a| + k] == b[k] {
      assert (a + b)[|a| + k] == b[k];
      assert d[p + (|a| + k)] == (a + b)[|a| + k];
    }
  }

  lemma HasWhole<T>(d: seq<T>)
    ensures Has(d, 0, d)
  {
  }

  // Occurrence is transitive.
  lemma HasTrans<T>(d: seq<T>, p: nat, b: seq<T>, q: nat, c: seq<T>)
    requires Has(d, p, b) && Has(b, q, c)
    ensures Has(d, p + q, c)
  {
    forall k | 0 <= k < |c| ensures d[p + q + k] == c[k] {
      assert b[q + k] == c[k];
      assert d[p + (q + k)] == b[q + k];
    }
  }

  lemma HasLeft<T>(a: seq<T>, b: seq<T>, q: nat, c: seq<T>)
    requires Has(a, q, c)
    ensures Has(a + b, q, c)
  {
  }

  lemma HasRight<T>(a: seq<T>, b: seq<T>)
    ensures Has(a + b, |a|, b)
  {
  }
}
