/** The thresholds of the policies that the relayer makes, over distinct MSP IDs. */
module Quorum {
  import opened Basics

  /** `len(mspids)/2+1`. */
  function Threshold(n: nat): nat {
    n / 2 + 1
  }

  /** Any two sets of signers that satisfy a threshold have a member in common. */
  ghost predicate AlwaysMeet(ids: set<Bytes>, t: nat) {
    forall a, b :: a <= ids && b <= ids && |a| >= t && |b| >= t ==> exists id :: id in a && id in b
  }

  lemma {:induction false} SubsetSize(a: set<Bytes>, b: set<Bytes>)
    requires a <= b
    ensures |a| <= |b|
    decreases a
  {
    if x :| x in a {
      SubsetSize(a - {x}, b - {x});
    }
  }

  lemma {:induction false} Choose(ids: set<Bytes>, t: nat) returns (a: set<Bytes>)
    requires t <= |ids|
    ensures a <= ids && |a| == t
    decreases t
  {
    if t == 0 {
      a := {};
    } else {
      var x :| x in ids;
      a := Choose(ids - {x}, t - 1);
      a := a + {x};
    }
  }

  /** The policies' threshold is exactly what it takes: quorums always meet from it on, and below it they need not. */
  lemma ThresholdIsExact(ids: set<Bytes>, t: nat)
    ensures AlwaysMeet(ids, t) <==> t >= Threshold(|ids|)
  {
    if t >= Threshold(|ids|) {
      forall a, b | a <= ids && b <= ids && |a| >= t && |b| >= t
        ensures exists id :: id in a && id in b
      {
        SubsetSize(a + b, ids);
        assert |a + b| + |a * b| == |a| + |b|;
        var id :| id in a * b;
      }
    } else {
      var a := Choose(ids, t);
      assert |ids - a| == |ids| - t by {
        assert (ids - a) * a == {} && (ids - a) + a == ids;
      }
      var b := Choose(ids - a, t);
      assert a <= ids && b <= ids && forall id :: id in a ==> id !in b;
    }
  }
}
