/** Inversion counts: the measure by which the exchange sort of mtsort.c makes progress. */
module Inversions {

  /** Neighbouring elements are in order: the condition the checker thread scans for. */
  predicate Sorted(s: seq<int>) {
    forall i :: 0 <= i < |s| - 1 ==> s[i] <= s[i + 1]
  }

  function Exchange(s: seq<int>, i: nat): (r: seq<int>)
    requires i + 1 < |s|
    ensures |r| == |s|
  {
    s[i := s[i + 1]][i + 1 := s[i]]
  }

  function CountBelow(s: seq<int>, x: int): nat {
    if s == [] then 0 else (if s[0] < x then 1 else 0) + CountBelow(s[1..], x)
  }

  /** The number of pairs i < j with s[i] > s[j]. */
  function Count(s: seq<int>): nat {
    if s == [] then 0 else CountBelow(s[1..], s[0]) + Count(s[1..])
  }

  lemma {:induction false} SortedIsTotal(s: seq<int>, i: nat, j: nat)
    requires Sorted(s) && i <= j < |s|
    ensures s[i] <= s[j]
  {
    if i < j {
      SortedIsTotal(s, i, j - 1);
      assert s[j - 1] <= s[j - 1 + 1];
    }
  }

  lemma ExchangeKeepsElements(s: seq<int>, i: nat)
    requires i + 1 < |s|
    ensures multiset(Exchange(s, i)) == multiset(s)
  {
  }

  lemma {:induction false} ExchangeKeepsCountBelow(s: seq<int>, i: nat, x: int)
    requires i + 1 < |s|
    ensures CountBelow(Exchange(s, i), x) == CountBelow(s, x)
  {
    var e := Exchange(s, i);
    if i == 0 {
      assert e[1..][1..] == s[1..][1..];
    } else {
      assert e[1..] == Exchange(s[1..], i - 1);
      ExchangeKeepsCountBelow(s[1..], i - 1, x);
    }
  }

  /** Exchanging an inverted neighbouring pair removes exactly one inversion. */
  lemma {:induction false} ExchangeRemovesOneInversion(s: seq<int>, i: nat)
    requires i + 1 < |s| && s[i + 1] < s[i]
    ensures Count(Exchange(s, i)) == Count(s) - 1
  {
    var e := Exchange(s, i);
    if i == 0 {
      assert e[1..][1..] == s[1..][1..];
      assert s[1..][0] == s[1] && e[1..][0] == s[0];
    } else {
      assert e[1..] == Exchange(s[1..], i - 1);
      ExchangeKeepsCountBelow(s[1..], i - 1, s[0]);
      ExchangeRemovesOneInversion(s[1..], i - 1);
    }
  }

  lemma {:induction false} CountBelowBound(s: seq<int>, x: int)
    ensures CountBelow(s, x) <= |s|
  {
    if s != [] { CountBelowBound(s[1..], x); }
  }

  lemma {:induction false} CountBound(s: seq<int>)
    ensures 2 * Count(s) <= |s| * (|s| - 1)
  {
    if s != [] {
      CountBelowBound(s[1..], s[0]);
      CountBound(s[1..]);
      var n := |s|;
      assert n * (n - 1) == (n - 1) * (n - 2) + 2 * (n - 1);
    }
  }

  lemma {:induction false} CountBelowZero(s: seq<int>, x: int)
    ensures CountBelow(s, x) == 0 <==> forall i :: 0 <= i < |s| ==> x <= s[i]
  {
    if s != [] {
      CountBelowZero(s[1..], x);
      assert forall i :: 1 <= i < |s| ==> s[i] == s[1..][i - 1];
    }
  }

  /** A list has no inversion exactly when it is sorted. */
  lemma {:induction false} NoInversionsIffSorted(s: seq<int>)
    ensures Count(s) == 0 <==> Sorted(s)
  {
    if s != [] {
      var t := s[1..];
      NoInversionsIffSorted(t);
      CountBelowZero(t, s[0]);
      assert forall i :: 0 <= i < |t| ==> t[i] == s[i + 1];
      if Sorted(s) {
        forall i | 0 <= i < |t| - 1 ensures t[i] <= t[i + 1] {
          assert s[i + 1] <= s[i + 1 + 1];
        }
        forall i | 0 <= i < |t| ensures s[0] <= t[i] { SortedIsTotal(s, 0, i + 1); }
      }
      if Count(s) == 0 {
        forall i | 0 <= i < |s| - 1 ensures s[i] <= s[i + 1] {
          if i > 0 { assert t[i - 1] <= t[i - 1 + 1]; } else { assert s[0] <= t[0]; }
        }
      }
    }
  }
}
