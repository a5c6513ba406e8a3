/**
 * One pass of my_pthread.c's maintenance over a single run queue, as a function on
 * the queue: which threads leave for the top queue and which stay behind.
 */
module RunQueues {

  predicate Distinct<T(==)>(q: seq<T>) {
    forall i, j :: 0 <= i < j < |q| ==> q[i] != q[j]
  }

  function IndexOf<T(==)>(q: seq<T>, t: T): (k: nat)
    requires t in q
    ensures k < |q| && q[k] == t && t !in q[..k]
  {
    if q[0] == t then 0 else 1 + IndexOf(q[1..], t)
  }

  lemma DistinctJoin<T>(a: seq<T>, b: seq<T>)
    requires Distinct(a) && Distinct(b)
    requires forall t :: t in b ==> t !in a
    ensures Distinct(a + b)
  {
    forall i, j | 0 <= i < j < |a + b| ensures (a + b)[i] != (a + b)[j] {
      if i < |a| <= j { assert b[j - |a|] in b; }
    }
  }

  /** The pass skips the thread right after each one it promotes: that thread stays, aged or not. */
  function Kept<T(==)>(q: seq<T>, aged: set<T>): seq<T> {
    if q == [] then []
    else if q[0] !in aged then [q[0]] + Kept(q[1..], aged)
    else if |q| == 1 then []
    else [q[1]] + Kept(q[2..], aged)
  }

  function Promoted<T(==)>(q: seq<T>, aged: set<T>): seq<T> {
    if q == [] then []
    else if q[0] !in aged then Promoted(q[1..], aged)
    else if |q| == 1 then [q[0]]
    else [q[0]] + Promoted(q[2..], aged)
  }

  function CountAged<T(==)>(q: seq<T>, aged: set<T>): nat {
    if q == [] then 0 else (if q[0] in aged then 1 else 0) + CountAged(q[1..], aged)
  }

  /** `sub` is `q` with some elements struck out, the rest in their old order. */
  predicate Subsequence<T(==)>(sub: seq<T>, q: seq<T>) {
    sub == [] ||
    (q != [] && ((sub[0] == q[0] && Subsequence(sub[1..], q[1..])) || Subsequence(sub, q[1..])))
  }

  /** No thread is lost and none is duplicated. */
  lemma {:induction false} PassPartitions<T>(q: seq<T>, aged: set<T>)
    ensures multiset(Kept(q, aged)) + multiset(Promoted(q, aged)) == multiset(q)
  {
    if q == [] {
    } else if q[0] !in aged {
      var rest := q[1..];
      var k, p := Kept(rest, aged), Promoted(rest, aged);
      PassPartitions(rest, aged);
      SkipOne(q[0], rest, k, p);
      assert q == [q[0]] + rest && Kept(q, aged) == [q[0]] + k && Promoted(q, aged) == p;
    } else if |q| == 1 {
      assert q == [q[0]];
    } else {
      var rest := q[2..];
      var k, p := Kept(rest, aged), Promoted(rest, aged);
      PassPartitions(rest, aged);
      SplitTwo(q[0], q[1], rest, k, p);
      assert q == [q[0], q[1]] + rest && Kept(q, aged) == [q[1]] + k && Promoted(q, aged) == [q[0]] + p;
    }
  }

  lemma SkipOne<T>(x: T, rest: seq<T>, k: seq<T>, p: seq<T>)
    requires multiset(k) + multiset(p) == multiset(rest)
    ensures multiset([x] + k) + multiset(p) == multiset([x] + rest)
  {
  }

  lemma SplitTwo<T>(x: T, y: T, rest: seq<T>, k: seq<T>, p: seq<T>)
    requires multiset(k) + multiset(p) == multiset(rest)
    ensures multiset([y] + k) + multiset([x] + p) == multiset([x, y] + rest)
  {
  }

  lemma {:induction false} PassMembers<T>(q: seq<T>, aged: set<T>, t: T)
    ensures t in q <==> t in Kept(q, aged) || t in Promoted(q, aged)
    ensures t in Promoted(q, aged) ==> t in aged
  {
    PassPartitions(q, aged);
    assert t in q <==> t in multiset(q);
    PromotedAreAged(q, aged);
  }

  lemma {:induction false} PromotedAreAged<T>(q: seq<T>, aged: set<T>)
    ensures forall t :: t in Promoted(q, aged) ==> t in aged
  {
    if q != [] {
      if q[0] !in aged {
        PromotedAreAged(q[1..], aged);
      } else if |q| > 1 {
        PromotedAreAged(q[2..], aged);
      }
    }
  }

  /** Exactly who leaves: an aged thread, unless the thread right in front of it left. */
  lemma {:induction false} PromotedIff<T>(q: seq<T>, aged: set<T>, k: nat)
    requires Distinct(q) && k < |q|
    ensures q[k] in Promoted(q, aged) <==> q[k] in aged && (k == 0 || q[k - 1] !in Promoted(q, aged))
    decreases |q|
  {
    if q[0] !in aged {
      if k > 0 { PromotedIff(q[1..], aged, k - 1); }
      PromotedAreAged(q, aged);
    } else if |q| > 1 {
      PromotedFromQueue(q[2..], aged, q[1]);
      PromotedFromQueue(q[2..], aged, q[0]);
      if k > 1 { PromotedIff(q[2..], aged, k - 2); }
    }
  }

  lemma PromotedFromQueue<T>(q: seq<T>, aged: set<T>, t: T)
    requires t !in q
    ensures t !in Promoted(q, aged)
  {
    PassMembers(q, aged, t);
  }

  lemma {:induction false} SubsequenceExtends<T>(sub: seq<T>, q: seq<T>)
    requires q != [] && Subsequence(sub, q[1..])
    ensures Subsequence(sub, q)
  {
  }

  /** Order is kept in both parts. */
  lemma {:induction false} PassKeepsOrder<T>(q: seq<T>, aged: set<T>)
    ensures Subsequence(Kept(q, aged), q)
    ensures Subsequence(Promoted(q, aged), q)
  {
    if q != [] {
      if q[0] !in aged {
        PassKeepsOrder(q[1..], aged);
        assert Kept(q, aged)[1..] == Kept(q[1..], aged);
      } else if |q| > 1 {
        PassKeepsOrder(q[2..], aged);
        assert q[1..][1..] == q[2..];
        assert Kept(q, aged)[1..] == Kept(q[2..], aged);
        assert Promoted(q, aged)[1..] == Promoted(q[2..], aged);
        assert Subsequence(Kept(q, aged), q[1..]);
        SubsequenceExtends(Promoted(q[2..], aged), q[1..]);
      } else {
        assert Promoted(q, aged)[1..] == [];
      }
    }
  }

  /** The aged thread nearest the front is always promoted, and first. */
  lemma {:induction false} FirstAgedIsPromoted<T>(q: seq<T>, aged: set<T>, k: nat)
    requires k < |q| && q[k] in aged
    requires forall i :: 0 <= i < k ==> q[i] !in aged
    ensures Promoted(q, aged) != [] && Promoted(q, aged)[0] == q[k]
  {
    if k > 0 {
      assert q[0] !in aged;
      assert q[1..][k - 1] == q[k];
      FirstAgedIsPromoted(q[1..], aged, k - 1);
    }
  }

  /** At most as many aged threads stay behind as are promoted. */
  lemma {:induction false} LeftBehindBound<T>(q: seq<T>, aged: set<T>)
    ensures CountAged(Kept(q, aged), aged) <= |Promoted(q, aged)|
  {
    if q != [] {
      var kept := Kept(q, aged);
      if q[0] !in aged {
        LeftBehindBound(q[1..], aged);
        assert kept[1..] == Kept(q[1..], aged);
      } else if |q| > 1 {
        LeftBehindBound(q[2..], aged);
        assert kept[1..] == Kept(q[2..], aged);
      }
    }
  }

  /** A thread that stays never falls back, and an aged one moves strictly forward. */
  lemma {:induction false} LeftBehindMovesForward<T>(q: seq<T>, aged: set<T>, t: T)
    requires Distinct(q) && t in Kept(q, aged)
    ensures t in q && IndexOf(Kept(q, aged), t) <= IndexOf(q, t)
    ensures t in aged ==> IndexOf(Kept(q, aged), t) < IndexOf(q, t)
  {
    PassMembers(q, aged, t);
    var kept := Kept(q, aged);
    if q[0] !in aged {
      assert kept[1..] == Kept(q[1..], aged);
      if t != q[0] { LeftBehindMovesForward(q[1..], aged, t); }
    } else {
      assert kept[1..] == Kept(q[2..], aged);
      if t != q[1] {
        LeftBehindMovesForward(q[2..], aged, t);
        assert q[1..][1..] == q[2..];
        assert t != q[0];
      } else {
        assert q[1..][0] == q[1] && q[0] != q[1];
      }
    }
  }

  lemma {:induction false} PassKeepsDistinct<T>(q: seq<T>, aged: set<T>)
    requires Distinct(q)
    ensures Distinct(Kept(q, aged)) && Distinct(Promoted(q, aged))
    ensures forall t :: t in Kept(q, aged) ==> t !in Promoted(q, aged)
  {
    PassPartitions(q, aged);
    DistinctByCount(q);
    var kept, promoted := multiset(Kept(q, aged)), multiset(Promoted(q, aged));
    forall t | t in kept ensures kept[t] <= 1 { assert t in multiset(q); }
    forall t | t in promoted ensures promoted[t] <= 1 { assert t in multiset(q); }
    CountsMeanDistinct(Kept(q, aged));
    CountsMeanDistinct(Promoted(q, aged));
    forall t | t in Kept(q, aged) ensures t !in Promoted(q, aged) {
      assert t in kept && multiset(q)[t] == 1;
      assert t !in promoted;
    }
  }

  lemma {:induction false} DistinctByCount<T>(q: seq<T>)
    requires Distinct(q)
    ensures forall t :: t in multiset(q) ==> multiset(q)[t] == 1
  {
    if q != [] {
      DistinctByCount(q[1..]);
      assert q == [q[0]] + q[1..];
      assert q[0] !in q[1..];
    }
  }

  lemma {:induction false} CountsMeanDistinct<T>(q: seq<T>)
    requires forall t :: t in multiset(q) ==> multiset(q)[t] <= 1
    ensures Distinct(q)
  {
    if q != [] {
      var rest := q[1..];
      assert q == [q[0]] + rest;
      assert multiset(q)[q[0]] == 1 + multiset(rest)[q[0]];
      forall t | t in multiset(rest) ensures multiset(rest)[t] <= 1 {
        assert t in multiset(q);
      }
      CountsMeanDistinct(rest);
      assert q[0] in multiset(q) && q[0] !in multiset(rest);
      forall i, j | 0 <= i < j < |q| ensures q[i] != q[j] {
        if i == 0 {
          assert q[j] == rest[j - 1] && rest[j - 1] in rest;
        } else {
          assert q[i] == rest[i - 1] && q[j] == rest[j - 1];
        }
      }
    }
  }
}
