/** The standard way poker orders two hands of the same category, stated
    without reference to positions: list the hand's distinct values, those
    occurring more often first and higher values first among equals, and
    compare the lists lexicographically. Such a list is unique, and a
    positional recipe for sorted five-card hands produces it. */
module HandKeys {
  import opened Hands

  /** `x` comes before `y` in a key for `v`: it occurs more often, or as
      often and is higher. */
  predicate Outranks(v: seq<int>, x: int, y: int) {
    Count(v, x) > Count(v, y) || (Count(v, x) == Count(v, y) && x > y)
  }

  /** Every element outranks every later one. */
  predicate Chain(k: seq<int>, v: seq<int>) {
    forall i, j :: 0 <= i < j < |k| ==> Outranks(v, k[i], k[j])
  }

  /** `k` lists each value of `v` once, in outranking order. */
  predicate IsCanonicalKey(k: seq<int>, v: seq<int>) {
    && (forall i :: 0 <= i < |k| ==> k[i] in v)
    && (forall i :: 0 <= i < |v| ==> v[i] in k)
    && Chain(k, v)
  }

  /** Two outranking chains over the same elements are the same sequence. */
  lemma {:induction false} ChainUnique(a: seq<int>, b: seq<int>, v: seq<int>)
    requires Chain(a, v) && Chain(b, v)
    requires forall x :: x in a <==> x in b
    ensures a == b
    decreases |a|
  {
    if |a| == 0 {
      if |b| > 0 {
        HeadIsMember(b);
        assert false;
      }
    } else {
      assert a[0] in a;
      assert |b| > 0;
      assert b[0] in b;
      var j :| 0 <= j < |b| && b[j] == a[0];
      var i :| 0 <= i < |a| && a[i] == b[0];
      if j > 0 {
        assert false;
      }
      assert a[0] == b[0];
      forall x
        ensures x in a[1..] <==> x in b[1..]
      {
        if x in a[1..] {
          var k :| 1 <= k < |a| && a[k] == x;
          assert Outranks(v, a[0], x);
          assert x in b && x != b[0];
          var l :| 0 <= l < |b| && b[l] == x;
          assert b[1..][l - 1] == x;
        }
        if x in b[1..] {
          var k :| 1 <= k < |b| && b[k] == x;
          assert Outranks(v, b[0], x);
          assert x in a && x != a[0];
          var l :| 0 <= l < |a| && a[l] == x;
          assert a[1..][l - 1] == x;
        }
      }
      ChainUnique(a[1..], b[1..], v);
      assert a == [a[0]] + a[1..];
      assert b == [b[0]] + b[1..];
    }
  }

  lemma HeadIsMember(s: seq<int>)
    requires |s| > 0
    ensures s[0] in s
  {
  }

  /** A hand's values have at most one canonical key. */
  lemma CanonicalKeyUnique(k1: seq<int>, k2: seq<int>, v: seq<int>)
    requires IsCanonicalKey(k1, v) && IsCanonicalKey(k2, v)
    ensures k1 == k2
  {
    forall x
      ensures x in k1 <==> x in k2
    {
      if x in k1 {
        var i :| 0 <= i < |k1| && k1[i] == x;
        var j :| 0 <= j < |v| && v[j] == x;
      }
      if x in k2 {
        var i :| 0 <= i < |k2| && k2[i] == x;
        var j :| 0 <= j < |v| && v[j] == x;
      }
    }
    ChainUnique(k1, k2, v);
  }

  /** The canonical key of five ascending values, read off by position:
      quads, full house, trips, two pair, one pair, or five singles. */
  function KeyOf(v: seq<int>): seq<int>
    requires |v| == 5
  {
    if v[0] == v[3] then [v[0], v[4]]
    else if v[1] == v[4] then [v[4], v[0]]
    else if v[0] == v[2] && v[3] == v[4] then [v[0], v[3]]
    else if v[0] == v[1] && v[2] == v[4] then [v[2], v[0]]
    else if v[0] == v[2] then [v[0], v[4], v[3]]
    else if v[1] == v[3] then [v[1], v[4], v[0]]
    else if v[2] == v[4] then [v[2], v[1], v[0]]
    else if v[0] == v[1] && v[2] == v[3] then [v[2], v[0], v[4]]
    else if v[0] == v[1] && v[3] == v[4] then [v[3], v[0], v[2]]
    else if v[1] == v[2] && v[3] == v[4] then [v[3], v[1], v[0]]
    else if v[0] == v[1] then [v[0], v[4], v[3], v[2]]
    else if v[1] == v[2] then [v[1], v[4], v[3], v[0]]
    else if v[2] == v[3] then [v[2], v[4], v[1], v[0]]
    else if v[3] == v[4] then [v[3], v[2], v[1], v[0]]
    else [v[4], v[3], v[2], v[1], v[0]]
  }

  /** Five ascending values, not all equal, have `KeyOf` as their canonical
      key. */
  lemma KeyOfCanonical(v: seq<int>)
    requires |v| == 5 && Ascending(v) && v[0] != v[4]
    ensures IsCanonicalKey(KeyOf(v), v)
  {
    assert v[0] <= v[1] <= v[2] <= v[3] <= v[4];
    if v[0] == v[3] {
      KeyLowQuad(v);
    } else if v[1] == v[4] {
      KeyHighQuad(v);
    } else if v[0] == v[2] && v[3] == v[4] {
      KeyLowTripsFull(v);
    } else if v[0] == v[1] && v[2] == v[4] {
      KeyHighTripsFull(v);
    } else if v[0] == v[2] {
      KeyLowTrips(v);
    } else if v[1] == v[3] {
      KeyMiddleTrips(v);
    } else if v[2] == v[4] {
      KeyHighTrips(v);
    } else if v[0] == v[1] && v[2] == v[3] {
      KeyTwoPairHighKicker(v);
    } else if v[0] == v[1] && v[3] == v[4] {
      KeyTwoPairMiddleKicker(v);
    } else if v[1] == v[2] && v[3] == v[4] {
      KeyTwoPairLowKicker(v);
    } else if v[0] == v[1] {
      KeyPairFirst(v);
    } else if v[1] == v[2] {
      KeyPairSecond(v);
    } else if v[2] == v[3] {
      KeyPairThird(v);
    } else if v[3] == v[4] {
      KeyPairLast(v);
    } else {
      KeySingles(v);
    }
  }

  /** Four of a kind below a single. */
  lemma KeyLowQuad(v: seq<int>)
    requires |v| == 5 && v[0] == v[1] == v[2] == v[3] < v[4]
    ensures IsCanonicalKey([v[0], v[4]], v)
  {
    CountFive(v, v[0]);
    CountFive(v, v[4]);
  }

  /** Four of a kind above a single. */
  lemma KeyHighQuad(v: seq<int>)
    requires |v| == 5 && v[0] < v[1] == v[2] == v[3] == v[4]
    ensures IsCanonicalKey([v[4], v[0]], v)
  {
    CountFive(v, v[4]);
    CountFive(v, v[0]);
  }

  /** Trips below a pair. */
  lemma KeyLowTripsFull(v: seq<int>)
    requires |v| == 5 && v[0] == v[1] == v[2] < v[3] == v[4]
    ensures IsCanonicalKey([v[0], v[3]], v)
  {
    CountFive(v, v[0]);
    CountFive(v, v[3]);
  }

  /** A pair below trips. */
  lemma KeyHighTripsFull(v: seq<int>)
    requires |v| == 5 && v[0] == v[1] < v[2] == v[3] == v[4]
    ensures IsCanonicalKey([v[2], v[0]], v)
  {
    CountFive(v, v[2]);
    CountFive(v, v[0]);
  }

  /** Trips below two singles. */
  lemma KeyLowTrips(v: seq<int>)
    requires |v| == 5 && v[0] == v[1] == v[2] < v[3] < v[4]
    ensures IsCanonicalKey([v[0], v[4], v[3]], v)
  {
    CountFive(v, v[0]);
    CountFive(v, v[4]);
    CountFive(v, v[3]);
  }

  /** Trips between two singles. */
  lemma KeyMiddleTrips(v: seq<int>)
    requires |v| == 5 && v[0] < v[1] == v[2] == v[3] < v[4]
    ensures IsCanonicalKey([v[1], v[4], v[0]], v)
  {
    CountFive(v, v[1]);
    CountFive(v, v[4]);
    CountFive(v, v[0]);
  }

  /** Trips above two singles. */
  lemma KeyHighTrips(v: seq<int>)
    requires |v| == 5 && v[0] < v[1] < v[2] == v[3] == v[4]
    ensures IsCanonicalKey([v[2], v[1], v[0]], v)
  {
    CountFive(v, v[2]);
    CountFive(v, v[1]);
    CountFive(v, v[0]);
  }

  /** Two pairs below the single. */
  lemma KeyTwoPairHighKicker(v: seq<int>)
    requires |v| == 5 && v[0] == v[1] < v[2] == v[3] < v[4]
    ensures IsCanonicalKey([v[2], v[0], v[4]], v)
  {
    CountFive(v, v[2]);
    CountFive(v, v[0]);
    CountFive(v, v[4]);
  }

  /** The single between the pairs. */
  lemma KeyTwoPairMiddleKicker(v: seq<int>)
    requires |v| == 5 && v[0] == v[1] < v[2] < v[3] == v[4]
    ensures IsCanonicalKey([v[3], v[0], v[2]], v)
  {
    CountFive(v, v[3]);
    CountFive(v, v[0]);
    CountFive(v, v[2]);
  }

  /** Two pairs above the single. */
  lemma KeyTwoPairLowKicker(v: seq<int>)
    requires |v| == 5 && v[0] < v[1] == v[2] < v[3] == v[4]
    ensures IsCanonicalKey([v[3], v[1], v[0]], v)
  {
    CountFive(v, v[3]);
    CountFive(v, v[1]);
    CountFive(v, v[0]);
  }

  /** A pair in positions 0 and 1. */
  lemma KeyPairFirst(v: seq<int>)
    requires |v| == 5 && v[0] == v[1] < v[2] < v[3] < v[4]
    ensures IsCanonicalKey([v[0], v[4], v[3], v[2]], v)
  {
    CountFive(v, v[0]);
    CountFive(v, v[4]);
    CountFive(v, v[3]);
    CountFive(v, v[2]);
  }

  /** A pair in positions 1 and 2. */
  lemma KeyPairSecond(v: seq<int>)
    requires |v| == 5 && v[0] < v[1] == v[2] < v[3] < v[4]
    ensures IsCanonicalKey([v[1], v[4], v[3], v[0]], v)
  {
    CountFive(v, v[1]);
    CountFive(v, v[4]);
    CountFive(v, v[3]);
    CountFive(v, v[0]);
  }

  /** A pair in positions 2 and 3. */
  lemma KeyPairThird(v: seq<int>)
    requires |v| == 5 && v[0] < v[1] < v[2] == v[3] < v[4]
    ensures IsCanonicalKey([v[2], v[4], v[1], v[0]], v)
  {
    CountFive(v, v[2]);
    CountFive(v, v[4]);
    CountFive(v, v[1]);
    CountFive(v, v[0]);
  }

  /** A pair in positions 3 and 4. */
  lemma KeyPairLast(v: seq<int>)
    requires |v| == 5 && v[0] < v[1] < v[2] < v[3] == v[4]
    ensures IsCanonicalKey([v[3], v[2], v[1], v[0]], v)
  {
    CountFive(v, v[3]);
    CountFive(v, v[2]);
    CountFive(v, v[1]);
    CountFive(v, v[0]);
  }

  /** Five different values. */
  lemma KeySingles(v: seq<int>)
    requires |v| == 5 && v[0] < v[1] < v[2] < v[3] < v[4]
    ensures IsCanonicalKey([v[4], v[3], v[2], v[1], v[0]], v)
  {
    CountFive(v, v[4]);
    CountFive(v, v[3]);
    CountFive(v, v[2]);
    CountFive(v, v[1]);
    CountFive(v, v[0]);
  }

  // ----- Keys do not depend on the order of the values -----

  /** `Count` is the multiplicity in the multiset of the values. */
  lemma {:induction false} CountIsMultiplicity(v: seq<int>, x: int)
    ensures Count(v, x) == multiset(v)[x]
    decreases |v|
  {
    if |v| > 0 {
      CountIsMultiplicity(v[1..], x);
      assert v == [v[0]] + v[1..];
    }
  }

  /** Whether `k` is a canonical key of `v` depends only on the multiset of
      `v`. */
  lemma KeyPermutation(k: seq<int>, v: seq<int>, w: seq<int>)
    requires multiset(v) == multiset(w)
    ensures IsCanonicalKey(k, v) <==> IsCanonicalKey(k, w)
  {
    if IsCanonicalKey(k, v) {
      KeyTransfer(k, v, w);
    }
    if IsCanonicalKey(k, w) {
      KeyTransfer(k, w, v);
    }
  }

  lemma KeyTransfer(k: seq<int>, v: seq<int>, w: seq<int>)
    requires multiset(v) == multiset(w) && IsCanonicalKey(k, v)
    ensures IsCanonicalKey(k, w)
  {
    forall x, y
      ensures Outranks(v, x, y) == Outranks(w, x, y)
    {
      CountIsMultiplicity(v, x);
      CountIsMultiplicity(w, x);
      CountIsMultiplicity(v, y);
      CountIsMultiplicity(w, y);
    }
    forall x
      ensures x in v <==> x in w
    {
      assert x in v <==> x in multiset(v);
      assert x in w <==> x in multiset(w);
    }
    forall i | 0 <= i < |w|
      ensures w[i] in k
    {
      assert w[i] in v;
      var j :| 0 <= j < |v| && v[j] == w[i];
    }
  }
}
