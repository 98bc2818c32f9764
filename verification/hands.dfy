/** Hands: card sequences, their value sequences, the ascending sort that
    `List<Card>.Sort` performs, and value multiplicities. */
module Hands {
  import opened Cards

  /** The values of a hand, position by position. */
  function Values(h: seq<Card>): seq<int> {
    seq(|h|, i requires 0 <= i < |h| => h[i].value)
  }

  /** Ascending by value (the order `CompareTo` induces). */
  predicate SortedByValue(h: seq<Card>) {
    forall i, j :: 0 <= i < j < |h| ==> h[i].value <= h[j].value
  }

  predicate Ascending(v: seq<int>) {
    forall i, j :: 0 <= i < j < |v| ==> v[i] <= v[j]
  }

  /** Every card carries the suit of the first card. */
  predicate SameSuit(h: seq<Card>) {
    forall i :: 0 <= i < |h| ==> h[i].suit == h[0].suit
  }

  /** No card occurs twice, as in a hand dealt from one deck. */
  predicate DistinctCards(h: seq<Card>) {
    forall i, j :: 0 <= i < j < |h| ==> h[i] != h[j]
  }

  /** How many times `x` occurs in `v`. */
  function Count(v: seq<int>, x: int): nat {
    if |v| == 0 then 0
    else (if v[0] == x then 1 else 0) + Count(v[1..], x)
  }

  /** Inserts `c` before the first card it does not compare above. */
  function Insert(c: Card, h: seq<Card>): (r: seq<Card>)
    requires SortedByValue(h)
    ensures SortedByValue(r)
    ensures multiset(r) == multiset(h) + multiset{c}
  {
    if |h| == 0 then [c]
    else if CompareTo(c, h[0]) <= 0 then [c] + h
    else
      var rest := Insert(c, h[1..]);
      InsertBehind(c, h, rest);
      [h[0]] + rest
  }

  /** The recursive step of `Insert`: a card above the head goes into the
      tail. */
  lemma InsertBehind(c: Card, h: seq<Card>, rest: seq<Card>)
    requires |h| > 0 && SortedByValue(h) && c.value > h[0].value
    requires SortedByValue(rest) && multiset(rest) == multiset(h[1..]) + multiset{c}
    ensures SortedByValue([h[0]] + rest)
    ensures multiset([h[0]] + rest) == multiset(h) + multiset{c}
  {
    assert h == [h[0]] + h[1..];
    assert multiset(rest) == multiset([c] + h[1..]);
    PrependSorted(h[0], rest, [c] + h[1..]);
  }

  /** A card no higher than any card of `pool` may be put in front of an
      ascending arrangement of `pool`. */
  lemma PrependSorted(x: Card, rest: seq<Card>, pool: seq<Card>)
    requires SortedByValue(rest) && multiset(rest) == multiset(pool)
    requires forall k :: 0 <= k < |pool| ==> x.value <= pool[k].value
    ensures SortedByValue([x] + rest)
  {
    forall k | 0 <= k < |rest|
      ensures x.value <= rest[k].value
    {
      var j := IndexOf(pool, rest[k]);
    }
  }

  /** `List<Card>.Sort`: an ascending permutation of the hand. The library's
      sort is not stable; `SortedPermutationsAgree` shows that the order among
      cards of equal value cannot matter. */
  function SortByValue(h: seq<Card>): (r: seq<Card>)
    ensures SortedByValue(r)
    ensures multiset(r) == multiset(h)
    ensures |r| == |h|
  {
    if |h| == 0 then []
    else
      assert h == [h[0]] + h[1..];
      Insert(h[0], SortByValue(h[1..]))
  }

  /** Sorting an already ascending hand leaves it unchanged. */
  lemma {:induction false} SortSorted(h: seq<Card>)
    requires SortedByValue(h)
    ensures SortByValue(h) == h
  {
    if |h| > 0 {
      SortSorted(h[1..]);
      assert SortByValue(h[1..]) == h[1..];
    }
  }

  /** Equal multisets of cards give equal multisets of values. */
  lemma {:induction false} PermutationValues(a: seq<Card>, b: seq<Card>)
    requires multiset(a) == multiset(b)
    ensures multiset(Values(a)) == multiset(Values(b))
    decreases |a|
  {
    if |a| == 0 {
      assert |b| == |multiset(b)| == 0;
    } else {
      var x := a[0];
      var j := IndexOf(b, x);
      var b' := b[..j] + b[j + 1..];
      RemoveAt(b, j);
      assert a == [x] + a[1..];
      assert multiset(a[1..]) == multiset(a) - multiset{x};
      PermutationValues(a[1..], b');
      ValuesConcat([x], a[1..]);
      assert Values([x]) == [x.value];
      assert Values(a) == [x.value] + Values(a[1..]);
      ValuesAround(b, j);
      var l, r := Values(b[..j]), Values(b[j + 1..]);
      assert multiset(Values(b')) == multiset(l) + multiset(r);
      assert multiset(Values(b)) == multiset(l) + multiset{x.value} + multiset(r);
      assert multiset(Values(a)) == multiset{x.value} + multiset(Values(a[1..]));
    }
  }

  /** A position at which a member of a sequence occurs. */
  lemma IndexOf<T>(s: seq<T>, x: T) returns (j: int)
    requires x in multiset(s)
    ensures 0 <= j < |s| && s[j] == x
  {
    assert x in s;
    j :| 0 <= j < |s| && s[j] == x;
  }

  /** The values of a hand are those before position `j`, the value at `j`,
      and those after it. */
  lemma ValuesAround(b: seq<Card>, j: int)
    requires 0 <= j < |b|
    ensures Values(b) == Values(b[..j]) + [b[j].value] + Values(b[j + 1..])
    ensures Values(b[..j] + b[j + 1..]) == Values(b[..j]) + Values(b[j + 1..])
  {
    ValuesConcat(b[..j], b[j + 1..]);
    ValuesConcat(b[..j], [b[j]] + b[j + 1..]);
    ValuesConcat([b[j]], b[j + 1..]);
    assert b == b[..j] + ([b[j]] + b[j + 1..]);
  }


  lemma ValuesConcat(a: seq<Card>, b: seq<Card>)
    ensures Values(a + b) == Values(a) + Values(b)
  {
  }

  /** Deleting position `j` removes one copy of `s[j]` from the multiset. */
  lemma RemoveAt<T>(s: seq<T>, j: int)
    requires 0 <= j < |s|
    ensures multiset(s[..j] + s[j + 1..]) == multiset(s) - multiset{s[j]}
  {
    assert s == s[..j] + [s[j]] + s[j + 1..];
  }

  /** Two ascending sequences with the same elements are equal. */
  lemma {:induction false} AscendingUnique(u: seq<int>, w: seq<int>)
    requires Ascending(u) && Ascending(w)
    requires multiset(u) == multiset(w)
    ensures u == w
    decreases |u|
  {
    if |u| == 0 {
      assert |w| == |multiset(w)| == 0;
    } else {
      assert |w| == |multiset(w)| == |u|;
      var i := IndexOf(w, u[0]);
      var j := IndexOf(u, w[0]);
      assert u[0] == w[0];
      assert u == [u[0]] + u[1..];
      assert w == [w[0]] + w[1..];
      assert multiset(u[1..]) == multiset(u) - multiset{u[0]};
      assert multiset(w[1..]) == multiset(w) - multiset{w[0]};
      AscendingUnique(u[1..], w[1..]);
    }
  }

  /** Any two ascending permutations of the same cards agree on everything the
      classifier and the tie-break read: the value sequence and whether the
      hand is of one suit. */
  lemma SortedPermutationsAgree(a: seq<Card>, b: seq<Card>)
    requires SortedByValue(a) && SortedByValue(b)
    requires multiset(a) == multiset(b)
    ensures Values(a) == Values(b)
    ensures SameSuit(a) <==> SameSuit(b)
  {
    PermutationValues(a, b);
    AscendingUnique(Values(a), Values(b));
    SameSuitPermutation(a, b);
    SameSuitPermutation(b, a);
  }

  lemma SameSuitPermutation(a: seq<Card>, b: seq<Card>)
    requires multiset(a) == multiset(b)
    ensures SameSuit(a) ==> SameSuit(b)
  {
    if SameSuit(a) {
      forall i | 0 <= i < |b|
        ensures b[i].suit == b[0].suit
      {
        assert b[i] in multiset(a);
        assert b[0] in multiset(a);
      }
    }
  }

  /** `Count` spelled out for five values. */
  lemma CountFive(v: seq<int>, x: int)
    requires |v| == 5
    ensures Count(v, x) ==
      (if v[0] == x then 1 else 0) + (if v[1] == x then 1 else 0) + (if v[2] == x then 1 else 0)
      + (if v[3] == x then 1 else 0) + (if v[4] == x then 1 else 0)
  {
    assert v[4..][1..] == [];
    assert Count(v[4..], x) == if v[4] == x then 1 else 0;
    assert v[3..][1..] == v[4..];
    assert Count(v[3..], x) == (if v[3] == x then 1 else 0) + Count(v[4..], x);
    assert v[2..][1..] == v[3..];
    assert Count(v[2..], x) == (if v[2] == x then 1 else 0) + Count(v[3..], x);
    assert v[1..][1..] == v[2..];
    assert Count(v[1..], x) == (if v[1] == x then 1 else 0) + Count(v[2..], x);
  }

  // ----- Distinct cards -----

  /** In a hand without repeated cards every card occurs once. */
  lemma {:induction false} DistinctOnce(a: seq<Card>)
    requires DistinctCards(a)
    ensures forall c :: multiset(a)[c] <= 1
    decreases |a|
  {
    if |a| > 0 {
      assert DistinctCards(a[1..]) by {
        forall i, j | 0 <= i < j < |a| - 1
          ensures a[1..][i] != a[1..][j]
        {
          assert a[1..][i] == a[i + 1] && a[1..][j] == a[j + 1];
        }
      }
      DistinctOnce(a[1..]);
      assert a[0] !in a[1..];
      assert a == [a[0]] + a[1..];
    }
  }

  /** A card at two positions occurs at least twice. */
  lemma RepeatTwice(b: seq<Card>, i: int, j: int)
    requires 0 <= i < j < |b| && b[i] == b[j]
    ensures multiset(b)[b[i]] >= 2
  {
    assert b == b[..i] + [b[i]] + b[i + 1..j] + [b[j]] + b[j + 1..];
  }

  /** Rearranging a hand keeps its cards distinct. */
  lemma DistinctPermutation(a: seq<Card>, b: seq<Card>)
    requires multiset(a) == multiset(b) && DistinctCards(a)
    ensures DistinctCards(b)
  {
    DistinctOnce(a);
    forall i, j | 0 <= i < j < |b|
      ensures b[i] != b[j]
    {
      if b[i] == b[j] {
        RepeatTwice(b, i, j);
        assert false;
      }
    }
  }

  /** Five distinct cards cannot share one value: there are only four suits. */
  lemma NoFiveOfAKind(h: seq<Card>)
    requires |h| == 5 && DistinctCards(h)
    ensures !(h[0].value == h[1].value == h[2].value == h[3].value == h[4].value)
  {
    assert forall i, j :: 0 <= i < j < 5 && h[i].value == h[j].value ==> h[i].suit != h[j].suit;
  }
}
