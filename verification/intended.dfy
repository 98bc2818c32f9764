/** The tie-break as its comments and structure evidently intend it, next to
    the two inputs on which the code as written departs from that intent:
    two pair never reaches its kicker, and a full house is settled by its
    lowest card instead of its trips. The corrected scoring is proved to be
    standard poker order: category first, then the hand's values ranked by
    multiplicity and then by value. */
module Intended {
  import opened Results
  import opened Cards
  import opened Hands
  import opened Verdicts
  import opened Classifier
  import opened TieBreaking
  import opened Game
  import opened HandKeys

  // ----- The corrected rules -----

  /** Case 3 as intended: the pairs decide, high pair first; only when the
      pairs produce no winner do the kickers decide. */
  function TwoPairRuleFixed(p1: seq<Card>, m1: set<int>, p2: seq<Card>, m2: set<int>): Result<Outcome> {
    var o :- HighCardScan(SortByValue(Select(p1, m1, true)), SortByValue(Select(p2, m2, true)));
    if o.added != NoPoint then Success(o)
    else
      var k1 :- FindValue(p1, m1, false);
      var k2 :- FindValue(p2, m2, false);
      Success(Outcome(PointFor(k1, k2), k1 != k2))
  }

  /** Case 7 as intended: when the first card is not one of the trips (or of
      the pair), the last card is. */
  function FullHouseRuleFixed(p1: seq<Card>, p2: seq<Card>): Result<Outcome> {
    if |p1| == 0 || |p2| == 0 then Failure(IndexOutOfRange)
    else
      var c1 := WithValue(p1, p1[0].value);
      var c2 := WithValue(p2, p2[0].value);
      var v1 := if |c1| == 3 then c1[0].value else p1[|p1| - 1].value;
      var v2 := if |c2| == 3 then c2[0].value else p2[|p2| - 1].value;
      if v1 != v2 then Success(Outcome(PointFor(v1, v2), true))
      else
        var w1 := if |c1| == 2 then c1[0].value else p1[|p1| - 1].value;
        var w2 := if |c2| == 2 then c2[0].value else p2[|p2| - 1].value;
        Success(Outcome(PointFor(w1, w2), w1 != w2))
  }

  /** `TieBreak` with cases 3 and 7 corrected; every other case is unchanged. */
  function TieBreakFixed(rank: int, p1: seq<Card>, m1: set<int>, p2: seq<Card>, m2: set<int>): Result<Outcome> {
    if rank == TwoPair then TwoPairRuleFixed(p1, m1, p2, m2)
    else if rank == FullHouse then FullHouseRuleFixed(p1, p2)
    else TieBreak(rank, p1, m1, p2, m2)
  }

  /** Scoring two sorted hands with the corrected tie-break. */
  function DecideSortedFixed(p1: seq<Card>, p2: seq<Card>): Result<Tally> {
    var r1 :- Rank(p1);
    var r2 :- Rank(p2);
    if r1.category > r2.category then Success(PointToFirst)
    else if r2.category > r1.category then Success(PointToSecond)
    else
      var o :- TieBreakFixed(r1.category, p1, r1.marks, p2, r2.marks);
      Success(o.added)
  }

  function DecideFixed(cards1: seq<Card>, cards2: seq<Card>): Result<Tally> {
    DecideSortedFixed(SortByValue(cards1), SortByValue(cards2))
  }

  // ----- The two departures, on concrete hands -----

  /** `4H 4D 9C 9H KC` against `4S 4C 9D 9S 2H`, in sorted order. */
  const TwoPairKingKicker := [Card(4, H), Card(4, D), Card(9, C), Card(9, H), Card(13, C)]
  const TwoPairTwoKicker := [Card(2, H), Card(4, S), Card(4, C), Card(9, D), Card(9, S)]

  /** `2H 2D 9S 9C 9D` (nines full of twos) against `3H 3D 3S KC KD` (threes
      full of kings), already in sorted order. */
  const NinesFull := [Card(2, H), Card(2, D), Card(9, S), Card(9, C), Card(9, D)]
  const ThreesFull := [Card(3, H), Card(3, D), Card(3, S), Card(13, C), Card(13, D)]

  /** As written: the king kicker is never looked at, so nobody scores. */
  lemma TwoPairKickerIgnored()
    ensures DecideSorted(TwoPairKingKicker, TwoPairTwoKicker) == Success(NoPoint)
  {
    var h1, h2 := TwoPairKingKicker, TwoPairTwoKicker;
    TwoPairHandsRank();
    TwoPairHandsPairs();
    TwoPairIgnoresKicker(h1, h2);
  }

  /** Corrected: equal pairs hand the round to the higher kicker. */
  lemma TwoPairKickerCounts()
    ensures DecideSortedFixed(TwoPairKingKicker, TwoPairTwoKicker) == Success(PointToFirst)
  {
    ExamplesSorted();
    TwoPairHandsRank();
    TwoPairHandsPairs();
    TwoPairHandsKickers();
    KingKickerWins(TwoPairKingKicker, TwoPairTwoKicker);
  }

  /** Two sorted two-pair hands with fours and nines each: a king kicker
      beats a two. */
  lemma KingKickerWins(h1: seq<Card>, h2: seq<Card>)
    requires |h1| == 5 && SortedByValue(h1) && |h2| == 5 && SortedByValue(h2)
    requires Rank(h1).Success? && Rank(h1).value.category == TwoPair
    requires Rank(h2).Success? && Rank(h2).value.category == TwoPair
    requires Values(Select(h1, Rank(h1).value.marks, true)) == [4, 4, 9, 9]
    requires Values(Select(h2, Rank(h2).value.marks, true)) == [4, 4, 9, 9]
    requires FindValue(h1, Rank(h1).value.marks, false) == Success(13)
    requires FindValue(h2, Rank(h2).value.marks, false) == Success(2)
    ensures DecideSortedFixed(h1, h2) == Success(PointToFirst)
  {
    TwoPairFixedRule(h1, h2);
    LexTriple(9, 4, 13, 9, 4, 2);
    LexCons(9, [4], 9, [4]);
    LexCons(4, [], 4, []);
    LexCons(13, [], 2, []);
  }

  lemma ExamplesSorted()
    ensures SortedByValue(TwoPairKingKicker) && SortedByValue(TwoPairTwoKicker)
    ensures SortedByValue(NinesFull) && SortedByValue(ThreesFull)
  {
  }

  /** Both example hands hold a pair of fours and a pair of nines. */
  lemma TwoPairHandsPairs()
    ensures Values(Select(TwoPairKingKicker, {0, 1, 2, 3}, true)) == [4, 4, 9, 9]
    ensures Values(Select(TwoPairTwoKicker, {1, 2, 3, 4}, true)) == [4, 4, 9, 9]
  {
    SelectFive(TwoPairKingKicker, {0, 1, 2, 3}, true);
    SelectFive(TwoPairTwoKicker, {1, 2, 3, 4}, true);
  }

  /** The kickers of the example hands: a king and a two. */
  lemma TwoPairHandsKickers()
    ensures FindValue(TwoPairKingKicker, {0, 1, 2, 3}, false) == Success(13)
    ensures FindValue(TwoPairTwoKicker, {1, 2, 3, 4}, false) == Success(2)
  {
    SelectFive(TwoPairKingKicker, {0, 1, 2, 3}, false);
    SelectFive(TwoPairTwoKicker, {1, 2, 3, 4}, false);
  }

  /** The same hands dealt in any order: however the sort arranges them,
      nobody scores. */
  lemma TwoPairKickerIgnoredAsDealt(c1: seq<Card>, c2: seq<Card>)
    requires multiset(c1) == multiset(TwoPairKingKicker) && multiset(c2) == multiset(TwoPairTwoKicker)
    ensures Decide(c1, c2) == Success(NoPoint)
  {
    assert |c1| == |multiset(c1)| == 5 && |c2| == |multiset(c2)| == 5;
    ExamplesSorted();
    SortChoiceIrrelevant(c1, c2, TwoPairKingKicker, TwoPairTwoKicker);
    TwoPairKickerIgnored();
  }

  /** The same round as a whole line (`4H 4D 9C 9H KC 4S 4C 9D 9S 2H`, say):
      `ProcessHand` returns true and neither counter moves. */
  lemma TwoPairKickerIgnoredByProcessHand(c1: seq<Card>, c2: seq<Card>, t: Tally)
    requires multiset(c1) == multiset(TwoPairKingKicker) && multiset(c2) == multiset(TwoPairTwoKicker)
    requires forall k :: 0 <= k < |c1| ==> ValidValue(c1[k].value)
    requires forall k :: 0 <= k < |c2| ==> ValidValue(c2[k].value)
    ensures ProcessHand(Some(LineOf(c1, c2)), t) == Success(Round(true, t))
  {
    TwoPairKickerIgnoredAsDealt(c1, c2);
    ScoredLine(c1, c2, t);
  }

  lemma ScoredLine(c1: seq<Card>, c2: seq<Card>, t: Tally)
    requires |c1| == 5 && |c2| == 5
    requires forall k :: 0 <= k < |c1| ==> ValidValue(c1[k].value)
    requires forall k :: 0 <= k < |c2| ==> ValidValue(c2[k].value)
    requires Decide(c1, c2) == Success(NoPoint)
    ensures ProcessHand(Some(LineOf(c1, c2)), t) == Success(Round(true, t))
  {
    ProcessHandOfHands(c1, c2, t);
    assert Add(t, NoPoint) == t;
  }

  /** Both example hands rank as two pair, with the pairs marked. */
  lemma TwoPairHandsRank()
    ensures Rank(TwoPairKingKicker) == Success(Ranking(TwoPair, {0, 1, 2, 3}))
    ensures Rank(TwoPairTwoKicker) == Success(Ranking(TwoPair, {1, 2, 3, 4}))
  {
    var h1, h2 := TwoPairKingKicker, TwoPairTwoKicker;
    assert Values(h1) == [4, 4, 9, 9, 13] && h1[1].suit != h1[0].suit;
    assert Values(h2) == [2, 4, 4, 9, 9] && h2[1].suit != h2[0].suit;
  }

  /** As written: nines full loses to threes full, because twos are lower
      than threes. */
  lemma FullHouseLowestCardDecides()
    ensures DecideSorted(NinesFull, ThreesFull) == Success(PointToSecond)
  {
    assert Values(NinesFull) == [2, 2, 9, 9, 9] && NinesFull[1].suit != NinesFull[0].suit;
    assert Values(ThreesFull) == [3, 3, 3, 13, 13] && ThreesFull[1].suit != ThreesFull[0].suit;
    assert Rank(NinesFull).value.category == FullHouse;
    assert Rank(ThreesFull).value.category == FullHouse;
    FullHouseComparesLowestCard(NinesFull, {}, ThreesFull, {});
  }

  /** The same hands dealt in any order (`2H 2D 9S 9C 9D 3H 3D 3S KC KD`,
      say): the second player scores. */
  lemma FullHouseLowestCardAsDealt(c1: seq<Card>, c2: seq<Card>)
    requires multiset(c1) == multiset(NinesFull) && multiset(c2) == multiset(ThreesFull)
    ensures Decide(c1, c2) == Success(PointToSecond)
  {
    assert |c1| == |multiset(c1)| == 5 && |c2| == |multiset(c2)| == 5;
    ExamplesSorted();
    SortChoiceIrrelevant(c1, c2, NinesFull, ThreesFull);
    FullHouseLowestCardDecides();
  }

  /** Corrected: the trips decide, and nines beat threes. */
  lemma FullHouseTripsDecide()
    ensures DecideSortedFixed(NinesFull, ThreesFull) == Success(PointToFirst)
  {
    assert Values(NinesFull) == [2, 2, 9, 9, 9] && NinesFull[1].suit != NinesFull[0].suit;
    assert Values(ThreesFull) == [3, 3, 3, 13, 13] && ThreesFull[1].suit != ThreesFull[0].suit;
    assert Rank(NinesFull).value.category == FullHouse;
    assert Rank(ThreesFull).value.category == FullHouse;
    WithValueFive(NinesFull, 2);
    WithValueFive(ThreesFull, 3);
  }

  /** `WithValue` spelled out for five cards. */
  lemma WithValueFive(h: seq<Card>, x: int)
    requires |h| == 5
    ensures WithValue(h, x) ==
      Pick(h, 0, x) + Pick(h, 1, x) + Pick(h, 2, x) + Pick(h, 3, x) + Pick(h, 4, x)
  {
    assert h[..4][..3] == h[..3];
    assert h[..3][..2] == h[..2];
    assert h[..2][..1] == h[..1];
    assert h[..1][..0] == [];
    assert WithValue(h[..1], x) == Pick(h, 0, x);
    assert WithValue(h[..2], x) == Pick(h, 0, x) + Pick(h, 1, x);
    assert WithValue(h[..3], x) == Pick(h, 0, x) + Pick(h, 1, x) + Pick(h, 2, x);
    assert WithValue(h[..4], x) == Pick(h, 0, x) + Pick(h, 1, x) + Pick(h, 2, x) + Pick(h, 3, x);
    assert h[..5] == h;
  }

  /** The card at position `i` if it has value `x`, else nothing. */
  function Pick(h: seq<Card>, i: int, x: int): seq<Card>
    requires 0 <= i < |h|
  {
    if h[i].value == x then [h[i]] else []
  }

  // ----- The corrected rules on sorted hands -----

  /** Corrected two pair on sorted hands: high pair, low pair, then kicker,
      compared in that order. */
  lemma TwoPairFixedRule(h1: seq<Card>, h2: seq<Card>)
    requires |h1| == 5 && SortedByValue(h1) && |h2| == 5 && SortedByValue(h2)
    requires Rank(h1).value.category == TwoPair && Rank(h2).value.category == TwoPair
    ensures var m1 := Rank(h1).value.marks; var m2 := Rank(h2).value.marks;
      var p1 := Values(Select(h1, m1, true)); var p2 := Values(Select(h2, m2, true));
      var k1 := FindValue(h1, m1, false); var k2 := FindValue(h2, m2, false);
      && |p1| == 4 && |p2| == 4 && k1.Success? && k2.Success?
      && TieBreakFixed(TwoPair, h1, m1, h2, m2).Success?
      && TieBreakFixed(TwoPair, h1, m1, h2, m2).value.added ==
           Points(Lex([p1[3], p1[1], k1.value], [p2[3], p2[1], k2.value]))
  {
    var m1 := Rank(h1).value.marks;
    var m2 := Rank(h2).value.marks;
    TwoPairShape(h1);
    TwoPairShape(h2);
    TwoPairPairsThenKicker(h1, m1, h2, m2);
  }

  /** The corrected two-pair rule once both hands have four ascending marked
      cards forming two pairs and at least one unmarked card. */
  lemma TwoPairPairsThenKicker(p1: seq<Card>, m1: set<int>, p2: seq<Card>, m2: set<int>)
    requires SortedByValue(Select(p1, m1, true)) && SortedByValue(Select(p2, m2, true))
    requires var a := Values(Select(p1, m1, true)); |a| == 4 && a[0] == a[1] && a[2] == a[3]
    requires var b := Values(Select(p2, m2, true)); |b| == 4 && b[0] == b[1] && b[2] == b[3]
    requires |Select(p1, m1, false)| > 0 && |Select(p2, m2, false)| > 0
    ensures var a := Values(Select(p1, m1, true)); var b := Values(Select(p2, m2, true));
      var k1 := FindValue(p1, m1, false); var k2 := FindValue(p2, m2, false);
      && k1.Success? && k2.Success?
      && TwoPairRuleFixed(p1, m1, p2, m2).Success?
      && TwoPairRuleFixed(p1, m1, p2, m2).value.added == Points(Lex([a[3], a[1], k1.value], [b[3], b[1], k2.value]))
  {
    var a := Values(Select(p1, m1, true));
    var b := Values(Select(p2, m2, true));
    TwoPairScan(p1, m1, p2, m2);
    var k1 := FindValue(p1, m1, false).value;
    var k2 := FindValue(p2, m2, false).value;
    LexTriple(a[3], a[1], k1, b[3], b[1], k2);
    var pairs := Lex([a[3], a[1]], [b[3], b[1]]);
    if pairs == Tie {
      LexCons(k1, [], k2, []);
      assert Points(Lex([k1], [k2])) == PointFor(k1, k2);
    }
  }

  /** Three-element comparison: the first two elements, then the third. */
  lemma LexTriple(x: int, y: int, z: int, x': int, y': int, z': int)
    ensures Lex([x, y, z], [x', y', z']) ==
      if Lex([x, y], [x', y']) != Tie then Lex([x, y], [x', y']) else Lex([z], [z'])
  {
    LexCons(x, [y, z], x', [y', z']);
    LexCons(y, [z], y', [z']);
    LexCons(x, [y], x', [y']);
    LexCons(y, [], y', []);
  }

  // ----- What each rule compares is the canonical key -----

  /** The categories without a group: on distinct cards their values are
      strictly ascending (a flush cannot pair without repeating a card). */
  lemma UngroupedStrict(h: seq<Card>)
    requires |h| == 5 && SortedByValue(h) && DistinctCards(h)
    requires var c := Rank(h).value.category;
      c == HighCard || c == Straight || c == Flush || c == StraightFlush || c == RoyalFlush
    ensures var v := Values(h); v[0] < v[1] < v[2] < v[3] < v[4]
  {
    var v := Values(h);
    assert v[0] <= v[1] <= v[2] <= v[3] <= v[4];
    assert forall i :: 0 <= i < 4 && h[i].value == h[i + 1].value ==> h[i].suit != h[i + 1].suit;
  }

  /** Read from the top, strictly ascending values are their own key. */
  lemma UngroupedKey(h: seq<Card>)
    requires |h| == 5 && SortedByValue(h) && DistinctCards(h)
    requires var c := Rank(h).value.category;
      c == HighCard || c == Straight || c == Flush || c == StraightFlush || c == RoyalFlush
    ensures Reverse(Values(h)) == KeyOf(Values(h))
  {
    UngroupedStrict(h);
    var v := Values(h);
    assert Reverse(v) == [v[4], v[3], v[2], v[1], v[0]];
  }

  /** One pair, trips and quads: the group's value followed by the kickers
      from the top is the key. */
  lemma GroupKey(h: seq<Card>)
    requires |h| == 5 && SortedByValue(h)
    requires Rank(h).value.category in {OnePair, ThreeOfAKind, FourOfAKind}
    ensures var m := Rank(h).value.marks;
      && FindValue(h, m, true).Success?
      && [FindValue(h, m, true).value] + Reverse(Values(Select(h, m, false))) == KeyOf(Values(h))
  {
    var m := Rank(h).value.marks;
    GroupShape(h);
    GroupKeyForMarks(h, m);
  }

  /** Where the group sits in a sorted hand of one pair, trips or quads, and
      which positions are marked. */
  lemma GroupShape(h: seq<Card>)
    requires |h| == 5 && SortedByValue(h)
    requires Rank(h).value.category in {OnePair, ThreeOfAKind, FourOfAKind}
    ensures var m := Rank(h).value.marks; var v := Values(h);
      || (m == {0, 1, 2, 3} && v[0] == v[1] == v[2] == v[3] <= v[4])
      || (m == {1, 2, 3, 4} && v[0] < v[1] == v[2] == v[3] == v[4])
      || (m == {0, 1, 2} && v[0] == v[1] == v[2] < v[3] < v[4])
      || (m == {1, 2, 3} && v[0] < v[1] == v[2] == v[3] < v[4])
      || (m == {2, 3, 4} && v[0] < v[1] < v[2] == v[3] == v[4])
      || (m == {0, 1} && v[0] == v[1] < v[2] < v[3] < v[4])
      || (m == {1, 2} && v[0] < v[1] == v[2] < v[3] < v[4])
      || (m == {2, 3} && v[0] < v[1] < v[2] == v[3] < v[4])
      || (m == {3, 4} && v[0] < v[1] < v[2] < v[3] == v[4])
  {
    var v := Values(h);
    assert v[0] <= v[1] <= v[2] <= v[3] <= v[4];
  }

  /** The key comparison of the grouped rule, for each possible group. */
  lemma GroupKeyForMarks(h: seq<Card>, m: set<int>)
    requires |h| == 5
    requires var v := Values(h);
      || (m == {0, 1, 2, 3} && v[0] == v[1] == v[2] == v[3] <= v[4])
      || (m == {1, 2, 3, 4} && v[0] < v[1] == v[2] == v[3] == v[4])
      || (m == {0, 1, 2} && v[0] == v[1] == v[2] < v[3] < v[4])
      || (m == {1, 2, 3} && v[0] < v[1] == v[2] == v[3] < v[4])
      || (m == {2, 3, 4} && v[0] < v[1] < v[2] == v[3] == v[4])
      || (m == {0, 1} && v[0] == v[1] < v[2] < v[3] < v[4])
      || (m == {1, 2} && v[0] < v[1] == v[2] < v[3] < v[4])
      || (m == {2, 3} && v[0] < v[1] < v[2] == v[3] < v[4])
      || (m == {3, 4} && v[0] < v[1] < v[2] < v[3] == v[4])
    ensures FindValue(h, m, true).Success?
    ensures [FindValue(h, m, true).value] + Reverse(Values(Select(h, m, false))) == KeyOf(Values(h))
  {
    var v := Values(h);
    if (m == {0, 1, 2, 3} && v[0] == v[1] == v[2] == v[3] <= v[4]) || (m == {1, 2, 3, 4} && v[0] < v[1] == v[2] == v[3] == v[4]) {
      QuadKeyForMarks(h, m);
    } else if (m == {0, 1, 2} && v[0] == v[1] == v[2] < v[3] < v[4])
      || (m == {1, 2, 3} && v[0] < v[1] == v[2] == v[3] < v[4])
      || (m == {2, 3, 4} && v[0] < v[1] < v[2] == v[3] == v[4]) {
      TripsKeyForMarks(h, m);
    } else {
      PairKeyForMarks(h, m);
    }
  }

  lemma QuadKeyForMarks(h: seq<Card>, m: set<int>)
    requires |h| == 5
    requires var v := Values(h);
      || (m == {0, 1, 2, 3} && v[0] == v[1] == v[2] == v[3] <= v[4])
      || (m == {1, 2, 3, 4} && v[0] < v[1] == v[2] == v[3] == v[4])
    ensures FindValue(h, m, true).Success?
    ensures [FindValue(h, m, true).value] + Reverse(Values(Select(h, m, false))) == KeyOf(Values(h))
  {
    SelectFive(h, m, true);
    SelectFive(h, m, false);
  }

  lemma TripsKeyForMarks(h: seq<Card>, m: set<int>)
    requires |h| == 5
    requires var v := Values(h);
      || (m == {0, 1, 2} && v[0] == v[1] == v[2] < v[3] < v[4])
      || (m == {1, 2, 3} && v[0] < v[1] == v[2] == v[3] < v[4])
      || (m == {2, 3, 4} && v[0] < v[1] < v[2] == v[3] == v[4])
    ensures FindValue(h, m, true).Success?
    ensures [FindValue(h, m, true).value] + Reverse(Values(Select(h, m, false))) == KeyOf(Values(h))
  {
    SelectFive(h, m, true);
    SelectFive(h, m, false);
  }

  lemma PairKeyForMarks(h: seq<Card>, m: set<int>)
    requires |h| == 5
    requires var v := Values(h);
      || (m == {0, 1} && v[0] == v[1] < v[2] < v[3] < v[4])
      || (m == {1, 2} && v[0] < v[1] == v[2] < v[3] < v[4])
      || (m == {2, 3} && v[0] < v[1] < v[2] == v[3] < v[4])
      || (m == {3, 4} && v[0] < v[1] < v[2] < v[3] == v[4])
    ensures FindValue(h, m, true).Success?
    ensures [FindValue(h, m, true).value] + Reverse(Values(Select(h, m, false))) == KeyOf(Values(h))
  {
    SelectFive(h, m, true);
    SelectFive(h, m, false);
  }

  /** Where the two pairs and the kicker sit in a sorted two-pair hand. */
  lemma TwoPairMarks(h: seq<Card>)
    requires |h| == 5 && SortedByValue(h) && Rank(h).value.category == TwoPair
    ensures var m := Rank(h).value.marks; var v := Values(h);
      || (m == {0, 1, 2, 3} && v[0] == v[1] < v[2] == v[3] < v[4])
      || (m == {0, 1, 3, 4} && v[0] == v[1] < v[2] < v[3] == v[4])
      || (m == {1, 2, 3, 4} && v[0] < v[1] == v[2] < v[3] == v[4])
  {
    var v := Values(h);
    assert v[0] <= v[1] <= v[2] <= v[3] <= v[4];
  }

  /** Two pair: high pair, low pair, kicker is the key. */
  lemma TwoPairKey(h: seq<Card>)
    requires |h| == 5 && SortedByValue(h) && Rank(h).value.category == TwoPair
    ensures var m := Rank(h).value.marks; var p := Values(Select(h, m, true)); var k := FindValue(h, m, false);
      && |p| == 4 && k.Success?
      && [p[3], p[1], k.value] == KeyOf(Values(h))
  {
    var m := Rank(h).value.marks;
    TwoPairMarks(h);
    TwoPairKeyForMarks(h, m);
  }

  lemma TwoPairKeyForMarks(h: seq<Card>, m: set<int>)
    requires |h| == 5
    requires var v := Values(h);
      || (m == {0, 1, 2, 3} && v[0] == v[1] < v[2] == v[3] < v[4])
      || (m == {0, 1, 3, 4} && v[0] == v[1] < v[2] < v[3] == v[4])
      || (m == {1, 2, 3, 4} && v[0] < v[1] == v[2] < v[3] == v[4])
    ensures var p := Values(Select(h, m, true)); var k := FindValue(h, m, false);
      && |p| == 4 && k.Success?
      && [p[3], p[1], k.value] == KeyOf(Values(h))
  {
    SelectFive(h, m, true);
    SelectFive(h, m, false);
  }

  /** The two shapes of a sorted full house. */
  lemma FullHouseShape(h: seq<Card>)
    requires |h| == 5 && SortedByValue(h) && Rank(h).value.category == FullHouse
    ensures var v := Values(h);
      || v[0] == v[1] == v[2] < v[3] == v[4]
      || v[0] == v[1] < v[2] == v[3] == v[4]
  {
    var v := Values(h);
    assert v[0] <= v[1] <= v[2] <= v[3] <= v[4];
  }

  /** The corrected full-house rule compares the keys, trips then pair. */
  lemma FullHouseFixedKey(p1: seq<Card>, p2: seq<Card>)
    requires |p1| == 5 && |p2| == 5
    requires var v := Values(p1); v[0] == v[1] == v[2] < v[3] == v[4] || v[0] == v[1] < v[2] == v[3] == v[4]
    requires var v := Values(p2); v[0] == v[1] == v[2] < v[3] == v[4] || v[0] == v[1] < v[2] == v[3] == v[4]
    ensures FullHouseRuleFixed(p1, p2).Success?
    ensures FullHouseRuleFixed(p1, p2).value.added == Points(Lex(KeyOf(Values(p1)), KeyOf(Values(p2))))
  {
    var k1 := KeyOf(Values(p1));
    var k2 := KeyOf(Values(p2));
    FullHouseTrips(p1);
    FullHouseTrips(p2);
    LexCons(k1[0], [k1[1]], k2[0], [k2[1]]);
    LexCons(k1[1], [], k2[1], []);
    assert k1 == [k1[0]] + [k1[1]] && k2 == [k2[0]] + [k2[1]];
  }

  /** In a sorted full house, the cards sharing the first card's value are the
      trips or the pair, and the last card belongs to the other group. */
  lemma FullHouseTrips(h: seq<Card>)
    requires |h| == 5
    requires var v := Values(h); v[0] == v[1] == v[2] < v[3] == v[4] || v[0] == v[1] < v[2] == v[3] == v[4]
    ensures var c := WithValue(h, h[0].value); var k := KeyOf(Values(h));
      && |k| == 2 && |c| > 0
      && k[0] == (if |c| == 3 then c[0].value else h[4].value)
      && k[1] == (if |c| == 2 then c[0].value else h[4].value)
  {
    WithValueFive(h, h[0].value);
  }

  // ----- The corrected scoring is standard poker order -----

  /** Within one category, the corrected tie-break compares the hands' keys. */
  lemma FixedTieBreakComparesKeys(p1: seq<Card>, p2: seq<Card>)
    requires |p1| == 5 && SortedByValue(p1) && DistinctCards(p1)
    requires |p2| == 5 && SortedByValue(p2) && DistinctCards(p2)
    requires Rank(p1).value.category == Rank(p2).value.category
    ensures var r1 := Rank(p1).value; var r2 := Rank(p2).value;
      var o := TieBreakFixed(r1.category, p1, r1.marks, p2, r2.marks);
      && o.Success?
      && o.value.added == Points(Lex(KeyOf(Values(p1)), KeyOf(Values(p2))))
  {
    var r1 := Rank(p1).value;
    var r2 := Rank(p2).value;
    var c := r1.category;
    if c == HighCard || c == Straight || c == Flush || c == StraightFlush {
      HighCardRule(c, p1, r1.marks, p2, r2.marks);
      UngroupedKey(p1);
      UngroupedKey(p2);
    } else if c == RoyalFlush {
      assert Values(p1) == Values(p2) by {
        assert RunFrom(Values(p1), 10) && RunFrom(Values(p2), 10);
      }
      LexTieIffEqual(KeyOf(Values(p1)), KeyOf(Values(p2)));
    } else if c == OnePair || c == ThreeOfAKind || c == FourOfAKind {
      GroupThenKickers(p1, p2);
      GroupKey(p1);
      GroupKey(p2);
    } else if c == TwoPair {
      TwoPairFixedRule(p1, p2);
      TwoPairKey(p1);
      TwoPairKey(p2);
    } else {
      assert c == FullHouse;
      FullHouseShape(p1);
      FullHouseShape(p2);
      FullHouseFixedKey(p1, p2);
    }
  }

  /** The corrected scoring of two hands of five distinct cards is standard
      poker order: the higher textbook category wins; within one category
      the canonical keys (distinct values by multiplicity, then by value)
      are compared lexicographically. */
  lemma DecideFixedIsStandard(c1: seq<Card>, c2: seq<Card>, k1: seq<int>, k2: seq<int>)
    requires |c1| == 5 && DistinctCards(c1) && |c2| == 5 && DistinctCards(c2)
    requires IsCanonicalKey(k1, Values(c1)) && IsCanonicalKey(k2, Values(c2))
    ensures var s1 := StandardCategory(SortByValue(c1)); var s2 := StandardCategory(SortByValue(c2));
      DecideFixed(c1, c2) ==
        Success(if s1 > s2 then PointToFirst else if s2 > s1 then PointToSecond else Points(Lex(k1, k2)))
  {
    var p1 := SortByValue(c1);
    var p2 := SortByValue(c2);
    RankIsStandard(p1);
    RankIsStandard(p2);
    if Rank(p1).value.category == Rank(p2).value.category {
      SortedKey(c1, k1);
      SortedKey(c2, k2);
      FixedTieBreakComparesKeys(p1, p2);
    }
  }

  /** The canonical key of a hand's values is `KeyOf` of its sorted values,
      and sorting keeps the cards distinct. */
  lemma SortedKey(c: seq<Card>, k: seq<int>)
    requires |c| == 5 && DistinctCards(c) && IsCanonicalKey(k, Values(c))
    ensures DistinctCards(SortByValue(c))
    ensures k == KeyOf(Values(SortByValue(c)))
  {
    var p := SortByValue(c);
    DistinctPermutation(c, p);
    PermutationValues(c, p);
    KeyPermutation(k, Values(c), Values(p));
    NoFiveOfAKind(p);
    var v := Values(p);
    assert Ascending(v);
    KeyOfCanonical(v);
    CanonicalKeyUnique(k, KeyOf(v), v);
  }

  /** Every hand of five distinct cards has a canonical key. */
  lemma CanonicalKeyExists(c: seq<Card>)
    requires |c| == 5 && DistinctCards(c)
    ensures exists k :: IsCanonicalKey(k, Values(c))
  {
    var p := SortByValue(c);
    DistinctPermutation(c, p);
    PermutationValues(c, p);
    NoFiveOfAKind(p);
    var v := Values(p);
    assert Ascending(v);
    KeyOfCanonical(v);
    KeyPermutation(KeyOf(v), Values(c), v);
  }
}
