/** The hand classifier: `Rank` and its `Mark` side effect, together with the
    textbook, multiplicity-based definition of the ten categories that it is
    proved to agree with on sorted hands. */
module Classifier {
  import opened Results
  import opened Cards
  import opened Hands

  /** Category numbers, weakest to strongest. */
  const HighCard := 1
  const OnePair := 2
  const TwoPair := 3
  const ThreeOfAKind := 4
  const Straight := 5
  const Flush := 6
  const FullHouse := 7
  const FourOfAKind := 8
  const StraightFlush := 9
  const RoyalFlush := 10

  /** What ranking one hand produces: its category and the positions whose
      `Marked` flag the classifier set. */
  datatype Ranking = Ranking(category: int, marks: set<int>)

  /** Every value is `start` plus its position. */
  predicate RunFrom(v: seq<int>, start: int) {
    forall i :: 0 <= i < |v| ==> v[i] == start + i
  }

  /** The ordered waterfall of checks of `Rank` on five cards; `Mark` is only
      ever reached on the branch that returns, so the marks are exactly those
      of the returning check. */
  function Classify(h: seq<Card>): Ranking
    requires |h| == 5
  {
    var v := Values(h);
    if RunFrom(v, 10) && SameSuit(h) then Ranking(RoyalFlush, {})
    else if RunFrom(v, v[0]) && SameSuit(h) then Ranking(StraightFlush, {})
    else if v[1] == v[0] && v[2] == v[0] && v[3] == v[0] then Ranking(FourOfAKind, {0, 1, 2, 3})
    else if v[1] == v[4] && v[2] == v[4] && v[3] == v[4] then Ranking(FourOfAKind, {1, 2, 3, 4})
    else if (v[0] == v[1] && v[0] == v[2] && v[3] == v[4])
         || (v[0] == v[1] && v[2] == v[3] && v[2] == v[4]) then Ranking(FullHouse, {})
    else if SameSuit(h) then Ranking(Flush, {})
    else if RunFrom(v, v[0]) then Ranking(Straight, {})
    else if v[0] == v[1] && v[0] == v[2] then Ranking(ThreeOfAKind, {0, 1, 2})
    else if v[1] == v[2] && v[1] == v[3] then Ranking(ThreeOfAKind, {1, 2, 3})
    else if v[2] == v[3] && v[2] == v[4] then Ranking(ThreeOfAKind, {2, 3, 4})
    else if v[0] == v[1] && v[2] == v[3] then Ranking(TwoPair, {0, 1, 2, 3})
    else if v[0] == v[1] && v[3] == v[4] then Ranking(TwoPair, {0, 1, 3, 4})
    else if v[1] == v[2] && v[3] == v[4] then Ranking(TwoPair, {1, 2, 3, 4})
    else if v[0] == v[1] then Ranking(OnePair, {0, 1})
    else if v[1] == v[2] then Ranking(OnePair, {1, 2})
    else if v[2] == v[3] then Ranking(OnePair, {2, 3})
    else if v[3] == v[4] then Ranking(OnePair, {3, 4})
    else Ranking(HighCard, {})
  }

  /** `Rank`: rejects anything but five cards, otherwise classifies. Only the
      four grouped categories mark cards, and marks stay inside the hand. */
  function Rank(h: seq<Card>): (r: Result<Ranking>)
    ensures r.Failure? <==> |h| != 5
    ensures r.Failure? ==> r.error == InvalidHand
    ensures r.Success? ==> HighCard <= r.value.category <= RoyalFlush
    ensures r.Success? ==> forall i :: i in r.value.marks ==> 0 <= i < |h|
    ensures r.Success? ==>
      (r.value.marks != {} <==> r.value.category in {OnePair, TwoPair, ThreeOfAKind, FourOfAKind})
  {
    if |h| != 5 then Failure(InvalidHand) else Success(Classify(h))
  }

  // ----- The textbook categories, by value multiplicities -----

  /** Adjacent values step up by one (the ace only ever counts high). */
  predicate Consecutive(v: seq<int>) {
    forall i :: 0 <= i < |v| - 1 ==> v[i + 1] == v[i] + 1
  }

  /** Some value occurs exactly `n` times. */
  predicate HasGroup(v: seq<int>, n: nat) {
    exists i :: 0 <= i < |v| && Count(v, v[i]) == n
  }

  /** Some value occurs four times or more. */
  predicate HasQuad(v: seq<int>) {
    exists i :: 0 <= i < |v| && Count(v, v[i]) >= 4
  }

  /** Two different values occur exactly twice each. */
  predicate HasTwoPairs(v: seq<int>) {
    exists i, j :: 0 <= i < |v| && 0 <= j < |v| && v[i] != v[j] && Count(v, v[i]) == 2 && Count(v, v[j]) == 2
  }

  /** The category standard poker precedence assigns to a sorted hand, from
      the multiplicities of its values, its suits and its sequence. */
  function StandardCategory(h: seq<Card>): int
    requires |h| == 5
  {
    var v := Values(h);
    var flush := SameSuit(h);
    var straight := Consecutive(v);
    if flush && straight && v[0] == 10 then RoyalFlush
    else if flush && straight then StraightFlush
    else if HasQuad(v) then FourOfAKind
    else if HasGroup(v, 3) && HasGroup(v, 2) then FullHouse
    else if flush then Flush
    else if straight then Straight
    else if HasGroup(v, 3) then ThreeOfAKind
    else if HasTwoPairs(v) then TwoPair
    else if HasGroup(v, 2) then OnePair
    else HighCard
  }

  /** On a sorted hand the positional checks of `Rank` pick exactly the
      textbook category. */
  lemma RankIsStandard(h: seq<Card>)
    requires |h| == 5 && SortedByValue(h)
    ensures Rank(h).Success? && Rank(h).value.category == StandardCategory(h)
  {
    var v := Values(h);
    assert Ascending(v);
    RunIsConsecutive(v);
    QuadPositions(v);
    if !HasQuad(v) {
      FullHousePositions(v);
      TripsPositions(v);
      if !HasGroup(v, 3) {
        TwoPairsPositions(v);
        PairPositions(v);
      }
    }
  }

  lemma QuadPositions(v: seq<int>)
    requires |v| == 5 && Ascending(v)
    ensures HasQuad(v) <==>
      (v[1] == v[0] && v[2] == v[0] && v[3] == v[0]) || (v[1] == v[4] && v[2] == v[4] && v[3] == v[4])
  {
    forall x {
      CountFive(v, x);
    }
    if v[1] == v[0] && v[2] == v[0] && v[3] == v[0] {
      assert Count(v, v[0]) >= 4;
    }
    if v[1] == v[4] && v[2] == v[4] && v[3] == v[4] {
      assert Count(v, v[4]) >= 4;
    }
  }

  lemma FullHousePositions(v: seq<int>)
    requires |v| == 5 && Ascending(v)
    requires !HasQuad(v)
    ensures HasGroup(v, 3) && HasGroup(v, 2) <==>
      (v[0] == v[1] && v[0] == v[2] && v[3] == v[4]) || (v[0] == v[1] && v[2] == v[3] && v[2] == v[4])
  {
    forall x {
      CountFive(v, x);
    }
    if v[0] == v[1] && v[0] == v[2] && v[3] == v[4] {
      assert Count(v, v[0]) == 3 && Count(v, v[4]) == 2;
    }
    if v[0] == v[1] && v[2] == v[3] && v[2] == v[4] {
      assert Count(v, v[4]) == 3 && Count(v, v[0]) == 2;
    }
  }

  lemma TripsPositions(v: seq<int>)
    requires |v| == 5 && Ascending(v)
    requires !HasQuad(v)
    ensures HasGroup(v, 3) <==>
      (v[0] == v[1] && v[0] == v[2]) || (v[1] == v[2] && v[1] == v[3]) || (v[2] == v[3] && v[2] == v[4])
  {
    forall x {
      CountFive(v, x);
    }
    if v[0] == v[1] && v[0] == v[2] {
      assert Count(v, v[0]) == 3;
    } else if v[1] == v[2] && v[1] == v[3] {
      assert Count(v, v[1]) == 3;
    } else if v[2] == v[3] && v[2] == v[4] {
      assert Count(v, v[2]) == 3;
    }
  }

  lemma TwoPairsPositions(v: seq<int>)
    requires |v| == 5 && Ascending(v)
    requires !HasQuad(v) && !HasGroup(v, 3)
    ensures HasTwoPairs(v) <==>
      (v[0] == v[1] && v[2] == v[3]) || (v[0] == v[1] && v[3] == v[4]) || (v[1] == v[2] && v[3] == v[4])
  {
    forall x {
      CountFive(v, x);
    }
    if v[0] == v[1] && v[2] == v[3] {
      assert Count(v, v[0]) == 2 && Count(v, v[2]) == 2;
    } else if v[0] == v[1] && v[3] == v[4] {
      assert Count(v, v[0]) == 2 && Count(v, v[3]) == 2;
    } else if v[1] == v[2] && v[3] == v[4] {
      assert Count(v, v[1]) == 2 && Count(v, v[3]) == 2;
    }
  }

  lemma PairPositions(v: seq<int>)
    requires |v| == 5 && Ascending(v)
    requires !HasQuad(v) && !HasGroup(v, 3)
    ensures HasGroup(v, 2) <==> v[0] == v[1] || v[1] == v[2] || v[2] == v[3] || v[3] == v[4]
  {
    forall x {
      CountFive(v, x);
    }
    if v[0] == v[1] {
      assert Count(v, v[0]) == 2;
    } else if v[1] == v[2] {
      assert Count(v, v[1]) == 2;
    } else if v[2] == v[3] {
      assert Count(v, v[2]) == 2;
    } else if v[3] == v[4] {
      assert Count(v, v[3]) == 2;
    }
  }

  /** For five values, "each is the first plus its position" and "each steps
      up by one from its neighbour" say the same. */
  lemma RunIsConsecutive(v: seq<int>)
    requires |v| == 5
    ensures RunFrom(v, v[0]) <==> Consecutive(v)
  {
    if Consecutive(v) {
      assert v[1] == v[0] + 1 && v[2] == v[1] + 1 && v[3] == v[2] + 1 && v[4] == v[3] + 1;
    }
    if RunFrom(v, v[0]) {
      assert v[1] == v[0] + 1 && v[2] == v[0] + 2 && v[3] == v[0] + 3 && v[4] == v[0] + 4;
    }
  }

  /** A royal flush is exactly ten to ace in one suit (the positional check
      does not even need the hand sorted). */
  lemma RoyalFlushExactly(h: seq<Card>)
    requires |h| == 5
    ensures Rank(h).value.category == RoyalFlush <==> Values(h) == [10, 11, 12, 13, 14] && SameSuit(h)
  {
    var v := Values(h);
    if v == [10, 11, 12, 13, 14] {
      assert RunFrom(v, 10);
    }
  }

  /** A straight flush is any other one-suit run of five consecutive values. */
  lemma StraightFlushExactly(h: seq<Card>)
    requires |h| == 5
    ensures Rank(h).value.category == StraightFlush <==>
      SameSuit(h) && Consecutive(Values(h)) && Values(h)[0] != 10
  {
    var v := Values(h);
    RunIsConsecutive(v);
  }

  /** The ace never plays low: ace-two-three-four-five is no straight, so
      the hand is a flush in one suit and a high card otherwise. */
  lemma AceNeverPlaysLow(h: seq<Card>)
    requires |h| == 5 && Values(h) == [2, 3, 4, 5, 14]
    ensures Rank(h).value.category == if SameSuit(h) then Flush else HighCard
  {
    var v := Values(h);
    assert v[4] != v[0] + 4;
    assert v[0] != 10;
  }

  /** The marks are exactly the cards of the group: the quad (the first or the
      last four cards), the trips, both pairs, or the single pair. */
  lemma MarksAreTheGroup(h: seq<Card>)
    requires |h| == 5 && SortedByValue(h)
    ensures var r := Rank(h).value; var v := Values(h);
      && (r.category == FourOfAKind ==>
            && (r.marks == {0, 1, 2, 3} || r.marks == {1, 2, 3, 4})
            && forall i :: 0 <= i < 5 ==> (i in r.marks ==> Count(v, v[i]) >= 4) && (Count(v, v[i]) == 4 ==> i in r.marks))
      && (r.category == ThreeOfAKind ==>
            forall i :: 0 <= i < 5 ==> (i in r.marks <==> Count(v, v[i]) == 3))
      && (r.category == TwoPair || r.category == OnePair ==>
            forall i :: 0 <= i < 5 ==> (i in r.marks <==> Count(v, v[i]) == 2))
  {
    var c := Rank(h).value.category;
    if c == FourOfAKind {
      QuadMarks(h);
    } else if c == ThreeOfAKind {
      TripsMarks(h);
    } else if c == TwoPair {
      TwoPairMarksCount(h);
    } else if c == OnePair {
      OnePairMarksCount(h);
    }
  }

  lemma QuadMarks(h: seq<Card>)
    requires |h| == 5 && SortedByValue(h) && Rank(h).value.category == FourOfAKind
    ensures var r := Rank(h).value; var v := Values(h);
      && (r.marks == {0, 1, 2, 3} || r.marks == {1, 2, 3, 4})
      && forall i :: 0 <= i < 5 ==> (i in r.marks ==> Count(v, v[i]) >= 4) && (Count(v, v[i]) == 4 ==> i in r.marks)
  {
    var v := Values(h);
    assert Ascending(v);
    forall x {
      CountFive(v, x);
    }
  }

  lemma TripsMarks(h: seq<Card>)
    requires |h| == 5 && SortedByValue(h) && Rank(h).value.category == ThreeOfAKind
    ensures var r := Rank(h).value; var v := Values(h);
      forall i :: 0 <= i < 5 ==> (i in r.marks <==> Count(v, v[i]) == 3)
  {
    var v := Values(h);
    assert Ascending(v);
    forall x {
      CountFive(v, x);
    }
  }

  lemma TwoPairMarksCount(h: seq<Card>)
    requires |h| == 5 && SortedByValue(h) && Rank(h).value.category == TwoPair
    ensures var r := Rank(h).value; var v := Values(h);
      forall i :: 0 <= i < 5 ==> (i in r.marks <==> Count(v, v[i]) == 2)
  {
    var v := Values(h);
    assert Ascending(v);
    forall x {
      CountFive(v, x);
    }
  }

  lemma OnePairMarksCount(h: seq<Card>)
    requires |h| == 5 && SortedByValue(h) && Rank(h).value.category == OnePair
    ensures var r := Rank(h).value; var v := Values(h);
      forall i :: 0 <= i < 5 ==> (i in r.marks <==> Count(v, v[i]) == 2)
  {
    var v := Values(h);
    assert Ascending(v);
    forall x {
      CountFive(v, x);
    }
  }


}
