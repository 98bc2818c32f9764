/** The tie-break comparator `TieBreak`, which decides between two sorted hands
    of the same category, together with the list helpers it leans on
    (`Where`, `Find`) and the per-category behaviour it has. */
module TieBreaking {
  import opened Results
  import opened Cards
  import opened Hands
  import opened Verdicts
  import opened Classifier

  /** The effect of one `TieBreak` call: the counter increments it made and
      the boolean it returned. */
  datatype Outcome = Outcome(added: Tally, returned: bool)

  /** Filtering a hand on its marked flag: the cards at positions in `m`
      (or not in `m`), in hand order. */
  function Select(h: seq<Card>, m: set<int>, marked: bool): seq<Card>
    decreases |h|
  {
    if |h| == 0 then []
    else Select(h[..|h| - 1], m, marked) + Keep(h, |h| - 1, m, marked)
  }

  /** The card at position `i` if its flag is `marked`, else nothing. */
  function Keep(h: seq<Card>, i: int, m: set<int>, marked: bool): seq<Card>
    requires 0 <= i < |h|
  {
    if (i in m) == marked then [h[i]] else []
  }

  /** The value of the first card whose marked flag is `marked`; when there
      is none, the search yields null and reading its value throws. */
  function FindValue(h: seq<Card>, m: set<int>, marked: bool): Result<int> {
    var s := Select(h, m, marked);
    if |s| == 0 then Failure(NullReference) else Success(s[0].value)
  }

  /** Filtering a hand on value: the cards of value `x`, in hand order. */
  function WithValue(h: seq<Card>, x: int): seq<Card>
    decreases |h|
  {
    if |h| == 0 then []
    else WithValue(h[..|h| - 1], x) + (if h[|h| - 1].value == x then [h[|h| - 1]] else [])
  }

  /** The loop of cases 1, 5, 6 and 9: positions `i` down to 0 of both hands;
      the first difference adds a point and returns true; running off the end
      falls through to the final `return true`. Indexing the second hand past
      its end throws. */
  function ScanDown(p1: seq<Card>, p2: seq<Card>, i: int): Result<Outcome>
    requires -1 <= i < |p1|
    decreases i + 1
  {
    if i < 0 then Success(Outcome(NoPoint, true))
    else if i >= |p2| then Failure(IndexOutOfRange)
    else if p1[i].value != p2[i].value then Success(Outcome(PointFor(p1[i].value, p2[i].value), true))
    else ScanDown(p1, p2, i - 1)
  }

  /** `TieBreak(1, p1, p2)`: the scan from the last position down. The
      recursive calls of the other cases go through here; case 1 never reads
      the marks. */
  function HighCardScan(p1: seq<Card>, p2: seq<Card>): Result<Outcome> {
    ScanDown(p1, p2, |p1| - 1)
  }

  /** Cases 2, 4 and 8: the first marked card of each hand, then the sorted
      unmarked cards by the high-card scan. */
  function GroupRule(p1: seq<Card>, m1: set<int>, p2: seq<Card>, m2: set<int>): Result<Outcome> {
    var v1 :- FindValue(p1, m1, true);
    var v2 :- FindValue(p2, m2, true);
    if v1 != v2 then Success(Outcome(PointFor(v1, v2), true))
    else HighCardScan(SortByValue(Select(p1, m1, false)), SortByValue(Select(p2, m2, false)))
  }

  /** Case 3: the high-card scan of the sorted marked cards; only if that scan
      returned false would the first unmarked cards be compared. */
  function TwoPairRule(p1: seq<Card>, m1: set<int>, p2: seq<Card>, m2: set<int>): Result<Outcome> {
    var o :- HighCardScan(SortByValue(Select(p1, m1, true)), SortByValue(Select(p2, m2, true)));
    if o.returned then Success(Outcome(o.added, true))
    else
      var k1 :- FindValue(p1, m1, false);
      var k2 :- FindValue(p2, m2, false);
      if k1 != k2 then Success(Outcome(Add(o.added, PointFor(k1, k2)), true))
      else Success(Outcome(o.added, false))
  }

  /** Case 7: the cards sharing the first card's value decide, by their count,
      which value stands for the trips and which for the pair. */
  function FullHouseRule(p1: seq<Card>, p2: seq<Card>): Result<Outcome> {
    if |p1| == 0 || |p2| == 0 then Failure(IndexOutOfRange)
    else
      var c1 := WithValue(p1, p1[0].value);
      var c2 := WithValue(p2, p2[0].value);
      var v1 := if |c1| == 3 then c1[0].value else p1[0].value;
      var v2 := if |c2| == 3 then c2[0].value else p2[0].value;
      if v1 != v2 then Success(Outcome(PointFor(v1, v2), true))
      else
        var w1 := if |c1| == 2 then c1[0].value else p1[0].value;
        var w2 := if |c2| == 2 then c2[0].value else p2[0].value;
        if w1 != w2 then Success(Outcome(PointFor(w1, w2), true))
        else Success(Outcome(NoPoint, false))
  }

  /** `TieBreak(rank, p1_cards, p2_cards)`, with each hand's marks passed
      beside it: dispatch on the category. */
  function TieBreak(rank: int, p1: seq<Card>, m1: set<int>, p2: seq<Card>, m2: set<int>): Result<Outcome> {
    if rank == HighCard || rank == Straight || rank == Flush || rank == StraightFlush then HighCardScan(p1, p2)
    else if rank == OnePair || rank == ThreeOfAKind || rank == FourOfAKind then GroupRule(p1, m1, p2, m2)
    else if rank == TwoPair then TwoPairRule(p1, m1, p2, m2)
    else if rank == FullHouse then FullHouseRule(p1, p2)
    else if rank == RoyalFlush then Success(Outcome(NoPoint, false))
    else Failure(InvalidRank)
  }

  // ----- The high-card scan -----

  /** The scan always returns true, and throws exactly when it starts past the
      end of the second hand. */
  lemma {:induction false} ScanReturnsTrue(p1: seq<Card>, p2: seq<Card>, i: int)
    requires -1 <= i < |p1|
    ensures ScanDown(p1, p2, i).Failure? <==> 0 <= i && |p2| <= i
    ensures ScanDown(p1, p2, i).Success? ==> ScanDown(p1, p2, i).value.returned
    ensures ScanDown(p1, p2, i).Success? ==>
      AtMostOne(ScanDown(p1, p2, i).value.added)
    decreases i + 1
  {
    if 0 <= i < |p2| && p1[i].value == p2[i].value {
      ScanReturnsTrue(p1, p2, i - 1);
    }
  }

  lemma ReverseValuesStep(p: seq<Card>, i: int)
    requires 0 <= i < |p|
    ensures Reverse(Values(p[..i + 1])) == [p[i].value] + Reverse(Values(p[..i]))
  {
  }

  /** Scanning positions `i` down to 0 is the lexicographic comparison of the
      first `i + 1` values read from the top. */
  lemma {:induction false} ScanDownPrefix(p1: seq<Card>, p2: seq<Card>, i: int)
    requires |p1| == |p2| && -1 <= i < |p1|
    ensures ScanDown(p1, p2, i) ==
      Success(Outcome(Points(Lex(Reverse(Values(p1[..i + 1])), Reverse(Values(p2[..i + 1])))), true))
    decreases i + 1
  {
    if i >= 0 {
      ReverseValuesStep(p1, i);
      ReverseValuesStep(p2, i);
      ScanDownPrefix(p1, p2, i - 1);
    }
  }

  /** Categories 1, 5, 6 and 9: on hands of equal length the first difference
      from the highest position down decides, identical values give no
      winner, and the call returns true either way. */
  lemma HighCardRule(rank: int, p1: seq<Card>, m1: set<int>, p2: seq<Card>, m2: set<int>)
    requires rank == HighCard || rank == Straight || rank == Flush || rank == StraightFlush
    requires |p1| == |p2|
    ensures TieBreak(rank, p1, m1, p2, m2) ==
      Success(Outcome(Points(Lex(Reverse(Values(p1)), Reverse(Values(p2)))), true))
    ensures TieBreak(rank, p1, m1, p2, m2).value.added == NoPoint <==> Values(p1) == Values(p2)
  {
    ScanIsLex(p1, p2);
    LexTieIffEqual(Reverse(Values(p1)), Reverse(Values(p2)));
    if Reverse(Values(p1)) == Reverse(Values(p2)) {
      assert forall k :: 0 <= k < |p1| ==> Values(p1)[k] == Reverse(Values(p1))[|p1| - 1 - k];
    }
  }

  /** The high-card scan of two lists of equal length is the lexicographic
      comparison of their values read from the top. */
  lemma ScanIsLex(p1: seq<Card>, p2: seq<Card>)
    requires |p1| == |p2|
    ensures HighCardScan(p1, p2) == Success(Outcome(Points(Lex(Reverse(Values(p1)), Reverse(Values(p2)))), true))
  {
    ScanDownPrefix(p1, p2, |p1| - 1);
    assert p1[..|p1|] == p1;
    assert p2[..|p2|] == p2;
  }

  /** The scan of category 1 returns true whatever the hands hold, so in the
      two-pair case the test `!TieBreak(1, c1, c2)` is always false and the
      kicker comparison after it never runs. */
  lemma HighCardScanAlwaysReturnsTrue(p1: seq<Card>, p2: seq<Card>)
    ensures HighCardScan(p1, p2).Success? ==> HighCardScan(p1, p2).value.returned
    ensures HighCardScan(p1, p2).Success? ==> AtMostOne(HighCardScan(p1, p2).value.added)
    ensures HighCardScan(p1, p2).Failure? <==> |p2| < |p1|
  {
    ScanReturnsTrue(p1, p2, |p1| - 1);
  }

  /** What a successful `TieBreak` reports: at most one point, and a false
      return only from a royal flush or from a full house without a winner. */
  predicate SingleVerdict(rank: int, r: Result<Outcome>) {
    r.Success? ==>
      && AtMostOne(r.value.added)
      && (r.value.returned <==> (rank != FullHouse && rank != RoyalFlush) || r.value.added != NoPoint)
  }

  /** Whatever it is given, one `TieBreak` call adds at most one point, and it
      returns false only for a royal flush or for a full house that found no
      winner. */
  lemma AtMostOnePoint(rank: int, p1: seq<Card>, m1: set<int>, p2: seq<Card>, m2: set<int>)
    ensures SingleVerdict(rank, TieBreak(rank, p1, m1, p2, m2))
  {
    if rank == HighCard || rank == Straight || rank == Flush || rank == StraightFlush {
      ScanReturnsTrue(p1, p2, |p1| - 1);
    } else if rank == OnePair || rank == ThreeOfAKind || rank == FourOfAKind {
      GroupRuleSingleVerdict(rank, p1, m1, p2, m2);
    } else if rank == TwoPair {
      TwoPairIsMarkedScan(p1, m1, p2, m2);
      var c1 := SortByValue(Select(p1, m1, true));
      ScanReturnsTrue(c1, SortByValue(Select(p2, m2, true)), |c1| - 1);
    } else if rank == FullHouse {
      FullHouseComparesLowestCard(p1, m1, p2, m2);
    }
  }

  lemma GroupRuleSingleVerdict(rank: int, p1: seq<Card>, m1: set<int>, p2: seq<Card>, m2: set<int>)
    requires rank == OnePair || rank == ThreeOfAKind || rank == FourOfAKind
    ensures SingleVerdict(rank, GroupRule(p1, m1, p2, m2))
  {
    var f1 := FindValue(p1, m1, true);
    var f2 := FindValue(p2, m2, true);
    if f1.Success? && f2.Success? && f1.value == f2.value {
      GroupRuleTied(p1, m1, p2, m2);
      HighCardScanAlwaysReturnsTrue(SortByValue(Select(p1, m1, false)), SortByValue(Select(p2, m2, false)));
    } else {
      GroupRuleUntied(p1, m1, p2, m2);
    }
  }

  /** Different groups, or a hand without a marked card: a point for the
      higher group, or the exception. */
  lemma GroupRuleUntied(p1: seq<Card>, m1: set<int>, p2: seq<Card>, m2: set<int>)
    requires var f1 := FindValue(p1, m1, true); var f2 := FindValue(p2, m2, true);
      !(f1.Success? && f2.Success? && f1.value == f2.value)
    ensures GroupRule(p1, m1, p2, m2).Success? ==>
      && GroupRule(p1, m1, p2, m2).value.returned
      && GroupRule(p1, m1, p2, m2).value.added != NoPoint
      && AtMostOne(GroupRule(p1, m1, p2, m2).value.added)
  {
  }

  /** Equal groups leave the round to the sorted kickers. */
  lemma GroupRuleTied(p1: seq<Card>, m1: set<int>, p2: seq<Card>, m2: set<int>)
    requires FindValue(p1, m1, true).Success? && FindValue(p2, m2, true).Success?
    requires FindValue(p1, m1, true).value == FindValue(p2, m2, true).value
    ensures GroupRule(p1, m1, p2, m2) ==
      HighCardScan(SortByValue(Select(p1, m1, false)), SortByValue(Select(p2, m2, false)))
  {
  }

  /** Two pair: because the scan always returns true, the result is the scan
      of the sorted marked cards, unchanged, and the kicker comparison
      (reached only on a false return) is dead code. */
  lemma TwoPairIsMarkedScan(p1: seq<Card>, m1: set<int>, p2: seq<Card>, m2: set<int>)
    ensures TieBreak(TwoPair, p1, m1, p2, m2) ==
      HighCardScan(SortByValue(Select(p1, m1, true)), SortByValue(Select(p2, m2, true)))
  {
    var c1 := SortByValue(Select(p1, m1, true));
    ScanReturnsTrue(c1, SortByValue(Select(p2, m2, true)), |c1| - 1);
  }

  // ----- Full house and royal flush -----

  /** Every card `WithValue` keeps has the value asked for, and the first card
      of a hand is always kept when asked for its own value. */
  lemma {:induction false} WithValueFacts(h: seq<Card>, x: int)
    ensures forall k :: 0 <= k < |WithValue(h, x)| ==> WithValue(h, x)[k].value == x
    ensures |h| > 0 && h[0].value == x ==> |WithValue(h, x)| > 0
    decreases |h|
  {
    if |h| > 0 {
      WithValueFacts(h[..|h| - 1], x);
    }
  }

  /** Full house: both comparisons come down to the lowest card of each
      sorted hand (`c1[0]` has the value of `p1_cards[0]` by construction),
      so only the lowest cards are ever compared; equal lowest cards give no
      winner and a false return. */
  lemma FullHouseComparesLowestCard(p1: seq<Card>, m1: set<int>, p2: seq<Card>, m2: set<int>)
    ensures |p1| == 0 || |p2| == 0 ==> TieBreak(FullHouse, p1, m1, p2, m2) == Failure(IndexOutOfRange)
    ensures |p1| > 0 && |p2| > 0 ==>
      TieBreak(FullHouse, p1, m1, p2, m2) ==
        Success(Outcome(PointFor(p1[0].value, p2[0].value), p1[0].value != p2[0].value))
  {
    if |p1| > 0 && |p2| > 0 {
      WithValueFacts(p1, p1[0].value);
      WithValueFacts(p2, p2[0].value);
    }
  }

  /** Royal flush against royal flush never has a winner. */
  lemma RoyalFlushNeverWins(p1: seq<Card>, m1: set<int>, p2: seq<Card>, m2: set<int>)
    ensures TieBreak(RoyalFlush, p1, m1, p2, m2) == Success(Outcome(NoPoint, false))
  {
  }

  /** A category outside 1..10 is rejected. */
  lemma InvalidRankRejected(rank: int, p1: seq<Card>, m1: set<int>, p2: seq<Card>, m2: set<int>)
    requires rank < HighCard || rank > RoyalFlush
    ensures TieBreak(rank, p1, m1, p2, m2) == Failure(InvalidRank)
  {
  }

  // ----- Sorted five-card hands of the grouped categories -----

  /** `Select` spelled out for five cards. */
  lemma SelectFive(h: seq<Card>, m: set<int>, marked: bool)
    requires |h| == 5
    ensures Select(h, m, marked) ==
      Keep(h, 0, m, marked) + Keep(h, 1, m, marked) + Keep(h, 2, m, marked) + Keep(h, 3, m, marked) + Keep(h, 4, m, marked)
  {
    assert h[..4][..3] == h[..3];
    assert h[..3][..2] == h[..2];
    assert h[..2][..1] == h[..1];
    assert h[..1][..0] == [];
    assert Select(h[..1], m, marked) == Keep(h, 0, m, marked);
    assert Select(h[..2], m, marked) == Keep(h, 0, m, marked) + Keep(h, 1, m, marked);
    assert Select(h[..3], m, marked) == Keep(h, 0, m, marked) + Keep(h, 1, m, marked) + Keep(h, 2, m, marked);
    assert Select(h[..4], m, marked) ==
      Keep(h, 0, m, marked) + Keep(h, 1, m, marked) + Keep(h, 2, m, marked) + Keep(h, 3, m, marked);
    assert h[..5] == h;
  }

  /** How many unmarked cards a hand of a grouped category keeps. */
  function KickerCount(category: int): int {
    if category == OnePair then 3 else if category == ThreeOfAKind then 2 else 1
  }

  /** When the marks are the positions `lo..hi-1`, the marked cards are that
      slice and the unmarked ones are the rest, in order. */
  lemma SelectRange(h: seq<Card>, m: set<int>, lo: int, hi: int)
    requires 0 <= lo <= hi <= |h|
    requires forall i :: 0 <= i < |h| ==> (i in m <==> lo <= i < hi)
    ensures Select(h, m, true) == h[lo..hi]
    ensures Select(h, m, false) == h[..lo] + h[hi..]
  {
    SelectMarkedRange(h, m, lo, hi);
    SelectUnmarkedRange(h, m, lo, hi);
  }

  lemma {:induction false} SelectMarkedRange(h: seq<Card>, m: set<int>, lo: int, hi: int)
    requires 0 <= lo <= hi <= |h|
    requires forall i :: 0 <= i < |h| ==> (i in m <==> lo <= i < hi)
    ensures Select(h, m, true) == h[lo..hi]
    decreases |h|
  {
    if |h| > 0 {
      var n := |h| - 1;
      var h' := h[..n];
      if hi == |h| && lo == hi {
        SelectMarkedRange(h', m, n, n);
      } else if hi == |h| {
        SelectMarkedRange(h', m, lo, n);
        assert h[lo..hi] == h'[lo..n] + [h[n]];
      } else {
        SelectMarkedRange(h', m, lo, hi);
        assert h[lo..hi] == h'[lo..hi];
      }
    }
  }

  lemma {:induction false} SelectUnmarkedRange(h: seq<Card>, m: set<int>, lo: int, hi: int)
    requires 0 <= lo <= hi <= |h|
    requires forall i :: 0 <= i < |h| ==> (i in m <==> lo <= i < hi)
    ensures Select(h, m, false) == h[..lo] + h[hi..]
    decreases |h|
  {
    if lo == |h| {
      SelectNoneMarked(h, m);
      assert h[..lo] + h[hi..] == h;
    } else {
      var n := |h| - 1;
      var h' := h[..n];
      if hi == |h| {
        SelectUnmarkedRange(h', m, lo, n);
        assert h[..lo] == h'[..lo];
        assert h'[n..] == [] && h[hi..] == [];
      } else {
        SelectUnmarkedRange(h', m, lo, hi);
        assert h[hi..] == h'[hi..] + [h[n]];
        assert h[..lo] == h'[..lo];
      }
    }
  }

  /** With no position marked, the unmarked cards are the whole hand. */
  lemma {:induction false} SelectNoneMarked(h: seq<Card>, m: set<int>)
    requires forall i :: 0 <= i < |h| ==> i !in m
    ensures Select(h, m, false) == h
    decreases |h|
  {
    if |h| > 0 {
      SelectNoneMarked(h[..|h| - 1], m);
      assert h == h[..|h| - 1] + [h[|h| - 1]];
    }
  }



  /** On a sorted hand of category 2, 4 or 8 the marks are one block of
      positions `lo..hi-1` of equal value. */
  lemma GroupBlock(h: seq<Card>) returns (lo: int, hi: int)
    requires |h| == 5 && SortedByValue(h)
    requires Rank(h).value.category in {OnePair, ThreeOfAKind, FourOfAKind}
    ensures 0 <= lo < hi <= 5 && hi - lo == 5 - KickerCount(Rank(h).value.category)
    ensures forall i :: 0 <= i < 5 ==> (i in Rank(h).value.marks <==> lo <= i < hi)
    ensures forall i :: lo <= i < hi ==> h[i].value == h[lo].value
  {
    var v := Values(h);
    if v[1] == v[0] && v[2] == v[0] && v[3] == v[0] {
      lo, hi := 0, 4;
    } else if v[1] == v[4] && v[2] == v[4] && v[3] == v[4] {
      lo, hi := 1, 5;
    } else if v[0] == v[1] && v[0] == v[2] {
      lo, hi := 0, 3;
    } else if v[1] == v[2] && v[1] == v[3] {
      lo, hi := 1, 4;
    } else if v[2] == v[3] && v[2] == v[4] {
      lo, hi := 2, 5;
    } else if v[0] == v[1] {
      lo, hi := 0, 2;
    } else if v[1] == v[2] {
      lo, hi := 1, 3;
    } else if v[2] == v[3] {
      lo, hi := 2, 4;
    } else {
      lo, hi := 3, 5;
    }
  }

  /** For categories 8, 4 and 2 on a sorted hand, the first marked card
      carries the group's value, every marked card shares it, and the value
      occurs at least twice; the unmarked cards are in ascending order. */
  lemma FirstMarkedIsGroupValue(h: seq<Card>)
    requires |h| == 5 && SortedByValue(h)
    requires Rank(h).value.category in {OnePair, ThreeOfAKind, FourOfAKind}
    ensures var r := Rank(h).value;
      && FindValue(h, r.marks, true).Success?
      && Count(Values(h), FindValue(h, r.marks, true).value) >= 2
      && (forall i :: 0 <= i < 5 && i in r.marks ==> h[i].value == FindValue(h, r.marks, true).value)
      && SortedByValue(Select(h, r.marks, false))
      && |Select(h, r.marks, false)| == KickerCount(r.category)
  {
    var r := Rank(h).value;
    var lo, hi := GroupBlock(h);
    SelectRange(h, r.marks, lo, hi);
    var v := Values(h);
    CountFive(v, h[lo].value);
    assert v[lo] == v[lo + 1];
  }

  /** Categories 2, 4 and 8 on sorted hands: the group's value decides first,
      then the unmarked kickers from the highest down; the call returns true. */
  lemma GroupThenKickers(h1: seq<Card>, h2: seq<Card>)
    requires |h1| == 5 && SortedByValue(h1) && |h2| == 5 && SortedByValue(h2)
    requires Rank(h1).value.category == Rank(h2).value.category
    requires Rank(h1).value.category in {OnePair, ThreeOfAKind, FourOfAKind}
    ensures var r1 := Rank(h1).value; var r2 := Rank(h2).value;
      var f1 := FindValue(h1, r1.marks, true); var f2 := FindValue(h2, r2.marks, true);
      var k1 := Values(Select(h1, r1.marks, false)); var k2 := Values(Select(h2, r2.marks, false));
      && f1.Success? && f2.Success?
      && TieBreak(r1.category, h1, r1.marks, h2, r2.marks) ==
           Success(Outcome(Points(Lex([f1.value] + Reverse(k1), [f2.value] + Reverse(k2))), true))
  {
    var r1 := Rank(h1).value;
    var r2 := Rank(h2).value;
    FirstMarkedIsGroupValue(h1);
    FirstMarkedIsGroupValue(h2);
    GroupRuleOnSortedKickers(h1, r1.marks, h2, r2.marks);
  }

  /** The group rule once both hands have a first marked card and ascending
      unmarked cards of the same number. */
  lemma GroupRuleOnSortedKickers(p1: seq<Card>, m1: set<int>, p2: seq<Card>, m2: set<int>)
    requires FindValue(p1, m1, true).Success? && FindValue(p2, m2, true).Success?
    requires SortedByValue(Select(p1, m1, false)) && SortedByValue(Select(p2, m2, false))
    requires |Select(p1, m1, false)| == |Select(p2, m2, false)|
    ensures var g1 := FindValue(p1, m1, true).value; var g2 := FindValue(p2, m2, true).value;
      var k1 := Values(Select(p1, m1, false)); var k2 := Values(Select(p2, m2, false));
      GroupRule(p1, m1, p2, m2) == Success(Outcome(Points(Lex([g1] + Reverse(k1), [g2] + Reverse(k2))), true))
  {
    var u1 := Select(p1, m1, false);
    var u2 := Select(p2, m2, false);
    var g1 := FindValue(p1, m1, true).value;
    var g2 := FindValue(p2, m2, true).value;
    var k1 := Reverse(Values(u1));
    var k2 := Reverse(Values(u2));
    LexCons(g1, k1, g2, k2);
    if g1 == g2 {
      SortSorted(u1);
      SortSorted(u2);
      ScanIsLex(u1, u2);
      assert GroupRule(p1, m1, p2, m2) == HighCardScan(u1, u2);
    } else {
      assert Points(Lex([g1] + k1, [g2] + k2)) == PointFor(g1, g2);
    }
  }

  /** On a sorted two-pair hand the marked cards are the low pair then the
      high pair, in ascending order, and the single unmarked card is the
      kicker. */
  lemma TwoPairShape(h: seq<Card>)
    requires |h| == 5 && SortedByValue(h)
    requires Rank(h).value.category == TwoPair
    ensures var p := Values(Select(h, Rank(h).value.marks, true));
      && SortedByValue(Select(h, Rank(h).value.marks, true))
      && |p| == 4 && p[0] == p[1] < p[2] == p[3]
      && Count(Values(h), p[0]) == 2 && Count(Values(h), p[2]) == 2
      && |Select(h, Rank(h).value.marks, false)| == 1
  {
    var r := Rank(h).value;
    var v := Values(h);
    SelectFive(h, r.marks, true);
    SelectFive(h, r.marks, false);
    CountFive(v, v[1]);
    CountFive(v, v[3]);
  }

  /** Two pair on sorted hands: the high pairs, then the low pairs, decide;
      when both pairs are equal nobody scores, whatever the kickers are. */
  lemma TwoPairIgnoresKicker(h1: seq<Card>, h2: seq<Card>)
    requires |h1| == 5 && SortedByValue(h1) && |h2| == 5 && SortedByValue(h2)
    requires Rank(h1).value.category == TwoPair && Rank(h2).value.category == TwoPair
    ensures var m1 := Rank(h1).value.marks; var m2 := Rank(h2).value.marks;
      var p1 := Values(Select(h1, m1, true)); var p2 := Values(Select(h2, m2, true));
      && |p1| == 4 && |p2| == 4
      && TieBreak(TwoPair, h1, m1, h2, m2) == Success(Outcome(Points(Lex([p1[3], p1[1]], [p2[3], p2[1]])), true))
      && (p1 == p2 ==> TieBreak(TwoPair, h1, m1, h2, m2) == Success(Outcome(NoPoint, true)))
  {
    var m1 := Rank(h1).value.marks;
    var m2 := Rank(h2).value.marks;
    TwoPairShape(h1);
    TwoPairShape(h2);
    TwoPairRuleOnSortedPairs(h1, m1, h2, m2);
  }

  /** The two-pair rule once both hands have four ascending marked cards
      forming two pairs. */
  lemma TwoPairRuleOnSortedPairs(p1: seq<Card>, m1: set<int>, p2: seq<Card>, m2: set<int>)
    requires SortedByValue(Select(p1, m1, true)) && SortedByValue(Select(p2, m2, true))
    requires var a := Values(Select(p1, m1, true)); |a| == 4 && a[0] == a[1] && a[2] == a[3]
    requires var b := Values(Select(p2, m2, true)); |b| == 4 && b[0] == b[1] && b[2] == b[3]
    ensures var a := Values(Select(p1, m1, true)); var b := Values(Select(p2, m2, true));
      && TwoPairRule(p1, m1, p2, m2) == Success(Outcome(Points(Lex([a[3], a[1]], [b[3], b[1]])), true))
      && (a == b ==> TwoPairRule(p1, m1, p2, m2) == Success(Outcome(NoPoint, true)))
  {
    var a := Values(Select(p1, m1, true));
    var b := Values(Select(p2, m2, true));
    var v := Lex([a[3], a[1]], [b[3], b[1]]);
    TwoPairScan(p1, m1, p2, m2);
    assert TwoPairRule(p1, m1, p2, m2) == Success(Outcome(Points(v), true));
    if a == b {
      LexTieIffEqual([a[3], a[1]], [b[3], b[1]]);
    }
  }

  /** The scan of the sorted marked cards of two two-pair hands compares the
      high pairs, then the low pairs. */
  lemma TwoPairScan(p1: seq<Card>, m1: set<int>, p2: seq<Card>, m2: set<int>)
    requires SortedByValue(Select(p1, m1, true)) && SortedByValue(Select(p2, m2, true))
    requires var a := Values(Select(p1, m1, true)); |a| == 4 && a[0] == a[1] && a[2] == a[3]
    requires var b := Values(Select(p2, m2, true)); |b| == 4 && b[0] == b[1] && b[2] == b[3]
    ensures var a := Values(Select(p1, m1, true)); var b := Values(Select(p2, m2, true));
      HighCardScan(SortByValue(Select(p1, m1, true)), SortByValue(Select(p2, m2, true))) ==
        Success(Outcome(Points(Lex([a[3], a[1]], [b[3], b[1]])), true))
  {
    var c1 := Select(p1, m1, true);
    var c2 := Select(p2, m2, true);
    SortSorted(c1);
    SortSorted(c2);
    var a := Values(c1);
    var b := Values(c2);
    ScanIsLex(c1, c2);
    ReverseOfPairs(a);
    ReverseOfPairs(b);
    LexPairs(a[3], a[1], b[3], b[1]);
  }

  /** Two pairs read from the top. */
  lemma ReverseOfPairs(a: seq<int>)
    requires |a| == 4 && a[0] == a[1] && a[2] == a[3]
    ensures Reverse(a) == [a[3], a[3], a[1], a[1]]
  {
  }

  /** Comparing two doubled pairs is comparing the pairs once. */
  lemma LexPairs(a: int, b: int, c: int, d: int)
    ensures Lex([a, a, b, b], [c, c, d, d]) == Lex([a, b], [c, d])
  {
    LexCons(a, [a, b, b], c, [c, d, d]);
    LexCons(a, [b, b], c, [d, d]);
    LexCons(b, [b], d, [d]);
    LexCons(a, [b], c, [d]);
    LexCons(b, [], d, []);
    assert [a, a, b, b] == [a] + [a, b, b];
    assert [c, c, d, d] == [c] + [c, d, d];
    assert [a, b, b] == [a] + [b, b];
    assert [c, d, d] == [c] + [d, d];
    assert [b, b] == [b] + [b];
    assert [d, d] == [d] + [d];
    assert [a, b] == [a] + [b];
    assert [c, d] == [c] + [d];
    assert [b] == [b] + [];
    assert [d] == [d] + [];
  }

  /** Which positions `Select` keeps depends on the marks alone, so hands
      with the same values give selections with the same values. */
  lemma {:induction false} SelectValues(a: seq<Card>, b: seq<Card>, m: set<int>, marked: bool)
    requires Values(a) == Values(b)
    ensures Values(Select(a, m, marked)) == Values(Select(b, m, marked))
    decreases |a|
  {
    if |a| > 0 {
      var n := |a| - 1;
      assert Values(a[..n]) == Values(a)[..n] == Values(b)[..n] == Values(b[..n]);
      SelectValues(a[..n], b[..n], m, marked);
      ValuesConcat(Select(a[..n], m, marked), Keep(a, n, m, marked));
      ValuesConcat(Select(b[..n], m, marked), Keep(b, n, m, marked));
      assert Values(Keep(a, n, m, marked)) == Values(Keep(b, n, m, marked)) by {
        assert a[n].value == Values(a)[n] == Values(b)[n] == b[n].value;
      }
    }
  }
}
