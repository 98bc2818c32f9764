/** One round of `ProcessHand`: split the line into tokens, parse two hands of
    five cards, sort and rank each, and score the round. The win counters are
    passed in and returned instead of living in static fields. */
module Game {
  import opened Results
  import opened Cards
  import opened Hands
  import opened Verdicts
  import opened Classifier
  import opened TieBreaking

  // ----- Splitting the line -----

  /** The number of leading characters before the first space. */
  function WordLength(s: string): (n: nat)
    ensures n <= |s|
    ensures forall i :: 0 <= i < n ==> s[i] != ' '
    ensures n == |s| || s[n] == ' '
  {
    if |s| == 0 || s[0] == ' ' then 0 else 1 + WordLength(s[1..])
  }

  /** The characters of `s` other than spaces, in order. */
  function NonSpaces(s: string): string {
    if |s| == 0 then ""
    else (if s[0] == ' ' then "" else [s[0]]) + NonSpaces(s[1..])
  }

  /** All tokens, joined with nothing in between. */
  function Concat(ts: seq<string>): string {
    if |ts| == 0 then "" else ts[0] + Concat(ts[1..])
  }

  /** A token as `Split` returns it: non-empty and free of spaces. */
  predicate IsWord(t: string) {
    |t| > 0 && forall i :: 0 <= i < |t| ==> t[i] != ' '
  }

  /** Splitting the line at spaces and dropping empty entries: the maximal
      runs of non-space characters, in order. */
  function Tokens(line: string): (ts: seq<string>)
    ensures forall k :: 0 <= k < |ts| ==> IsWord(ts[k])
    ensures Concat(ts) == NonSpaces(line)
    decreases |line|
  {
    if |line| == 0 then []
    else if line[0] == ' ' then Tokens(line[1..])
    else
      var n := WordLength(line);
      NonSpacesSplit(line, n);
      [line[..n]] + Tokens(line[n..])
  }

  /** Removing spaces from a word-prefix and the rest separately. */
  lemma {:induction false} NonSpacesSplit(s: string, n: nat)
    requires n <= |s| && forall i :: 0 <= i < n ==> s[i] != ' '
    ensures NonSpaces(s) == s[..n] + NonSpaces(s[n..])
    decreases n
  {
    if n > 0 {
      NonSpacesSplit(s[1..], n - 1);
      assert s[1..][n - 1..] == s[n..];
      assert s[..n] == [s[0]] + s[1..][..n - 1];
    }
  }

  /** The tokens joined by single spaces. */
  function Join(ts: seq<string>): string {
    if |ts| == 0 then ""
    else if |ts| == 1 then ts[0]
    else ts[0] + " " + Join(ts[1..])
  }

  lemma {:induction false} WordLengthOfWord(t: string, rest: string)
    requires IsWord(t)
    requires |rest| == 0 || rest[0] == ' '
    ensures WordLength(t + rest) == |t|
    decreases |t|
  {
    if |t| > 1 {
      WordLengthOfWord(t[1..], rest);
      assert (t + rest)[1..] == t[1..] + rest;
    }
    if |t| == 1 {
      assert (t + rest)[1..] == rest;
    }
  }

  /** Splitting words joined by single spaces gives the words back. */
  lemma {:induction false} TokensOfJoin(ts: seq<string>)
    requires forall k :: 0 <= k < |ts| ==> IsWord(ts[k])
    ensures Tokens(Join(ts)) == ts
    decreases |ts|
  {
    if |ts| == 1 {
      WordLengthOfWord(ts[0], "");
      assert ts[0] + "" == ts[0];
      assert Join(ts)[..|ts[0]|] == ts[0];
      assert Join(ts)[|ts[0]|..] == "";
    } else if |ts| > 1 {
      var rest := " " + Join(ts[1..]);
      WordLengthOfWord(ts[0], rest);
      assert Join(ts) == ts[0] + rest;
      assert Join(ts)[..|ts[0]|] == ts[0];
      assert Join(ts)[|ts[0]|..] == rest;
      assert rest[1..] == Join(ts[1..]);
      TokensOfJoin(ts[1..]);
      assert ts == [ts[0]] + ts[1..];
    }
  }

  /** A run of `n` spaces. */
  function Spaces(n: nat): (s: string)
    ensures |s| == n && forall i :: 0 <= i < n ==> s[i] == ' '
  {
    if n == 0 then "" else " " + Spaces(n - 1)
  }

  /** Gaps that may surround the words `ts`: `gaps[k]` spaces before word
      `k` and `gaps[|ts|]` after the last, at least one between two words. */
  predicate Gaps(ts: seq<string>, gaps: seq<nat>) {
    |gaps| == |ts| + 1 && forall k :: 0 < k < |ts| ==> gaps[k] > 0
  }

  /** The words `ts` laid out on a line with the given gaps of spaces. */
  function Spaced(ts: seq<string>, gaps: seq<nat>): string
    requires |gaps| == |ts| + 1
  {
    if |ts| == 0 then Spaces(gaps[0])
    else Spaces(gaps[0]) + ts[0] + Spaced(ts[1..], gaps[1..])
  }

  /** Leading spaces never produce a token. */
  lemma {:induction false} TokensSkipSpaces(n: nat, s: string)
    ensures Tokens(Spaces(n) + s) == Tokens(s)
    decreases n
  {
    if n > 0 {
      var line := Spaces(n) + s;
      assert line == " " + (Spaces(n - 1) + s);
      assert line[0] == ' ' && line[1..] == Spaces(n - 1) + s;
      assert Tokens(line) == Tokens(line[1..]);
      TokensSkipSpaces(n - 1, s);
    } else {
      assert Spaces(n) + s == s;
    }
  }

  /** A word followed by a space or by the end of the line is one token. */
  lemma TokensOfWordThen(t: string, rest: string)
    requires IsWord(t)
    requires |rest| == 0 || rest[0] == ' '
    ensures Tokens(t + rest) == [t] + Tokens(rest)
  {
    WordLengthOfWord(t, rest);
    assert (t + rest)[..|t|] == t;
    assert (t + rest)[|t|..] == rest;
  }

  /** Splitting words laid out with any gaps of spaces gives the words back:
      one or more spaces separate two tokens, and spaces at either end are
      dropped. */
  lemma {:induction false} TokensOfSpaced(ts: seq<string>, gaps: seq<nat>)
    requires forall k :: 0 <= k < |ts| ==> IsWord(ts[k])
    requires Gaps(ts, gaps)
    ensures Tokens(Spaced(ts, gaps)) == ts
    decreases |ts|
  {
    if |ts| == 0 {
      TokensSkipSpaces(gaps[0], "");
      assert Spaces(gaps[0]) + "" == Spaces(gaps[0]);
    } else {
      var rest := Spaced(ts[1..], gaps[1..]);
      assert |ts| > 1 ==> gaps[1] > 0;
      assert |rest| == 0 || rest[0] == ' ';
      TokensOfSpaced(ts[1..], gaps[1..]);
      TokensOfWordThen(ts[0], rest);
      assert Spaced(ts, gaps) == Spaces(gaps[0]) + (ts[0] + rest);
      TokensSkipSpaces(gaps[0], ts[0] + rest);
      assert ts == [ts[0]] + ts[1..];
    }
  }

  /** One more leading space before the same layout. */
  lemma SpacedMoreSpace(ts: seq<string>, g: seq<nat>)
    requires |g| == |ts| + 1
    ensures Spaced(ts, [g[0] + 1] + g[1..]) == " " + Spaced(ts, g)
  {
    var g' := [g[0] + 1] + g[1..];
    assert g'[1..] == g[1..];
    assert Spaces(g[0] + 1) == " " + Spaces(g[0]);
  }

  /** A word with no spaces before it opens the layout. */
  lemma SpacedWord(t: string, ts: seq<string>, g: seq<nat>)
    requires |g| == |ts| + 1
    ensures Spaced([t] + ts, [0] + g) == t + Spaced(ts, g)
  {
    assert ([t] + ts)[1..] == ts;
    assert ([0] + g)[1..] == g;
    assert Spaces(0) + t == t;
  }

  /** A layout with no leading spaces starts with its first word. */
  lemma SpacedStartsWithWord(ts: seq<string>, g: seq<nat>)
    requires |g| == |ts| + 1 && |ts| > 0 && g[0] == 0 && IsWord(ts[0])
    ensures |Spaced(ts, g)| > 0 && Spaced(ts, g)[0] != ' '
  {
    assert Spaced(ts, g) == ts[0] + Spaced(ts[1..], g[1..]);
  }

  /** Every line is its own tokens laid out with some gaps of spaces. */
  lemma {:induction false} SpacedTokens(line: string) returns (gaps: seq<nat>)
    ensures Gaps(Tokens(line), gaps)
    ensures Spaced(Tokens(line), gaps) == line
    decreases |line|
  {
    if |line| == 0 {
      gaps := [0];
    } else if line[0] == ' ' {
      var g := SpacedTokens(line[1..]);
      gaps := [g[0] + 1] + g[1..];
      SpacedMoreSpace(Tokens(line[1..]), g);
      assert line == [line[0]] + line[1..];
    } else {
      var n := WordLength(line);
      var g := SpacedTokens(line[n..]);
      var ts := Tokens(line[n..]);
      gaps := [0] + g;
      if |ts| > 0 && g[0] == 0 {
        SpacedStartsWithWord(ts, g);
      }
      SpacedWord(line[..n], ts, g);
      assert line == line[..n] + line[n..];
    }
  }

  /** `Tokens` is exactly the split at runs of spaces: words free of spaces
      are the tokens of a line exactly when the line lays them out with gaps
      of spaces, at least one between two words. */
  lemma TokensIffSpaced(line: string, ts: seq<string>)
    requires forall k :: 0 <= k < |ts| ==> IsWord(ts[k])
    ensures Tokens(line) == ts <==> exists gaps :: Gaps(ts, gaps) && Spaced(ts, gaps) == line
  {
    if Tokens(line) == ts {
      var gaps := SpacedTokens(line);
    }
    if exists gaps :: Gaps(ts, gaps) && Spaced(ts, gaps) == line {
      var gaps :| Gaps(ts, gaps) && Spaced(ts, gaps) == line;
      TokensOfSpaced(ts, gaps);
    }
  }

  // ----- Parsing the two hands -----

  /** The cards of the given tokens, in order, or the error of the first
      token the card constructor rejects. */
  function ParseCards(tokens: seq<string>): (r: Result<seq<Card>>)
    ensures r.Success? <==> forall k :: 0 <= k < |tokens| ==> ParseCard(tokens[k]).Success?
    ensures r.Success? ==>
      |r.value| == |tokens| && forall k :: 0 <= k < |tokens| ==> ParseCard(tokens[k]) == Success(r.value[k])
    ensures r.Failure? ==>
      exists k :: 0 <= k < |tokens| && ParseCard(tokens[k]) == Failure(r.error)
        && forall j :: 0 <= j < k ==> ParseCard(tokens[j]).Success?
  {
    if |tokens| == 0 then Success([])
    else
      var c :- ParseCard(tokens[0]);
      var rest :- ParseCards(tokens[1..]);
      Success([c] + rest)
  }

  /** What a line holds: not ten tokens, or two parsed hands. */
  datatype Line = WrongTokenCount | Hands(first: seq<Card>, second: seq<Card>)

  /** The token split and card construction of `ProcessHand`: tokens 1-5 are
      the first hand and 6-10 the second. */
  function ReadLine(line: string): Result<Line> {
    var ts := Tokens(line);
    if |ts| != 10 then Success(WrongTokenCount)
    else
      var a :- ParseCards(ts[..5]);
      var b :- ParseCards(ts[5..]);
      Success(Hands(a, b))
  }

  /** The tokens naming the given cards. */
  function RenderAll(cs: seq<Card>): (ts: seq<string>)
    requires forall k :: 0 <= k < |cs| ==> ValidValue(cs[k].value)
    ensures |ts| == |cs|
  {
    seq(|cs|, i requires 0 <= i < |cs| => Render(cs[i]))
  }

  /** The line naming two hands, cards separated by single spaces. */
  function LineOf(c1: seq<Card>, c2: seq<Card>): string
    requires forall k :: 0 <= k < |c1| ==> ValidValue(c1[k].value)
    requires forall k :: 0 <= k < |c2| ==> ValidValue(c2[k].value)
  {
    Join(RenderAll(c1) + RenderAll(c2))
  }

  /** Parsing rendered cards gives the cards back. */
  lemma {:induction false} ParseRenderAll(cs: seq<Card>)
    requires forall k :: 0 <= k < |cs| ==> ValidValue(cs[k].value)
    ensures ParseCards(RenderAll(cs)) == Success(cs)
    decreases |cs|
  {
    if |cs| > 0 {
      ParseRender(cs[0]);
      ParseRenderAll(cs[1..]);
      assert RenderAll(cs)[0] == Render(cs[0]);
      assert RenderAll(cs)[1..] == RenderAll(cs[1..]);
      assert ParseCards(RenderAll(cs)) == Success([cs[0]] + cs[1..]);
      assert cs == [cs[0]] + cs[1..];
    }
  }

  /** Reading the line that names two hands of five cards gives the two
      hands back. */
  lemma ReadLineOfHands(c1: seq<Card>, c2: seq<Card>)
    requires |c1| == 5 && |c2| == 5
    requires forall k :: 0 <= k < 5 ==> ValidValue(c1[k].value) && ValidValue(c2[k].value)
    ensures ReadLine(LineOf(c1, c2)) == Success(Hands(c1, c2))
  {
    var ts := RenderAll(c1) + RenderAll(c2);
    forall k | 0 <= k < |ts|
      ensures IsWord(ts[k])
    {
      var c := if k < 5 then c1[k] else c2[k - 5];
      assert ts[k] == Render(c);
      assert RankChar(c.value) in RankChars;
    }
    TokensOfJoin(ts);
    assert ts[..5] == RenderAll(c1);
    assert ts[5..] == RenderAll(c2);
    ParseRenderAll(c1);
    ParseRenderAll(c2);
  }

  // ----- Scoring -----

  /** Score two hands that are already sorted: a strictly higher category
      wins outright, equal categories go to `TieBreak`. */
  function DecideSorted(p1: seq<Card>, p2: seq<Card>): Result<Tally> {
    var r1 :- Rank(p1);
    var r2 :- Rank(p2);
    if r1.category > r2.category then Success(PointToFirst)
    else if r2.category > r1.category then Success(PointToSecond)
    else
      var o :- TieBreak(r1.category, p1, r1.marks, p2, r2.marks);
      Success(o.added)
  }

  /** Sort both hands by value, then score them. */
  function Decide(cards1: seq<Card>, cards2: seq<Card>): Result<Tally> {
    DecideSorted(SortByValue(cards1), SortByValue(cards2))
  }

  /** The result of `ProcessHand`: what it returned and the counters after it. */
  datatype Round = Round(returned: bool, tally: Tally)

  /** `ProcessHand(hand)`: a missing line (`None`, the source's null) or a
      line without exactly ten tokens returns false
      and leaves the counters alone; a line with ten valid tokens returns
      true and adds at most one point; an invalid token throws. */
  function ProcessHand(hand: Option<string>, t: Tally): Result<Round> {
    if hand.None? then Success(Round(false, t))
    else
    var l :- ReadLine(hand.value);
    match l
    case WrongTokenCount => Success(Round(false, t))
    case Hands(a, b) =>
      var d :- Decide(a, b);
      Success(Round(true, Add(t, d)))
  }

  // ----- Properties of the verdict -----

  /** A sorted five-card hand against another one: `TieBreak` is always given
      what it needs, so scoring never fails, and it adds at most one point;
      swapping the hands swaps the counters. */
  lemma TieBreakOnSortedHands(p1: seq<Card>, p2: seq<Card>)
    requires |p1| == 5 && SortedByValue(p1) && |p2| == 5 && SortedByValue(p2)
    requires Rank(p1).value.category == Rank(p2).value.category
    ensures var r1 := Rank(p1).value; var r2 := Rank(p2).value;
      var o := TieBreak(r1.category, p1, r1.marks, p2, r2.marks);
      var o' := TieBreak(r1.category, p2, r2.marks, p1, r1.marks);
      && o.Success? && o'.Success?
      && AtMostOne(o.value.added)
      && o'.value.added == Swap(o.value.added)
  {
    var r1 := Rank(p1).value;
    var r2 := Rank(p2).value;
    var c := r1.category;
    AtMostOnePoint(c, p1, r1.marks, p2, r2.marks);
    if c == HighCard || c == Straight || c == Flush || c == StraightFlush {
      HighCardRule(c, p1, r1.marks, p2, r2.marks);
      HighCardRule(c, p2, r2.marks, p1, r1.marks);
      LexFlip(Reverse(Values(p1)), Reverse(Values(p2)));
      PointsFlip(Lex(Reverse(Values(p1)), Reverse(Values(p2))));
    } else if c == OnePair || c == ThreeOfAKind || c == FourOfAKind {
      GroupThenKickers(p1, p2);
      GroupThenKickers(p2, p1);
      var g1 := FindValue(p1, r1.marks, true).value;
      var g2 := FindValue(p2, r2.marks, true).value;
      var k1 := Reverse(Values(Select(p1, r1.marks, false)));
      var k2 := Reverse(Values(Select(p2, r2.marks, false)));
      LexFlip([g1] + k1, [g2] + k2);
      PointsFlip(Lex([g1] + k1, [g2] + k2));
    } else if c == TwoPair {
      TwoPairIgnoresKicker(p1, p2);
      TwoPairIgnoresKicker(p2, p1);
      var a := Values(Select(p1, r1.marks, true));
      var b := Values(Select(p2, r2.marks, true));
      LexFlip([a[3], a[1]], [b[3], b[1]]);
      PointsFlip(Lex([a[3], a[1]], [b[3], b[1]]));
    } else if c == FullHouse {
      FullHouseComparesLowestCard(p1, r1.marks, p2, r2.marks);
      FullHouseComparesLowestCard(p2, r2.marks, p1, r1.marks);
    }
  }

  /** Scoring two sorted five-card hands never fails and adds at most one
      point. */
  lemma DecideSortedTotal(p1: seq<Card>, p2: seq<Card>)
    requires |p1| == 5 && SortedByValue(p1) && |p2| == 5 && SortedByValue(p2)
    ensures DecideSorted(p1, p2).Success? && AtMostOne(DecideSorted(p1, p2).value)
  {
    if Rank(p1).value.category == Rank(p2).value.category {
      TieBreakOnSortedHands(p1, p2);
    }
  }

  /** Swapping the two hands swaps the counters: the verdict is antisymmetric. */
  lemma DecideAntisymmetric(c1: seq<Card>, c2: seq<Card>)
    requires |c1| == 5 && |c2| == 5
    ensures Decide(c1, c2).Success? && Decide(c2, c1).Success?
    ensures Decide(c2, c1).value == Swap(Decide(c1, c2).value)
  {
    var p1 := SortByValue(c1);
    var p2 := SortByValue(c2);
    DecideSortedTotal(p1, p2);
    DecideSortedTotal(p2, p1);
    if Rank(p1).value.category == Rank(p2).value.category {
      TieBreakOnSortedHands(p1, p2);
    }
  }

  /** A hand played against itself scores for nobody. */
  lemma DecideReflexive(c: seq<Card>)
    requires |c| == 5
    ensures Decide(c, c) == Success(NoPoint)
  {
    var p := SortByValue(c);
    DecideSortedTotal(p, p);
    if Rank(p).value.category == Rank(p).value.category {
      TieBreakOnSortedHands(p, p);
    }
  }

  /** A hand whose textbook category is strictly higher wins outright,
      whatever its values (any one pair beats any high card, say). */
  lemma HigherCategoryWins(c1: seq<Card>, c2: seq<Card>)
    requires |c1| == 5 && |c2| == 5
    requires StandardCategory(SortByValue(c1)) > StandardCategory(SortByValue(c2))
    ensures Decide(c1, c2) == Success(PointToFirst)
  {
    var p1 := SortByValue(c1);
    var p2 := SortByValue(c2);
    RankIsStandard(p1);
    RankIsStandard(p2);
  }

  /** The contract of one call of `ProcessHand`: a missing line or one
      without exactly ten tokens returns false and changes neither counter;
      ten tokens that all name cards return true and add one point to at
      most one counter; otherwise the call fails with the card constructor's
      error for the first bad token. */
  lemma ProcessHandScores(hand: Option<string>, t: Tally)
    ensures var r := ProcessHand(hand, t);
      hand.None? || |Tokens(hand.value)| != 10 ==> r == Success(Round(false, t))
    ensures var r := ProcessHand(hand, t);
      hand.Some? && |Tokens(hand.value)| == 10 ==>
        (r.Success? <==> forall k :: 0 <= k < 10 ==> ParseCard(Tokens(hand.value)[k]).Success?)
    ensures var r := ProcessHand(hand, t);
      hand.Some? && |Tokens(hand.value)| == 10 && r.Success? ==>
        && r.value.returned
        && (r.value.tally == t || r.value.tally == Add(t, PointToFirst) || r.value.tally == Add(t, PointToSecond))
    ensures var r := ProcessHand(hand, t);
      r.Failure? ==>
        hand.Some? &&
        exists k :: (0 <= k < |Tokens(hand.value)| && ParseCard(Tokens(hand.value)[k]) == Failure(r.error)
          && forall j :: 0 <= j < k ==> ParseCard(Tokens(hand.value)[j]).Success?)
  {
    if hand.Some? {
      ReadLineOutcome(hand.value);
      var l := ReadLine(hand.value);
      if l.Success? && l.value.Hands? {
        DecideTotal(l.value.first, l.value.second);
      }
    }
  }

  /** Any two five-card hands are scored, and at most one player scores. */
  lemma DecideTotal(c1: seq<Card>, c2: seq<Card>)
    requires |c1| == 5 && |c2| == 5
    ensures Decide(c1, c2).Success? && AtMostOne(Decide(c1, c2).value)
  {
    DecideSortedTotal(SortByValue(c1), SortByValue(c2));
  }

  /** What `ReadLine` yields: the marker for a wrong token count, two
      five-card hands when all ten tokens parse, and otherwise the error of a
      token that does not. */
  lemma ReadLineOutcome(line: string)
    ensures |Tokens(line)| != 10 ==> ReadLine(line) == Success(WrongTokenCount)
    ensures |Tokens(line)| == 10 ==>
      (ReadLine(line).Success? <==> forall k :: 0 <= k < 10 ==> ParseCard(Tokens(line)[k]).Success?)
    ensures |Tokens(line)| == 10 && ReadLine(line).Success? ==>
      ReadLine(line).value.Hands? && |ReadLine(line).value.first| == 5 && |ReadLine(line).value.second| == 5
    ensures ReadLine(line).Failure? ==>
      exists k :: (0 <= k < |Tokens(line)| && ParseCard(Tokens(line)[k]) == Failure(ReadLine(line).error)
        && forall j :: 0 <= j < k ==> ParseCard(Tokens(line)[j]).Success?)
  {
    if |Tokens(line)| == 10 {
      ReadLineOfTen(line);
    }
  }

  lemma ReadLineOfTen(line: string)
    requires |Tokens(line)| == 10
    ensures ReadLine(line).Success? <==> forall k :: 0 <= k < 10 ==> ParseCard(Tokens(line)[k]).Success?
    ensures ReadLine(line).Success? ==>
      ReadLine(line).value.Hands? && |ReadLine(line).value.first| == 5 && |ReadLine(line).value.second| == 5
    ensures ReadLine(line).Failure? ==>
      exists k :: (0 <= k < 10 && ParseCard(Tokens(line)[k]) == Failure(ReadLine(line).error)
        && forall j :: 0 <= j < k ==> ParseCard(Tokens(line)[j]).Success?)
  {
    ParseHalves(Tokens(line));
  }

  /** Parsing ten tokens as two halves of five: both halves parse exactly
      when every token does, and a failing half fails with the error of one
      of its tokens. */
  lemma ParseHalves(ts: seq<string>)
    requires |ts| == 10
    ensures var a := ParseCards(ts[..5]); var b := ParseCards(ts[5..]);
      && (a.Success? && b.Success? <==> forall k :: 0 <= k < 10 ==> ParseCard(ts[k]).Success?)
      && (a.Success? ==> |a.value| == 5)
      && (b.Success? ==> |b.value| == 5)
      && (a.Failure? ==>
            exists k :: (0 <= k < 10 && ParseCard(ts[k]) == Failure(a.error)
              && forall j :: 0 <= j < k ==> ParseCard(ts[j]).Success?))
      && (a.Success? && b.Failure? ==>
            exists k :: (0 <= k < 10 && ParseCard(ts[k]) == Failure(b.error)
              && forall j :: 0 <= j < k ==> ParseCard(ts[j]).Success?))
  {
    var a := ParseCards(ts[..5]);
    var b := ParseCards(ts[5..]);
    if a.Failure? {
      var k :| 0 <= k < 5 && ParseCard(ts[..5][k]) == Failure(a.error)
        && forall j :: 0 <= j < k ==> ParseCard(ts[..5][j]).Success?;
      assert ts[k] == ts[..5][k];
      forall j | 0 <= j < k
        ensures ParseCard(ts[j]).Success?
      {
        assert ts[j] == ts[..5][j];
      }
    }
    if a.Success? && b.Failure? {
      var k :| 0 <= k < 5 && ParseCard(ts[5..][k]) == Failure(b.error)
        && forall j :: 0 <= j < k ==> ParseCard(ts[5..][j]).Success?;
      assert ts[k + 5] == ts[5..][k];
      forall j | 0 <= j < k + 5
        ensures ParseCard(ts[j]).Success?
      {
        if j < 5 {
          assert ts[j] == ts[..5][j];
        } else {
          assert ts[j] == ts[5..][j - 5];
        }
      }
    }
    if a.Success? && b.Success? {
      forall k | 0 <= k < 10
        ensures ParseCard(ts[k]).Success?
      {
        if k < 5 {
          assert ts[k] == ts[..5][k];
        } else {
          assert ts[k] == ts[5..][k - 5];
        }
      }
    }
  }



  /** Ranking reads only the values and whether the suits agree. */
  lemma RankReadsValuesAndSuits(a: seq<Card>, b: seq<Card>)
    requires |a| == 5 && |b| == 5
    requires Values(a) == Values(b) && (SameSuit(a) <==> SameSuit(b))
    ensures Rank(a) == Rank(b)
  {
    assert Classify(a) == Classify(b);
  }

  /** Two sorted arrangements of the same hands score alike: cards of equal
      value may come out of the sort in either order without changing the
      verdict. */
  lemma DecideSortedIgnoresArrangement(p1: seq<Card>, p2: seq<Card>, q1: seq<Card>, q2: seq<Card>)
    requires |p1| == 5 && SortedByValue(p1) && |p2| == 5 && SortedByValue(p2)
    requires |q1| == 5 && SortedByValue(q1) && |q2| == 5 && SortedByValue(q2)
    requires multiset(p1) == multiset(q1) && multiset(p2) == multiset(q2)
    ensures DecideSorted(p1, p2) == DecideSorted(q1, q2)
  {
    SortedPermutationsAgree(p1, q1);
    SortedPermutationsAgree(p2, q2);
    RankReadsValuesAndSuits(p1, q1);
    RankReadsValuesAndSuits(p2, q2);
    var r1 := Rank(p1).value;
    var r2 := Rank(p2).value;
    var c := r1.category;
    if c == r2.category {
      if c == HighCard || c == Straight || c == Flush || c == StraightFlush {
        HighCardRule(c, p1, r1.marks, p2, r2.marks);
        HighCardRule(c, q1, r1.marks, q2, r2.marks);
      } else if c == OnePair || c == ThreeOfAKind || c == FourOfAKind {
        GroupThenKickers(p1, p2);
        GroupThenKickers(q1, q2);
        SelectValues(p1, q1, r1.marks, true);
        SelectValues(p2, q2, r2.marks, true);
        SelectValues(p1, q1, r1.marks, false);
        SelectValues(p2, q2, r2.marks, false);
        assert FindValue(p1, r1.marks, true) == FindValue(q1, r1.marks, true) by {
          assert Select(p1, r1.marks, true)[0].value == Values(Select(p1, r1.marks, true))[0];
          assert Select(q1, r1.marks, true)[0].value == Values(Select(q1, r1.marks, true))[0];
        }
        assert FindValue(p2, r2.marks, true) == FindValue(q2, r2.marks, true) by {
          assert Select(p2, r2.marks, true)[0].value == Values(Select(p2, r2.marks, true))[0];
          assert Select(q2, r2.marks, true)[0].value == Values(Select(q2, r2.marks, true))[0];
        }
      } else if c == TwoPair {
        TwoPairIgnoresKicker(p1, p2);
        TwoPairIgnoresKicker(q1, q2);
        SelectValues(p1, q1, r1.marks, true);
        SelectValues(p2, q2, r2.marks, true);
      } else if c == FullHouse {
        FullHouseComparesLowestCard(p1, r1.marks, p2, r2.marks);
        FullHouseComparesLowestCard(q1, r1.marks, q2, r2.marks);
        assert p1[0].value == Values(p1)[0] == Values(q1)[0] == q1[0].value;
        assert p2[0].value == Values(p2)[0] == Values(q2)[0] == q2[0].value;
      }
    }
  }

  /** The verdict does not depend on how the sort orders cards of equal
      value: scoring any sorted arrangements of the two hands gives what
      `Decide` gives. */
  lemma SortChoiceIrrelevant(c1: seq<Card>, c2: seq<Card>, q1: seq<Card>, q2: seq<Card>)
    requires |c1| == 5 && |c2| == 5
    requires SortedByValue(q1) && multiset(q1) == multiset(c1)
    requires SortedByValue(q2) && multiset(q2) == multiset(c2)
    ensures DecideSorted(q1, q2) == Decide(c1, c2)
  {
    assert |q1| == |multiset(q1)| == 5;
    assert |q2| == |multiset(q2)| == 5;
    DecideSortedIgnoresArrangement(SortByValue(c1), SortByValue(c2), q1, q2);
  }

  /** A line naming two hands of five valid cards is scored by `Decide` on
      those hands, and the call returns true. */
  lemma ProcessHandOfHands(c1: seq<Card>, c2: seq<Card>, t: Tally)
    requires |c1| == 5 && |c2| == 5
    requires forall k :: 0 <= k < 5 ==> ValidValue(c1[k].value) && ValidValue(c2[k].value)
    ensures Decide(c1, c2).Success?
    ensures ProcessHand(Some(LineOf(c1, c2)), t) == Success(Round(true, Add(t, Decide(c1, c2).value)))
  {
    ReadLineOfHands(c1, c2);
    DecideSortedTotal(SortByValue(c1), SortByValue(c2));
  }
}
