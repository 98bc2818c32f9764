/** Verdicts, win counters and the lexicographic order on value sequences
    that the tie-break rules are measured against. */
module Verdicts {

  /** The outcome of comparing two hands. */
  datatype Verdict = FirstWins | SecondWins | Tie

  /** The same comparison seen from the other side. */
  function Flip(v: Verdict): Verdict {
    match v
    case FirstWins => SecondWins
    case SecondWins => FirstWins
    case Tie => Tie
  }

  /** The win counters `p1_wins` and `p2_wins`; the same shape records the
      increments one comparison makes. */
  datatype Tally = Tally(p1Wins: nat, p2Wins: nat)

  const NoPoint := Tally(0, 0)
  const PointToFirst := Tally(1, 0)
  const PointToSecond := Tally(0, 1)

  /** One of the three increments a single comparison may make. */
  predicate AtMostOne(t: Tally) {
    t == NoPoint || t == PointToFirst || t == PointToSecond
  }

  function Add(t: Tally, d: Tally): Tally {
    Tally(t.p1Wins + d.p1Wins, t.p2Wins + d.p2Wins)
  }

  /** The counter increment a verdict calls for. */
  function Points(v: Verdict): Tally {
    match v
    case FirstWins => PointToFirst
    case SecondWins => PointToSecond
    case Tie => NoPoint
  }

  /** The increment for comparing two values: a point to the side with the
      higher value, and none when they are equal. */
  function PointFor(v1: int, v2: int): Tally {
    if v1 > v2 then PointToFirst else if v2 > v1 then PointToSecond else NoPoint
  }

  /** Swaps the two counters (the tally seen from the other side). */
  function Swap(t: Tally): Tally {
    Tally(t.p2Wins, t.p1Wins)
  }

  /** Lexicographic comparison, most significant element first: the first
      position where the sequences differ decides, and a sequence that runs
      out first loses. */
  function Lex(a: seq<int>, b: seq<int>): Verdict
    decreases |a|
  {
    if |a| == 0 && |b| == 0 then Tie
    else if |a| == 0 then SecondWins
    else if |b| == 0 then FirstWins
    else if a[0] > b[0] then FirstWins
    else if a[0] < b[0] then SecondWins
    else Lex(a[1..], b[1..])
  }

  /** The sequence read from its last element to its first. */
  function Reverse(v: seq<int>): seq<int> {
    seq(|v|, i requires 0 <= i < |v| => v[|v| - 1 - i])
  }

  /** Swapping the operands of `Lex` flips the verdict. */
  lemma {:induction false} LexFlip(a: seq<int>, b: seq<int>)
    ensures Lex(b, a) == Flip(Lex(a, b))
    decreases |a|
  {
    if |a| > 0 && |b| > 0 && a[0] == b[0] {
      LexFlip(a[1..], b[1..]);
    }
  }

  /** `Lex` declares a tie exactly for equal sequences. */
  lemma {:induction false} LexTieIffEqual(a: seq<int>, b: seq<int>)
    ensures Lex(a, b) == Tie <==> a == b
    decreases |a|
  {
    if |a| > 0 && |b| > 0 && a[0] == b[0] {
      LexTieIffEqual(a[1..], b[1..]);
      assert a == [a[0]] + a[1..];
      assert b == [b[0]] + b[1..];
    }
  }

  /** `Lex` on sequences with a given first element. */
  lemma LexCons(x: int, a: seq<int>, y: int, b: seq<int>)
    ensures Lex([x] + a, [y] + b) == if x > y then FirstWins else if x < y then SecondWins else Lex(a, b)
  {
    assert ([x] + a)[1..] == a;
    assert ([y] + b)[1..] == b;
  }

  /** Flipping a verdict swaps the counter it feeds. */
  lemma PointsFlip(v: Verdict)
    ensures Points(Flip(v)) == Swap(Points(v))
  {
  }
}
