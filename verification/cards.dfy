/** Cards: the `CardValue`/`CardSuit` enums, the card constructor that parses a
    two-character token, and the value comparison the hands are sorted by. */
module Cards {
  import opened Results

  /** The suits, in the order of the `CardSuit` enum. */
  datatype Suit = D | H | S | C

  /** A parsed card. `value` runs from 2 to 14: digits stand for themselves,
      ten, jack, queen, king and ace are 10, 11, 12, 13 and 14. */
  datatype Card = Card(value: int, suit: Suit)

  /** The rank characters in value order: `RankChars[v - 2]` writes value `v`. */
  const RankChars: string := "23456789TJQKA"

  /** The suit characters, one per suit. */
  const SuitChars: string := "DHSC"

  predicate ValidValue(v: int) {
    2 <= v <= 14
  }

  predicate IsRankChar(ch: char) {
    ch in RankChars
  }

  predicate IsSuitChar(ch: char) {
    ch in SuitChars
  }

  function RankChar(v: int): char
    requires ValidValue(v)
  {
    RankChars[v - 2]
  }

  function SuitChar(s: Suit): char {
    match s
    case D => 'D'
    case H => 'H'
    case S => 'S'
    case C => 'C'
  }

  /** The canonical two-character text of a card. */
  function Render(c: Card): string
    requires ValidValue(c.value)
  {
    [RankChar(c.value), SuitChar(c.suit)]
  }

  /** The value field as the constructor leaves it after reading the first
      character: an (ASCII) digit reads as its number, a letter named in the
      `CardValue` enum as that member's number, and anything else leaves the
      field at its default of 0. */
  function ValueOf(ch: char): int {
    if '0' <= ch <= '9' then ch as int - '0' as int
    else if ch == 'T' then 10
    else if ch == 'J' then 11
    else if ch == 'Q' then 12
    else if ch == 'K' then 13
    else if ch == 'A' then 14
    else 0
  }

  /** The suit named by a character, if any (`Enum.TryParse<CardSuit>` on the letters). */
  function SuitOf(ch: char): Option<Suit> {
    if ch == 'D' then Some(D)
    else if ch == 'H' then Some(H)
    else if ch == 'S' then Some(S)
    else if ch == 'C' then Some(C)
    else None
  }

  /** The `Card(string)` constructor. The length is checked first, then the
      value range (which is how unknown rank characters, `0` and `1` are
      rejected), then the suit. Accepted tokens are exactly the canonical
      renderings of valid cards. */
  function ParseCard(token: string): (r: Result<Card>)
    ensures r.Success? <==> |token| == 2 && IsRankChar(token[0]) && IsSuitChar(token[1])
    ensures r.Success? ==> ValidValue(r.value.value) && Render(r.value) == token
    ensures |token| != 2 ==> r == Failure(InvalidCard)
    ensures |token| == 2 && !IsRankChar(token[0]) ==> r == Failure(InvalidCardValue)
    ensures |token| == 2 && IsRankChar(token[0]) && !IsSuitChar(token[1]) ==> r == Failure(InvalidCardSuit)
  {
    if |token| != 2 then Failure(InvalidCard)
    else
      var v := ValueOf(token[0]);
      if v < 2 || v > 14 then Failure(InvalidCardValue)
      else
        match SuitOf(token[1])
        case None => Failure(InvalidCardSuit)
        case Some(s) => Success(Card(v, s))
  }

  /** Rendering a valid card and parsing the text gives the card back. */
  lemma ParseRender(c: Card)
    requires ValidValue(c.value)
    ensures ParseCard(Render(c)) == Success(c)
  {
    var v := c.value;
    assert ValueOf(RankChar(v)) == v by {
      assert RankChars[v - 2] == RankChar(v);
    }
  }

  /** `Card.CompareTo`: the sign of the value difference; suits never count. */
  function CompareTo(a: Card, b: Card): (r: int)
    ensures r == -1 || r == 0 || r == 1
    ensures r < 0 <==> a.value < b.value
    ensures r > 0 <==> a.value > b.value
  {
    if a.value < b.value then -1
    else if a.value > b.value then 1
    else 0
  }

  /** Swapping the operands of `CompareTo` negates the result. */
  lemma CompareToAntisymmetric(a: Card, b: Card)
    ensures CompareTo(a, b) == -CompareTo(b, a)
    ensures CompareTo(a, b) == 0 <==> a.value == b.value
  {
  }
}
