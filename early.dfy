/**
 * The first cut of the rules in src/game.ts: `GetHand` accepts any five
 * cards and rejects every other count, without naming a hand type or a
 * score. Its cards have no `newCard` flag.
 */
module EarlyGame {
  import opened Wrappers

  datatype Suit = Heart | Diamond | Spade | Club

  datatype Rank = Ace | Two | Three | Four | Five | Six | Seven | Eight | Nine | Ten | Jack | Queen | King

  datatype HandType =
    | FiveOfAKind | RoyalFlush | StraightFlush | FourOfAKind | FullHouse
    | Flush | Straight | ThreeOfAKind | TwoPair | Pair

  datatype Card = Card(suit: Suit, rank: Rank)

  /** The optional `handType` and `score` fields are `None` when absent. */
  datatype Hand = Hand(valid: bool, handType: Option<HandType>, score: Option<int>)

  /** `Game.GetHand`: valid exactly for five cards, and never typed or scored. */
  function GetHand(cards: seq<Card>): (h: Hand)
    ensures h.valid <==> |cards| == 5
    ensures h.handType.None? && h.score.None?
  {
    if |cards| != 5 then Hand(false, None, None) else Hand(true, None, None)
  }

  /** Suits and ranks are never read: equal lengths give equal results. */
  lemma LengthOnly(a: seq<Card>, b: seq<Card>)
    requires |a| == |b|
    ensures GetHand(a) == GetHand(b)
  {
  }

  /** The empty hand is rejected. */
  lemma EmptyRejected()
    ensures !GetHand([]).valid
  {
  }

  /** A pair of tens with an ace, a nine and a four is accepted. */
  lemma PairOfTensAccepted()
    ensures GetHand([Card(Club, Ten), Card(Diamond, Ten), Card(Diamond, Ace),
                     Card(Heart, Nine), Card(Club, Four)]).valid
  {
  }
}
