/**
 * The cases of test/TestGame.ts, each proved from the shape lemmas of
 * `HandRules`. Ranks are the enum values of game/game.ts (`A` = 0, `_2` = 1,
 * ..., `_10` = 9, `J` = 10, `Q` = 11, `K` = 12); the test cards carry no
 * `newCard` flag, modelled as `false`.
 */
module HandExamples {
  import opened Poker
  import opened HandRules

  /** A card as the tests write it. */
  function Dealt(rank: Rank, suit: Suit): Card
  {
    Card(suit, rank, false)
  }

  lemma FiveRanks(cards: seq<Card>)
    requires |cards| == 5
    ensures Ranks(cards) == [cards[0].rank, cards[1].rank, cards[2].rank, cards[3].rank, cards[4].rank]
  {
  }

  /** Five 9s. */
  const FiveNinesHand: seq<Card> :=
    [Dealt(8, Club), Dealt(8, Diamond), Dealt(8, Diamond), Dealt(8, Heart), Dealt(8, Club)]

  lemma FiveNines()
    ensures Classify(FiveNinesHand) == Valid(FiveOfAKind, 260, 10)
  {
    FiveRanks(FiveNinesHand);
    assert forall i :: 0 <= i < 5 ==> FiveNinesHand[i].rank == FiveNinesHand[0].rank;
    FiveOfAKindScore(FiveNinesHand);
  }

  /** 10, J, Q, K, A of clubs. */
  const RoyalClubsHand: seq<Card> :=
    [Dealt(9, Club), Dealt(10, Club), Dealt(11, Club), Dealt(12, Club), Dealt(0, Club)]

  lemma RoyalClubsRanks()
    ensures multiset(Ranks(RoyalClubsHand)) == multiset(Broadway)
  {
    FiveRanks(RoyalClubsHand);
    assert Ranks(RoyalClubsHand) == [9, 10, 11, 12] + [Ace];
    assert Broadway == [Ace] + [9, 10, 11, 12];
  }

  lemma RoyalClubs()
    ensures Classify(RoyalClubsHand) == Valid(RoyalFlush, 250, 8)
  {
    RoyalClubsRanks();
    assert IsFlush(RoyalClubsHand);
    BroadwayScore(RoyalClubsHand);
  }

  /** 9, 10, Q, K, J of clubs: a straight flush topped by the King. */
  const StraightFlushClubsHand: seq<Card> :=
    [Dealt(8, Club), Dealt(9, Club), Dealt(11, Club), Dealt(12, Club), Dealt(10, Club)]

  lemma StraightFlushClubsRanks()
    ensures multiset(Ranks(StraightFlushClubsHand)) == multiset(RunFrom(8))
  {
    FiveRanks(StraightFlushClubsHand);
    assert Ranks(StraightFlushClubsHand) == [8, 9] + [11, 12] + [10];
    assert RunFrom(8) == [8, 9] + [10] + [11, 12];
  }

  lemma StraightFlushClubs()
    ensures Classify(StraightFlushClubsHand) == Valid(StraightFlush, 242, 6)
  {
    StraightFlushClubsRanks();
    assert IsFlush(StraightFlushClubsHand);
    RunScore(StraightFlushClubsHand, 8);
  }

  /** An 8 and four 9s. */
  const FourNinesHand: seq<Card> :=
    [Dealt(7, Club), Dealt(8, Diamond), Dealt(8, Diamond), Dealt(8, Heart), Dealt(8, Club)]

  lemma FourNinesRanks()
    ensures multiset(Ranks(FourNinesHand)) == multiset{8, 8, 8, 8, 7}
  {
    FiveRanks(FourNinesHand);
    assert Ranks(FourNinesHand) == [7] + [8, 8, 8, 8];
    assert multiset{8, 8, 8, 8, 7} == multiset([8, 8, 8, 8]) + multiset{7};
  }

  lemma FourNines()
    ensures Classify(FourNinesHand) == Valid(FourOfAKind, 140, 5)
  {
    FourNinesRanks();
    FourOfAKindScore(FourNinesHand, 8, 7);
  }

  /** Two 8s and three 9s. */
  const NinesFullOfEightsHand: seq<Card> :=
    [Dealt(7, Club), Dealt(7, Diamond), Dealt(8, Diamond), Dealt(8, Heart), Dealt(8, Club)]

  lemma NinesFullOfEightsRanks()
    ensures multiset(Ranks(NinesFullOfEightsHand)) == multiset{8, 8, 8, 7, 7}
  {
    FiveRanks(NinesFullOfEightsHand);
    assert Ranks(NinesFullOfEightsHand) == [7, 7] + [8, 8, 8];
    assert multiset{8, 8, 8, 7, 7} == multiset([8, 8, 8]) + multiset{7, 7};
  }

  lemma NinesFullOfEights()
    ensures Classify(NinesFullOfEightsHand) == Valid(FullHouse, 87, 4)
  {
    NinesFullOfEightsRanks();
    FullHouseScore(NinesFullOfEightsHand, 8, 7);
  }

  /** 8, 8, 7, 6, 9 of diamonds: the pair is outranked by the flush. */
  const DiamondFlushHand: seq<Card> :=
    [Dealt(7, Diamond), Dealt(7, Diamond), Dealt(6, Diamond), Dealt(5, Diamond), Dealt(8, Diamond)]

  lemma DiamondFlushRanks()
    ensures multiset(Ranks(DiamondFlushHand)) == multiset{7, 7, 6, 5, 8}
  {
    FiveRanks(DiamondFlushHand);
    assert multiset([7, 7, 6, 5, 8]) == multiset{7, 7, 6, 5, 8};
  }

  lemma DiamondFlush()
    ensures Classify(DiamondFlushHand) == Valid(Flush, 70, 3)
  {
    DiamondFlushRanks();
    assert IsFlush(DiamondFlushHand);
    PairScore(DiamondFlushHand, 7, 6, 5, 8);
  }

  /** 8, 7, 6, 5, 4 in two suits. */
  const EightHighStraightHand: seq<Card> :=
    [Dealt(7, Diamond), Dealt(6, Heart), Dealt(5, Diamond), Dealt(4, Diamond), Dealt(3, Diamond)]

  lemma EightHighStraightRanks()
    ensures multiset(Ranks(EightHighStraightHand)) == multiset(RunFrom(3))
  {
    FiveRanks(EightHighStraightHand);
    assert Ranks(EightHighStraightHand) == [7] + [6] + [5] + [4] + [3];
    assert RunFrom(3) == [3] + [4] + [5] + [6] + [7];
  }

  lemma EightHighStraight()
    ensures Classify(EightHighStraightHand) == Valid(Straight, 61, 2)
  {
    EightHighStraightRanks();
    RunScore(EightHighStraightHand, 3);
  }

  /** 8, 2 and three 6s. */
  const ThreeSixesHand: seq<Card> :=
    [Dealt(7, Diamond), Dealt(1, Heart), Dealt(5, Diamond), Dealt(5, Diamond), Dealt(5, Diamond)]

  lemma ThreeSixesRanks()
    ensures multiset(Ranks(ThreeSixesHand)) == multiset{5, 5, 5, 7, 1}
  {
    FiveRanks(ThreeSixesHand);
    assert multiset([7, 1, 5, 5, 5]) == multiset{5, 5, 5, 7, 1};
  }

  lemma ThreeSixes()
    ensures Classify(ThreeSixesHand) == Valid(ThreeOfAKind, 38, 1)
  {
    ThreeSixesRanks();
    ThreeOfAKindScore(ThreeSixesHand, 5, 7, 1);
  }

  /** 2, 2, 6, 6, A: two pair, scored by the higher pair. */
  const SixesAndTwosHand: seq<Card> :=
    [Dealt(1, Diamond), Dealt(1, Heart), Dealt(5, Diamond), Dealt(5, Diamond), Dealt(0, Diamond)]

  lemma SixesAndTwosRanks()
    ensures multiset(Ranks(SixesAndTwosHand)) == multiset{1, 1, 5, 5, 0}
  {
    FiveRanks(SixesAndTwosHand);
    assert multiset([1, 1, 5, 5, 0]) == multiset{1, 1, 5, 5, 0};
  }

  lemma SixesAndTwos()
    ensures Classify(SixesAndTwosHand) == Valid(TwoPair, 12, 0)
  {
    SixesAndTwosRanks();
    TwoPairScore(SixesAndTwosHand, 1, 5, 0);
  }

  /** 2, 2, 6, 7, A. */
  const PairOfTwosHand: seq<Card> :=
    [Dealt(1, Diamond), Dealt(1, Heart), Dealt(5, Diamond), Dealt(6, Diamond), Dealt(0, Diamond)]

  lemma PairOfTwosRanks()
    ensures multiset(Ranks(PairOfTwosHand)) == multiset{1, 1, 5, 6, 0}
  {
    FiveRanks(PairOfTwosHand);
    assert multiset([1, 1, 5, 6, 0]) == multiset{1, 1, 5, 6, 0};
  }

  lemma PairOfTwos()
    ensures Classify(PairOfTwosHand) == Valid(Pair, 2, 0)
  {
    PairOfTwosRanks();
    PairScore(PairOfTwosHand, 1, 5, 6, 0);
  }

  /** 10, 10, A, 9, 4: a valid hand, a pair of 10s. */
  const PairOfTensHand: seq<Card> :=
    [Dealt(9, Club), Dealt(9, Diamond), Dealt(0, Diamond), Dealt(8, Heart), Dealt(3, Club)]

  lemma PairOfTensRanks()
    ensures multiset(Ranks(PairOfTensHand)) == multiset{9, 9, 0, 8, 3}
  {
    FiveRanks(PairOfTensHand);
    assert multiset([9, 9, 0, 8, 3]) == multiset{9, 9, 0, 8, 3};
  }

  lemma PairOfTens()
    ensures Classify(PairOfTensHand) == Valid(Pair, 10, 0)
  {
    PairOfTensRanks();
    PairScore(PairOfTensHand, 9, 0, 8, 3);
  }
}
