/**
 * What the classifier of game/game.ts decides for each shape of five ranks:
 * the hand type, the score and the number of new cards, proved from the
 * first-match chain of `GetHand` as written.
 */
module HandRules {
  import MinMax
  import opened Poker

  // ---------------------------------------------------------------------
  // Counting occurrences

  /** The number of occurrences of `v` is the number of indices holding it. */
  lemma {:induction false} CountIsIndices(s: seq<int>, v: int, idx: set<int>)
    requires forall i :: i in idx <==> 0 <= i < |s| && s[i] == v
    ensures multiset(s)[v] == |idx|
    decreases |s|
  {
    if s == [] {
      assert forall i :: i !in idx;
      assert idx == {};
    } else {
      var n := |s| - 1;
      var init := s[..n];
      assert s == init + [s[n]];
      var idx' := idx - {n};
      assert forall i :: i in idx' <==> 0 <= i < |init| && init[i] == v;
      CountIsIndices(init, v, idx');
      if s[n] == v {
        assert idx == idx' + {n};
      } else {
        assert idx == idx';
      }
    }
  }

  /** A value found at two different indices occurs at least twice. */
  lemma CountAtLeastTwo(s: seq<int>, i: int, j: int)
    requires 0 <= i < j < |s| && s[i] == s[j]
    ensures multiset(s)[s[i]] >= 2
  {
    assert s == s[..i] + [s[i]] + s[i + 1..j] + [s[j]] + s[j + 1..];
  }

  /** A value that occurs at least twice is found at two different indices. */
  lemma TwoIndices(s: seq<int>, v: int) returns (i: int, j: int)
    requires multiset(s)[v] >= 2
    ensures 0 <= i < j < |s| && s[i] == v && s[j] == v
  {
    assert v in multiset(s);
    i :| 0 <= i < |s| && s[i] == v;
    MultisetRemove(s, i);
    var rest := s[..i] + s[i + 1..];
    assert v in multiset(rest);
    var k :| 0 <= k < |rest| && rest[k] == v;
    if k < i {
      assert rest[k] == s[k];
      i, j := k, i;
    } else {
      assert rest[k] == s[k + 1];
      j := k + 1;
    }
  }

  /** A value occurring as often as the sequence is long is its only value. */
  lemma AllEqual(s: seq<int>, v: int)
    requires multiset(s)[v] == |s|
    ensures forall i :: 0 <= i < |s| ==> s[i] == v
  {
    forall k | 0 <= k < |s|
      ensures s[k] == v
    {
      if s[k] != v {
        MultisetRemove(s, k);
        CountAtMostLength(s[..k] + s[k + 1..], v);
      }
    }
  }

  // ---------------------------------------------------------------------
  // Reading `max`, `min`, `findIndex` and `lastIndexOf` off a count sequence

  lemma MaxOfCounts(q: seq<int>, m: int, v: int)
    requires 0 <= v < |q| && q[v] == m
    requires forall i :: 0 <= i < |q| ==> q[i] <= m
    ensures MinMax.SeqMax(q) == m
  {
    MinMax.SeqMaxUnique(q, m);
  }

  lemma MinOfPositive(q: seq<int>, m: int, v: int)
    requires 0 <= v < |q| && q[v] == m && 0 < m
    requires forall i :: 0 <= i < |q| && q[i] > 0 ==> m <= q[i]
    ensures 0 < |Positive(q)| && MinMax.SeqMin(Positive(q)) == m
  {
    assert m in Positive(q);
    MinMax.SeqMinUnique(Positive(q), m);
  }

  lemma FindIndexIs(s: seq<int>, v: int, i: int)
    requires 0 <= i < |s| && s[i] == v
    requires forall j :: 0 <= j < i ==> s[j] != v
    ensures FindIndex(s, v) == i
  {
  }

  lemma LastIndexOfIs(s: seq<int>, v: int, i: int)
    requires 0 <= i < |s| && s[i] == v
    requires forall j :: i < j < |s| ==> s[j] != v
    ensures LastIndexOf(s, v) == i
  {
  }

  // ---------------------------------------------------------------------
  // Straights

  /** Five consecutive rank indices starting at `r`. */
  function RunFrom(r: int): (run: seq<int>)
    ensures |run| == 5 && run[0] == r
  {
    [r, r + 1, r + 2, r + 3, r + 4]
  }

  /** Ace, 10, Jack, Queen, King: the only run with the Ace-to-10 jump. */
  const Broadway: seq<int> := [Ace, Ten, 10, 11, King]

  lemma RunCount(r: int, v: int)
    ensures multiset(RunFrom(r))[v] == if r <= v <= r + 4 then 1 else 0
  {
    assert multiset(RunFrom(r)) == multiset{r, r + 1, r + 2, r + 3, r + 4};
  }

  lemma BroadwayCount(v: int)
    ensures multiset(Broadway)[v] == if v == Ace || Ten <= v <= King then 1 else 0
  {
    assert multiset(Broadway) == multiset{Ace, Ten, 10, 11, King};
  }

  lemma RunSorted(r: int)
    ensures Sorted(RunFrom(r))
  {
  }

  /** A walk the `IsStraight` loop accepts is five consecutive indices or Broadway. */
  lemma RunShape(s: seq<int>)
    requires forall i :: 0 <= i < |s| ==> 0 <= s[i]
    ensures IsRun(s) <==> |s| == 5 && (s == RunFrom(s[0]) || s == Broadway)
  {
    if IsRun(s) {
      assert Follows(s[0], s[1]) && Follows(s[1], s[2]) && Follows(s[2], s[3]) && Follows(s[3], s[4]);
    }
  }

  /** No rank repeats in an accepted walk. */
  lemma RunDistinct(s: seq<int>)
    requires IsRun(s) && forall i :: 0 <= i < |s| ==> 0 <= s[i]
    ensures forall v :: multiset(s)[v] <= 1
  {
    RunShape(s);
    forall v
      ensures multiset(s)[v] <= 1
    {
      RunCount(s[0], v);
      BroadwayCount(v);
    }
  }

  /** Sorted ranks are an accepted walk exactly when they are a run or Broadway. */
  lemma SortedRunIff(s: seq<int>)
    requires |s| == 5 && Sorted(s) && forall i :: 0 <= i < 5 ==> 0 <= s[i] < 13
    ensures IsRun(s) <==>
      (exists r :: 0 <= r <= 8 && multiset(s) == multiset(RunFrom(r)))
      || multiset(s) == multiset(Broadway)
  {
    if IsRun(s) {
      SortedRunIsRun(s);
    } else if r :| 0 <= r <= 8 && multiset(s) == multiset(RunFrom(r)) {
      RunRanksAreRun(s, r);
    } else if multiset(s) == multiset(Broadway) {
      BroadwayRanksAreRun(s);
    }
  }

  lemma SortedRunIsRun(s: seq<int>)
    requires |s| == 5 && IsRun(s) && forall i :: 0 <= i < 5 ==> 0 <= s[i] < 13
    ensures (0 <= s[0] <= 8 && multiset(s) == multiset(RunFrom(s[0]))) || s == Broadway
  {
    RunShape(s);
    assert s[4] < 13;
  }

  lemma RunRanksAreRun(s: seq<int>, r: int)
    requires |s| == 5 && Sorted(s) && 0 <= r <= 8 && multiset(s) == multiset(RunFrom(r))
    ensures IsRun(s)
  {
    RunSorted(r);
    SortedUnique(s, RunFrom(r));
    RunShape(RunFrom(r));
  }

  lemma BroadwayRanksAreRun(s: seq<int>)
    requires |s| == 5 && Sorted(s) && multiset(s) == multiset(Broadway)
    ensures IsRun(s)
  {
    SortedUnique(s, Broadway);
    RunShape(Broadway);
  }

  lemma StraightIff(cards: seq<Card>)
    requires |cards| == 5
    ensures IsStraightHand(cards) <==>
      (exists r :: 0 <= r <= 8 && multiset(Ranks(cards)) == multiset(RunFrom(r)))
      || multiset(Ranks(cards)) == multiset(Broadway)
  {
    SortedRanksMultiset(cards);
    SortedRunIff(SortedRanks(cards));
  }

  /** A hand with a repeated rank is no straight. */
  lemma RepeatNotStraight(cards: seq<Card>, v: int)
    requires |cards| == 5 && multiset(Ranks(cards))[v] >= 2
    ensures !IsStraightHand(cards)
  {
    SortedRanksMultiset(cards);
    if IsStraightHand(cards) {
      RunDistinct(SortedRanks(cards));
    }
  }

  // ---------------------------------------------------------------------
  // highestRank

  /** `highestRank` is an Ace when the hand holds one, else the largest rank. */
  lemma HighestRankAceHigh(cards: seq<Card>)
    requires |cards| == 5
    ensures Ace in Ranks(cards) ==> HighestRank(cards) == Ace
    ensures Ace !in Ranks(cards) ==>
      HighestRank(cards) in Ranks(cards) &&
      forall i :: 0 <= i < 5 ==> cards[i].rank <= HighestRank(cards)
  {
    var ranks := Ranks(cards);
    var s := SortedRanks(cards);
    var r := AceHighOrder(s);
    SortedRanksMultiset(cards);
    assert forall x :: x in ranks <==> x in multiset(s);
    if Ace in ranks {
      assert Ace in r;
      var k :| 0 <= k < 5 && r[k] == Ace;
      assert k < 4 ==> r[4] == Ace;
    } else {
      forall i | 0 <= i < 5
        ensures cards[i].rank <= s[4]
      {
        assert ranks[i] == cards[i].rank;
        assert ranks[i] in ranks;
        assert ranks[i] in multiset(s);
        var k :| 0 <= k < 5 && s[k] == ranks[i];
      }
    }
  }

  /** The `highestRank` of a run from `r`: the Ace when the run starts there, else its top. */
  lemma RunHighest(cards: seq<Card>, r: int)
    requires |cards| == 5 && 0 <= r <= 8
    requires multiset(Ranks(cards)) == multiset(RunFrom(r))
    ensures HighestRank(cards) == if r == Ace then Ace else r + 4
  {
    HighestRankAceHigh(cards);
    var ranks := Ranks(cards);
    forall x
      ensures x in ranks <==> r <= x <= r + 4
    {
      RunCount(r, x);
      assert x in ranks <==> x in multiset(ranks);
    }
    if r != Ace {
      var k :| 0 <= k < 5 && ranks[k] == r + 4;
      assert cards[k].rank == r + 4;
    }
  }

  // ---------------------------------------------------------------------
  // One lemma per hand shape

  /** All five ranks agree: `max(qOfRank)` is 5 and no rank is counted 4 times. */
  lemma FiveCounts(cards: seq<Card>)
    requires |cards| == 5 && forall i :: 0 <= i < 5 ==> cards[i].rank == cards[0].rank
    ensures MinMax.SeqMax(RankCounts(cards)) == 5 && 4 !in RankCounts(cards)
  {
    var v := cards[0].rank;
    assert Ranks(cards) == [v, v, v, v, v];
    var q := RankCounts(cards);
    assert forall i :: 0 <= i < 14 ==> q[i] == if i == v then 5 else 0;
    MaxOfCounts(q, 5, v);
  }

  /** A count of 5 means all five ranks agree. */
  lemma FiveMeansAllEqual(cards: seq<Card>)
    requires |cards| == 5 && MinMax.SeqMax(RankCounts(cards)) == 5
    ensures forall i :: 0 <= i < 5 ==> cards[i].rank == cards[0].rank
  {
    var q := RankCounts(cards);
    var r :| 0 <= r < 14 && q[r] == 5;
    AllEqual(Ranks(cards), r);
    assert forall i :: 0 <= i < 5 ==> Ranks(cards)[i] == cards[i].rank;
  }

  /**
   * Five of a kind is recognised exactly when all five ranks agree, and it
   * always scores 260: the rank lookup searches for a count of 4, finds
   * none, and lands on 1 whatever the rank.
   */
  lemma FiveOfAKindScore(cards: seq<Card>)
    requires |cards| == 5
    ensures Classify(cards).Valid? && Classify(cards).handType == FiveOfAKind
      <==> forall i :: 0 <= i < 5 ==> cards[i].rank == cards[0].rank
    ensures (forall i :: 0 <= i < 5 ==> cards[i].rank == cards[0].rank) ==>
      Classify(cards) == Valid(FiveOfAKind, 260, 10)
  {
    var q := RankCounts(cards);
    var most := MinMax.SeqMax(q);
    ClassifyIs(cards, IsFlush(cards), IsStraightHand(cards), HighestRank(cards), most, LeastPositive(q, most));
    DecideFive(IsFlush(cards), IsStraightHand(cards), HighestRank(cards), q, most, LeastPositive(q, most));
    if most == 5 {
      FiveMeansAllEqual(cards);
    }
    if forall i :: 0 <= i < 5 ==> cards[i].rank == cards[0].rank {
      FiveCounts(cards);
    }
  }

  lemma DecideFive(flush: bool, straight: bool, high: int, q: seq<int>, most: int, least: int)
    requires 0 <= high && |q| == 14 && most in q && most <= 5 && forall x :: x in q ==> x <= most
    ensures (Decide(flush, straight, high, q, most, least).Valid? &&
             Decide(flush, straight, high, q, most, least).handType == FiveOfAKind) <==> most == 5
    ensures most == 5 && 4 !in q ==> Decide(flush, straight, high, q, most, least) == Valid(FiveOfAKind, 260, 10)
  {
  }

  /** A run from `r` passes `IsStraight`. */
  lemma RunIsStraight(cards: seq<Card>, r: int)
    requires |cards| == 5 && 0 <= r <= 8
    requires multiset(Ranks(cards)) == multiset(RunFrom(r))
    ensures IsStraightHand(cards)
  {
    StraightIff(cards);
  }

  /** In a run no rank is counted more than once. */
  lemma RunMost(cards: seq<Card>, r: int)
    requires |cards| == 5 && 0 <= r <= 8
    requires multiset(Ranks(cards)) == multiset(RunFrom(r))
    ensures MinMax.SeqMax(RankCounts(cards)) == 1
  {
    var q := RankCounts(cards);
    forall i | 0 <= i < 14
      ensures q[i] == if r <= i <= r + 4 then 1 else 0
    {
      RunCount(r, i);
    }
    MaxOfCounts(q, 1, r);
  }

  lemma DecideRun(flush: bool, high: int, q: seq<int>)
    requires 0 <= high < 13 && |q| == 14 && 1 in q && (forall x :: x in q ==> x <= 1)
    ensures Decide(flush, true, high, q, 1, 0) ==
      if flush then
        if high == Ace then Valid(RoyalFlush, 250, 8)
        else Valid(StraightFlush, 190 + 4 * AdjustRankForAceAndIndex(high), 6)
      else Valid(Straight, 53 + AdjustRankForAceAndIndex(high), 2)
  {
  }

  /** A run from `r`: royal flush if suited and Ace-low, straight flush if suited, else straight. */
  lemma RunScore(cards: seq<Card>, r: int)
    requires |cards| == 5 && 0 <= r <= 8
    requires multiset(Ranks(cards)) == multiset(RunFrom(r))
    ensures Classify(cards) ==
      if IsFlush(cards) then
        if r == Ace then Valid(RoyalFlush, 250, 8) else Valid(StraightFlush, 190 + 4 * (r + 5), 6)
      else
        Valid(Straight, 53 + (if r == Ace then 15 else r + 5), 2)
  {
    RunIsStraight(cards, r);
    RunMost(cards, r);
    RunHighest(cards, r);
    var high := if r == Ace then Ace else r + 4;
    ClassifyIs(cards, IsFlush(cards), true, high, 1, 0);
    DecideRun(IsFlush(cards), high, RankCounts(cards));
  }

  /** In Ace, 10, J, Q, K no rank is counted more than once. */
  lemma BroadwayMost(cards: seq<Card>)
    requires |cards| == 5
    requires multiset(Ranks(cards)) == multiset(Broadway)
    ensures MinMax.SeqMax(RankCounts(cards)) == 1
  {
    var q := RankCounts(cards);
    forall i | 0 <= i < 14
      ensures q[i] == if i == Ace || Ten <= i <= King then 1 else 0
    {
      BroadwayCount(i);
    }
    MaxOfCounts(q, 1, Ace);
  }

  /** Ace, 10, J, Q, K: royal flush if suited, else a straight scoring 53 + 15. */
  lemma BroadwayScore(cards: seq<Card>)
    requires |cards| == 5
    requires multiset(Ranks(cards)) == multiset(Broadway)
    ensures Classify(cards) ==
      if IsFlush(cards) then Valid(RoyalFlush, 250, 8) else Valid(Straight, 68, 2)
  {
    StraightIff(cards);
    BroadwayMost(cards);
    HighestRankAceHigh(cards);
    assert Ace in multiset(Ranks(cards));
    ClassifyIs(cards, IsFlush(cards), true, Ace, 1, 0);
    DecideRun(IsFlush(cards), Ace, RankCounts(cards));
  }

  lemma DecideFour(flush: bool, high: int, q: seq<int>, r: Rank)
    requires 0 <= high && |q| == 14 && 4 in q && (forall x :: x in q ==> x <= 4)
    requires FindIndex(q, 4) == r
    ensures Decide(flush, false, high, q, 4, 0) ==
      Valid(FourOfAKind, 100 + 4 * (if r == Ace then 15 else r + 2), 5)
  {
  }

  /** Four of a kind scores 100 + 4 * (15 for Aces, else index + 2), suited or not. */
  lemma FourOfAKindScore(cards: seq<Card>, r: Rank, k: Rank)
    requires |cards| == 5 && r != k
    requires multiset(Ranks(cards)) == multiset{r, r, r, r, k}
    ensures Classify(cards) ==
      Valid(FourOfAKind, 100 + 4 * (if r == Ace then 15 else r + 2), 5)
  {
    FourOfAKindCounts(cards, r, k);
    ClassifyIs(cards, IsFlush(cards), false, HighestRank(cards), 4, 0);
    DecideFour(IsFlush(cards), HighestRank(cards), RankCounts(cards), r);
  }

  /** What `GetHand` computes from the counts of four of a kind. */
  lemma FourOfAKindCounts(cards: seq<Card>, r: Rank, k: Rank)
    requires |cards| == 5 && r != k
    requires multiset(Ranks(cards)) == multiset{r, r, r, r, k}
    ensures !IsStraightHand(cards)
    ensures MinMax.SeqMax(RankCounts(cards)) == 4
    ensures FindIndex(RankCounts(cards), 4) == r
  {
    var q := RankCounts(cards);
    assert forall i :: 0 <= i < 14 ==> q[i] == if i == r then 4 else if i == k then 1 else 0;
    MaxOfCounts(q, 4, r);
    FindIndexIs(q, 4, r);
    RepeatNotStraight(cards, r);
  }

  lemma DecideFullHouse(flush: bool, high: int, q: seq<int>, t: Rank)
    requires 0 <= high && |q| == 14 && 3 in q && (forall x :: x in q ==> x <= 3)
    requires FindIndex(q, 3) == t
    ensures Decide(flush, false, high, q, 3, 2) ==
      Valid(FullHouse, 60 + 3 * AdjustRankForAceAndIndex(t), 4)
  {
  }

  /** A full house scores 60 + 3 * the adjusted rank of its three, suited or not. */
  lemma FullHouseScore(cards: seq<Card>, t: Rank, p: Rank)
    requires |cards| == 5 && t != p
    requires multiset(Ranks(cards)) == multiset{t, t, t, p, p}
    ensures Classify(cards) ==
      Valid(FullHouse, 60 + 3 * AdjustRankForAceAndIndex(t), 4)
  {
    FullHouseCounts(cards, t, p);
    ClassifyIs(cards, IsFlush(cards), false, HighestRank(cards), 3, 2);
    DecideFullHouse(IsFlush(cards), HighestRank(cards), RankCounts(cards), t);
  }

  /** What `GetHand` computes from the counts of a full house. */
  lemma FullHouseCounts(cards: seq<Card>, t: Rank, p: Rank)
    requires |cards| == 5 && t != p
    requires multiset(Ranks(cards)) == multiset{t, t, t, p, p}
    ensures !IsStraightHand(cards)
    ensures MinMax.SeqMax(RankCounts(cards)) == 3
    ensures MinMax.SeqMin(Positive(RankCounts(cards))) == 2
    ensures FindIndex(RankCounts(cards), 3) == t
  {
    var q := RankCounts(cards);
    assert forall i :: 0 <= i < 14 ==> q[i] == if i == t then 3 else if i == p then 2 else 0;
    MaxOfCounts(q, 3, t);
    MinOfPositive(q, 2, p);
    FindIndexIs(q, 3, t);
    RepeatNotStraight(cards, t);
  }

  lemma DecideThree(flush: bool, high: int, q: seq<int>, t: Rank)
    requires 0 <= high && |q| == 14 && 3 in q && (forall x :: x in q ==> x <= 3)
    requires FindIndex(q, 3) == t
    ensures Decide(flush, false, high, q, 3, 1) ==
      if flush then Valid(Flush, 70, 3)
      else Valid(ThreeOfAKind, 26 + 2 * AdjustRankForAceAndIndex(t), 1)
  {
  }

  /** Three of a kind: a flush if suited, else 26 + 2 * the adjusted rank of the three. */
  lemma ThreeOfAKindScore(cards: seq<Card>, t: Rank, a: Rank, b: Rank)
    requires |cards| == 5 && t != a && t != b && a != b
    requires multiset(Ranks(cards)) == multiset{t, t, t, a, b}
    ensures Classify(cards) ==
      if IsFlush(cards) then Valid(Flush, 70, 3)
      else Valid(ThreeOfAKind, 26 + 2 * AdjustRankForAceAndIndex(t), 1)
  {
    ThreeOfAKindCounts(cards, t, a, b);
    ClassifyIs(cards, IsFlush(cards), false, HighestRank(cards), 3, 1);
    DecideThree(IsFlush(cards), HighestRank(cards), RankCounts(cards), t);
  }

  /** What `GetHand` computes from the counts of three of a kind. */
  lemma ThreeOfAKindCounts(cards: seq<Card>, t: Rank, a: Rank, b: Rank)
    requires |cards| == 5 && t != a && t != b && a != b
    requires multiset(Ranks(cards)) == multiset{t, t, t, a, b}
    ensures !IsStraightHand(cards)
    ensures MinMax.SeqMax(RankCounts(cards)) == 3
    ensures MinMax.SeqMin(Positive(RankCounts(cards))) == 1
    ensures FindIndex(RankCounts(cards), 3) == t
  {
    var q := RankCounts(cards);
    assert forall i :: 0 <= i < 14 ==> q[i] == if i == t then 3 else if i == a || i == b then 1 else 0;
    MaxOfCounts(q, 3, t);
    MinOfPositive(q, 1, a);
    FindIndexIs(q, 3, t);
    RepeatNotStraight(cards, t);
  }

  lemma DecidePairs(flush: bool, high: int, q: seq<int>)
    requires 0 <= high && |q| == 14 && 2 in q && (forall x :: x in q ==> x <= 2)
    ensures Decide(flush, false, high, q, 2, 0) ==
      if flush then Valid(Flush, 70, 3)
      else if multiset(q)[2] == 2 then Valid(TwoPair, 2 * AdjustRankForAceAndIndex(LastIndexOf(q, 2)), 0)
      else Valid(Pair, AdjustRankForAceAndIndex(LastIndexOf(q, 2)), 0)
  {
  }

  /**
   * Two pair: a flush if suited, else twice the adjusted rank of the pair
   * with the larger index. That index is never the Ace's 0, so a pair of
   * Aces never sets the score.
   */
  lemma TwoPairScore(cards: seq<Card>, p: Rank, hi: Rank, k: Rank)
    requires |cards| == 5 && p < hi && k != p && k != hi
    requires multiset(Ranks(cards)) == multiset{p, p, hi, hi, k}
    ensures Classify(cards) ==
      if IsFlush(cards) then Valid(Flush, 70, 3)
      else Valid(TwoPair, 2 * (hi + 1), 0)
  {
    TwoPairCounts(cards, p, hi, k);
    ClassifyIs(cards, IsFlush(cards), false, HighestRank(cards), 2, 0);
    DecidePairs(IsFlush(cards), HighestRank(cards), RankCounts(cards));
  }

  lemma TwoPairShape(q: seq<int>, p: int, hi: int, k: int)
    requires 0 <= p < hi < |q| && 0 <= k < |q| && k != p && k != hi
    requires forall i :: 0 <= i < |q| ==> q[i] == if i == p || i == hi then 2 else if i == k then 1 else 0
    ensures MinMax.SeqMax(q) == 2 && multiset(q)[2] == 2 && LastIndexOf(q, 2) == hi
  {
    MaxOfCounts(q, 2, p);
    CountIsIndices(q, 2, {p, hi});
    LastIndexOfIs(q, 2, hi);
  }

  lemma TwoPairQ(cards: seq<Card>, p: Rank, hi: Rank, k: Rank)
    requires |cards| == 5 && p < hi && k != p && k != hi
    requires multiset(Ranks(cards)) == multiset{p, p, hi, hi, k}
    ensures forall i :: 0 <= i < 14 ==>
      RankCounts(cards)[i] == if i == p || i == hi then 2 else if i == k then 1 else 0
  {
  }

  /** What `GetHand` computes from the counts of two pair. */
  lemma TwoPairCounts(cards: seq<Card>, p: Rank, hi: Rank, k: Rank)
    requires |cards| == 5 && p < hi && k != p && k != hi
    requires multiset(Ranks(cards)) == multiset{p, p, hi, hi, k}
    ensures !IsStraightHand(cards)
    ensures MinMax.SeqMax(RankCounts(cards)) == 2
    ensures multiset(RankCounts(cards))[2] == 2
    ensures LastIndexOf(RankCounts(cards), 2) == hi
  {
    TwoPairQ(cards, p, hi, k);
    TwoPairShape(RankCounts(cards), p, hi, k);
    RepeatNotStraight(cards, p);
  }

  /** One pair: a flush if suited, else the adjusted rank of the pair. */
  lemma PairScore(cards: seq<Card>, p: Rank, a: Rank, b: Rank, c: Rank)
    requires |cards| == 5 && p != a && p != b && p != c && a != b && a != c && b != c
    requires multiset(Ranks(cards)) == multiset{p, p, a, b, c}
    ensures Classify(cards) ==
      if IsFlush(cards) then Valid(Flush, 70, 3)
      else Valid(Pair, AdjustRankForAceAndIndex(p), 0)
  {
    PairCounts(cards, p, a, b, c);
    ClassifyIs(cards, IsFlush(cards), false, HighestRank(cards), 2, 0);
    DecidePairs(IsFlush(cards), HighestRank(cards), RankCounts(cards));
  }

  /** What `GetHand` computes from the counts of one pair. */
  lemma PairCounts(cards: seq<Card>, p: Rank, a: Rank, b: Rank, c: Rank)
    requires |cards| == 5 && p != a && p != b && p != c && a != b && a != c && b != c
    requires multiset(Ranks(cards)) == multiset{p, p, a, b, c}
    ensures !IsStraightHand(cards)
    ensures MinMax.SeqMax(RankCounts(cards)) == 2
    ensures multiset(RankCounts(cards))[2] == 1
    ensures LastIndexOf(RankCounts(cards), 2) == p
  {
    var q := RankCounts(cards);
    assert forall i :: 0 <= i < 14 ==> q[i] == if i == p then 2 else if i == a || i == b || i == c then 1 else 0;
    MaxOfCounts(q, 2, p);
    CountIsIndices(q, 2, {p});
    LastIndexOfIs(q, 2, p);
    RepeatNotStraight(cards, p);
  }

  /**
   * The ordinary flush: five suited cards of five different ranks that do
   * not form a straight score 70 with 3 new cards.
   */
  lemma FlushScore(cards: seq<Card>)
    requires |cards| == 5 && IsFlush(cards) && !IsStraightHand(cards)
    requires forall i, j :: 0 <= i < j < 5 ==> cards[i].rank != cards[j].rank
    ensures Classify(cards) == Valid(Flush, 70, 3)
  {
    var q := RankCounts(cards);
    var most := MinMax.SeqMax(q);
    PairIffMost(cards);
    var r := Ranks(cards)[0];
    assert r in multiset(Ranks(cards));
    assert q[r] >= 1 && q[r] in q;
    assert most == 1;
    ClassifyIs(cards, true, false, HighestRank(cards), 1, LeastPositive(q, 1));
  }

  /**
   * Five cards make a valid hand exactly when they are suited, form a
   * straight, or two of them share a rank; otherwise `{valid: false}`.
   */
  lemma ValidIff(cards: seq<Card>)
    requires |cards| == 5
    ensures Classify(cards).Valid? <==>
      IsFlush(cards) || IsStraightHand(cards) ||
      exists i, j :: 0 <= i < j < 5 && cards[i].rank == cards[j].rank
  {
    var q := RankCounts(cards);
    var most := MinMax.SeqMax(q);
    ClassifyIs(cards, IsFlush(cards), IsStraightHand(cards), HighestRank(cards), most, LeastPositive(q, most));
    PairIffMost(cards);
  }

  /** Two cards share a rank exactly when some rank is counted at least twice. */
  lemma PairIffMost(cards: seq<Card>)
    requires |cards| == 5
    ensures (exists i, j :: 0 <= i < j < 5 && cards[i].rank == cards[j].rank) <==>
      2 <= MinMax.SeqMax(RankCounts(cards))
  {
    var ranks := Ranks(cards);
    var q := RankCounts(cards);
    var most := MinMax.SeqMax(q);
    if i, j :| 0 <= i < j < 5 && cards[i].rank == cards[j].rank {
      assert ranks[i] == ranks[j];
      CountAtLeastTwo(ranks, i, j);
      assert q[ranks[i]] in q;
    }
    if 2 <= most {
      var v :| 0 <= v < 14 && q[v] == most;
      var i, j := TwoIndices(ranks, v);
      assert cards[i].rank == cards[j].rank;
    }
  }
}
