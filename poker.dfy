/**
 * The hand classifier of game/game.ts: `GetHand` and its helpers `IsFlush`,
 * `IsStraight` and `AdjustRankForAceAndIndex`, modelled as written (not as
 * the design intends: see the lemmas on five of a kind and on A-2-3-4-5).
 */
module Poker {
  import MinMax

  /** Suit enum: Heart = 0, Diamond, Spade, Club. */
  type Suit = s: int | 0 <= s < 4
  const Heart: Suit := 0
  const Diamond: Suit := 1
  const Spade: Suit := 2
  const Club: Suit := 3

  /** Rank enum: A = 0, _2 = 1, ..., _10 = 9, J = 10, Q = 11, K = 12. */
  type Rank = r: int | 0 <= r < 13
  const Ace: Rank := 0
  const Ten: Rank := 9
  const King: Rank := 12

  /** A card; `newCard` marks a card added by the latest refill. */
  datatype Card = Card(suit: Suit, rank: Rank, newCard: bool)

  datatype HandType =
    | FiveOfAKind | RoyalFlush | StraightFlush | FourOfAKind | FullHouse
    | Flush | Straight | ThreeOfAKind | TwoPair | Pair

  /** `{valid: false}`, or a valid hand with its type, score and number of new cards. */
  datatype Hand = Invalid | Valid(handType: HandType, score: int, newCards: nat)

  /** The number of new cards each hand type awards. */
  function Reward(t: HandType): nat
  {
    match t
    case FiveOfAKind => 10
    case RoyalFlush => 8
    case StraightFlush => 6
    case FourOfAKind => 5
    case FullHouse => 4
    case Flush => 3
    case Straight => 2
    case ThreeOfAKind => 1
    case TwoPair => 0
    case Pair => 0
  }

  /** Score value of a rank: Ace counts 15, every other rank its index plus one. */
  function AdjustRankForAceAndIndex(rank: int): (adjusted: int)
    ensures 0 <= rank < 13 ==> 2 <= adjusted <= 15
    ensures 0 <= rank < 13 ==> (adjusted == 15 <==> rank == Ace)
    ensures 0 < rank ==> adjusted == rank + 1
  {
    if rank == Ace then 15 else rank + 1
  }

  /** Every suit equals the first card's suit. */
  predicate IsFlush(cards: seq<Card>)
    requires |cards| == 5
    ensures IsFlush(cards) <==> forall i, j :: 0 <= i < j < 5 ==> cards[i].suit == cards[j].suit
  {
    cards[0].suit == cards[1].suit &&
    cards[0].suit == cards[2].suit &&
    cards[0].suit == cards[3].suit &&
    cards[0].suit == cards[4].suit
  }

  // ---------------------------------------------------------------------
  // Sorting by rank (`cards.sort((a, b) => a.rank - b.rank)`, a stable sort)

  ghost predicate SortedByRank(s: seq<Card>)
  {
    forall i, j :: 0 <= i < j < |s| ==> s[i].rank <= s[j].rank
  }

  ghost predicate Sorted(s: seq<int>)
  {
    forall i, j :: 0 <= i < j < |s| ==> s[i] <= s[j]
  }

  /** Inserts `c` before the first card of rank at least its own. */
  function InsertByRank(c: Card, sorted: seq<Card>): (r: seq<Card>)
    ensures |r| == |sorted| + 1
    ensures multiset(r) == multiset(sorted) + multiset{c}
    ensures r[0] == c || (sorted != [] && r[0] == sorted[0])
  {
    if sorted == [] || c.rank <= sorted[0].rank then
      [c] + sorted
    else
      assert sorted == [sorted[0]] + sorted[1..];
      [sorted[0]] + InsertByRank(c, sorted[1..])
  }

  lemma {:induction false} InsertByRankSorted(c: Card, sorted: seq<Card>)
    requires SortedByRank(sorted)
    ensures SortedByRank(InsertByRank(c, sorted))
    decreases |sorted|
  {
    if sorted != [] && c.rank > sorted[0].rank {
      var head := sorted[0];
      var tail := InsertByRank(c, sorted[1..]);
      InsertByRankSorted(c, sorted[1..]);
      assert head.rank <= tail[0].rank by {
        if tail[0] != c {
          assert tail[0] == sorted[1];
        }
      }
      var r := [head] + tail;
      assert r == InsertByRank(c, sorted);
      forall i, j | 0 <= i < j < |r|
        ensures r[i].rank <= r[j].rank
      {
        assert r[j] == tail[j - 1];
        if i > 0 {
          assert r[i] == tail[i - 1];
        } else if j > 1 {
          assert tail[0].rank <= tail[j - 1].rank;
        }
      }
    }
  }

  /** Stable insertion sort by rank. */
  function SortByRank(cards: seq<Card>): (r: seq<Card>)
    ensures |r| == |cards|
    ensures multiset(r) == multiset(cards)
    ensures SortedByRank(r)
  {
    if cards == [] then []
    else
      assert cards == [cards[0]] + cards[1..];
      var rest := SortByRank(cards[1..]);
      InsertByRankSorted(cards[0], rest);
      InsertByRank(cards[0], rest)
  }

  /** `cards.map((i) => i.rank)`. */
  function Ranks(cards: seq<Card>): (ranks: seq<int>)
    ensures |ranks| == |cards|
    ensures forall i :: 0 <= i < |ranks| ==> 0 <= ranks[i] < 13
  {
    seq(|cards|, i requires 0 <= i < |cards| => cards[i].rank)
  }

  /** The ranks of the cards once `IsStraight` has sorted them. */
  function SortedRanks(cards: seq<Card>): (ranks: seq<int>)
    ensures |ranks| == |cards|
    ensures Sorted(ranks)
    ensures forall i :: 0 <= i < |ranks| ==> 0 <= ranks[i] < 13
  {
    Ranks(SortByRank(cards))
  }

  lemma SortedRanksMultiset(cards: seq<Card>)
    ensures multiset(SortedRanks(cards)) == multiset(Ranks(cards))
  {
    RanksPermutation(SortByRank(cards), cards);
  }

  // ---------------------------------------------------------------------
  // IsStraight

  /** The step test of the `IsStraight` loop: the next rank is one higher, or Ace is followed by 10. */
  predicate Follows(last: int, next: int)
  {
    last + 1 == next || (last == Ace && next == Ten)
  }

  /** What the `IsStraight` walk accepts, given the sorted ranks of five cards. */
  predicate IsRun(ranks: seq<int>)
  {
    |ranks| == 5 && forall i :: 1 <= i < 5 ==> Follows(ranks[i - 1], ranks[i])
  }

  predicate IsStraightHand(cards: seq<Card>)
  {
    IsRun(SortedRanks(cards))
  }

  /**
   * `IsStraight(cards)`: sorts the caller's array by rank in place, then
   * walks it with `lastRank`, failing at the first step that is neither +1
   * nor the Ace-to-10 jump.
   */
  method IsStraight(cards: array<Card>) returns (straight: bool)
    requires cards.Length == 5
    modifies cards
    ensures cards[..] == SortByRank(old(cards[..]))
    ensures straight == IsRun(Ranks(cards[..]))
  {
    var ranked := SortByRank(cards[..]);
    forall i | 0 <= i < 5 {
      cards[i] := ranked[i];
    }
    assert cards[..] == ranked;
    var lastRank: int := cards[0].rank;
    for i := 1 to 5
      invariant lastRank == cards[i - 1].rank
      invariant forall j :: 1 <= j < i ==> Follows(cards[j - 1].rank, cards[j].rank)
    {
      if !((lastRank + 1 == cards[i].rank) || (lastRank == Ace && cards[i].rank == Ten)) {
        assert !Follows(Ranks(cards[..])[i - 1], Ranks(cards[..])[i]);
        return false;
      }
      lastRank := cards[i].rank;
    }
    return true;
  }

  // ---------------------------------------------------------------------
  // highestRank

  /**
   * The comparator of the second sort in `GetHand`, typo included: `b1` is
   * computed from `a` unless `b` is an Ace. It still orders ranks
   * consistently: an Ace above every other rank, all other ranks tied.
   */
  function CompareAceHigh(a: int, b: int): (d: int)
    requires 0 <= a < 13 && 0 <= b < 13
    ensures a == Ace && b != Ace ==> d > 0
    ensures a != Ace && b == Ace ==> d < 0
    ensures (a == Ace) == (b == Ace) ==> d == 0
  {
    var a1 := if a == 0 then 14 else a;
    var b1 := if b == 0 then 14 else a;
    a1 - b1
  }

  /**
   * A stable sort of `ranks` by CompareAceHigh: the ranks that are not Aces
   * keep their order and the Aces move to the end.
   */
  function AceHighOrder(ranks: seq<int>): (r: seq<int>)
    ensures |r| == |ranks|
    ensures forall x :: x in r <==> x in ranks
    ensures forall i :: 0 <= i < |r| ==> r[i] in ranks
    ensures forall i, j :: 0 <= i < j < |r| && r[i] == Ace ==> r[j] == Ace
    ensures Ace !in ranks ==> r == ranks
  {
    if ranks == [] then []
    else
      assert ranks == [ranks[0]] + ranks[1..];
      var rest := AceHighOrder(ranks[1..]);
      if ranks[0] == Ace then rest + [Ace] else [ranks[0]] + rest
  }

  /** The sort is a permutation: every rank keeps its number of occurrences. */
  lemma {:induction false} AceHighOrderPermutation(ranks: seq<int>)
    ensures multiset(AceHighOrder(ranks)) == multiset(ranks)
  {
    if ranks != [] {
      AceHighOrderPermutation(ranks[1..]);
      assert ranks == [ranks[0]] + ranks[1..];
    }
  }

  /** The sort is stable: the ranks other than Aces keep their order. */
  lemma {:induction false} AceHighOrderStable(ranks: seq<int>)
    ensures WithoutAces(AceHighOrder(ranks)) == WithoutAces(ranks)
  {
    if ranks != [] {
      var rest := AceHighOrder(ranks[1..]);
      AceHighOrderStable(ranks[1..]);
      if ranks[0] == Ace {
        WithoutAcesAppend(rest, [Ace]);
        assert WithoutAces([Ace]) == [];
      } else {
        assert ([ranks[0]] + rest)[1..] == rest;
      }
    }
  }

  /** The ranks other than Aces, in their order. */
  function WithoutAces(ranks: seq<int>): (r: seq<int>)
    ensures Ace !in r
  {
    if ranks == [] then []
    else if ranks[0] == Ace then WithoutAces(ranks[1..]) else [ranks[0]] + WithoutAces(ranks[1..])
  }

  lemma {:induction false} WithoutAcesAppend(a: seq<int>, b: seq<int>)
    ensures WithoutAces(a + b) == WithoutAces(a) + WithoutAces(b)
  {
    if a != [] {
      assert (a + b)[0] == a[0] && (a + b)[1..] == a[1..] + b;
      WithoutAcesAppend(a[1..], b);
    } else {
      assert a + b == b;
    }
  }

  /** AceHighOrder is ascending under the comparator of `GetHand`. */
  lemma AceHighOrderSorted(ranks: seq<int>)
    requires forall x :: x in ranks ==> 0 <= x < 13
    ensures forall i, j :: 0 <= i < j < |ranks| ==>
      CompareAceHigh(AceHighOrder(ranks)[i], AceHighOrder(ranks)[j]) <= 0
  {
  }

  /**
   * `highestRank`: element 4 of the rank-sorted cards re-sorted by
   * CompareAceHigh.
   */
  function HighestRank(cards: seq<Card>): (high: int)
    requires |cards| == 5
    ensures 0 <= high < 13
    ensures high in Ranks(cards)
  {
    var ranks := AceHighOrder(SortedRanks(cards));
    assert ranks[4] in SortedRanks(cards);
    SortedRanksMultiset(cards);
    assert ranks[4] in multiset(Ranks(cards));
    ranks[4]
  }

  // ---------------------------------------------------------------------
  // qOfRank and the array helpers GetHand uses

  /** `qOfRank`: for each index 0..13, how many cards have that rank. */
  function RankCounts(cards: seq<Card>): (q: seq<int>)
    ensures |q| == 14
    ensures forall r :: 0 <= r < 14 ==> q[r] == multiset(Ranks(cards))[r]
    ensures forall x :: x in q ==> 0 <= x <= |cards|
  {
    var ranks := Ranks(cards);
    forall r | 0 <= r < 14
      ensures multiset(ranks)[r] <= |cards|
    {
      CountAtMostLength(ranks, r);
    }
    seq(14, r => multiset(ranks)[r])
  }

  /** No value occurs in a sequence more often than the sequence is long. */
  lemma {:induction false} CountAtMostLength(s: seq<int>, v: int)
    ensures multiset(s)[v] <= |s|
  {
    if s != [] {
      MultisetTail(s);
      CountAtMostLength(s[1..], v);
    }
  }

  /** `filter((i) => i > 0)`. */
  function Positive(s: seq<int>): (p: seq<int>)
    ensures forall x :: x in p <==> x in s && x > 0
  {
    if s == [] then []
    else
      assert s == [s[0]] + s[1..];
      (if s[0] > 0 then [s[0]] else []) + Positive(s[1..])
  }

  /** `findIndex((i) => i == v)`: the first index holding `v`, or -1. */
  function FindIndex(s: seq<int>, v: int): (i: int)
    ensures -1 <= i < |s|
    ensures i == -1 <==> v !in s
    ensures 0 <= i ==> s[i] == v && forall j :: 0 <= j < i ==> s[j] != v
  {
    if s == [] then -1
    else if s[0] == v then 0
    else
      assert s == [s[0]] + s[1..];
      var k := FindIndex(s[1..], v);
      if k == -1 then -1 else k + 1
  }

  /** `lastIndexOf(v)`: the last index holding `v`, or -1. */
  function LastIndexOf(s: seq<int>, v: int): (i: int)
    ensures -1 <= i < |s|
    ensures i == -1 <==> v !in s
    ensures 0 <= i ==> s[i] == v && forall j :: i < j < |s| ==> s[j] != v
  {
    if s == [] then -1
    else if s[|s| - 1] == v then |s| - 1
    else
      assert s == s[..|s| - 1] + [s[|s| - 1]];
      LastIndexOf(s[..|s| - 1], v)
  }

  // ---------------------------------------------------------------------
  // GetHand

  /**
   * The if-chain of `GetHand`, first match wins, over what it computed
   * before: isFlush, isStraight, highestRank, qOfRank, `max(qOfRank)` and,
   * where `max(qOfRank) == 3`, `min` of the positive counts.
   */
  function Decide(isFlush: bool, isStraight: bool, highestRank: int,
                  qOfRank: seq<int>, most: int, leastPositive: int): (hand: Hand)
    requires 0 <= highestRank && |qOfRank| == 14
    requires most in qOfRank && most <= 5 && forall x :: x in qOfRank ==> x <= most
    ensures hand.Valid? <==> 2 <= most <= 5 || isFlush || isStraight
    ensures hand.Valid? ==> hand.newCards == Reward(hand.handType)
    ensures hand.Valid? ==> hand.score > 0
  {
    if most == 5 then
      var rank := FindIndex(qOfRank, 4) + 1;
      var rank' := if rank == 1 then 15 else rank + 1;
      Valid(FiveOfAKind, 250 + rank' * 10, 10)
    else if isFlush && isStraight && highestRank == Ace then
      Valid(RoyalFlush, 250, 8)
    else if isFlush && isStraight then
      Valid(StraightFlush, 190 + AdjustRankForAceAndIndex(highestRank) * 4, 6)
    else if most == 4 then
      var rank := FindIndex(qOfRank, 4) + 1;
      var rank' := if rank == 1 then 15 else rank + 1;
      Valid(FourOfAKind, 100 + rank' * 4, 5)
    else if most == 3 && leastPositive == 2 then
      Valid(FullHouse, 60 + AdjustRankForAceAndIndex(FindIndex(qOfRank, 3)) * 3, 4)
    else if isFlush then
      Valid(Flush, 70, 3)
    else if isStraight then
      Valid(Straight, 53 + AdjustRankForAceAndIndex(highestRank), 2)
    else if most == 3 then
      Valid(ThreeOfAKind, 26 + AdjustRankForAceAndIndex(FindIndex(qOfRank, 3)) * 2, 1)
    else if multiset(qOfRank)[2] == 2 then
      Valid(TwoPair, 2 * AdjustRankForAceAndIndex(LastIndexOf(qOfRank, 2)), 0)
    else if most == 2 then
      Valid(Pair, AdjustRankForAceAndIndex(LastIndexOf(qOfRank, 2)), 0)
    else
      Invalid
  }

  /** `min(qOfRank.filter((i) => i > 0))`, evaluated only when the largest count is 3. */
  function LeastPositive(qOfRank: seq<int>, most: int): int
    requires most == 3 ==> most in qOfRank
  {
    if most == 3 then MinMax.SeqMin(Positive(qOfRank)) else 0
  }

  /** `Game.GetHand` as a function of the cards it is given. */
  function Classify(cards: seq<Card>): (hand: Hand)
    ensures |cards| != 5 ==> hand == Invalid
    ensures hand.Valid? ==> hand.newCards == Reward(hand.handType)
    ensures hand.Valid? ==> hand.score > 0
  {
    if |cards| != 5 then Invalid
    else
      var qOfRank := RankCounts(cards);
      var most := MinMax.SeqMax(qOfRank);
      Decide(IsFlush(cards), IsStraightHand(cards), HighestRank(cards),
             qOfRank, most, LeastPositive(qOfRank, most))
  }

  /** Classify is the first-match chain applied to the features of five cards. */
  lemma ClassifyIs(cards: seq<Card>, flush: bool, straight: bool, high: int, most: int, least: int)
    requires |cards| == 5
    requires flush == IsFlush(cards) && straight == IsStraightHand(cards) && high == HighestRank(cards)
    requires most == MinMax.SeqMax(RankCounts(cards)) && least == LeastPositive(RankCounts(cards), most)
    ensures Classify(cards) == Decide(flush, straight, high, RankCounts(cards), most, least)
  {
  }

  /**
   * `Game.GetHand(cards)` on the caller's array: the hand is Classify of the
   * cards as given, and a five-card array is left sorted by rank, because
   * `IsStraight` sorts it in place.
   */
  method GetHand(cards: array<Card>) returns (hand: Hand)
    modifies cards
    ensures hand == Classify(old(cards[..]))
    ensures cards.Length == 5 ==> cards[..] == SortByRank(old(cards[..]))
    ensures cards.Length != 5 ==> cards[..] == old(cards[..])
  {
    if cards.Length != 5 {
      return Invalid;
    }
    ghost var given := cards[..];
    var isFlush := IsFlush(cards[..]);
    var isStraight := IsStraight(cards);
    SortedFeatures(given, cards[..]);
    var highestRank := AceHighOrder(Ranks(cards[..]))[4];
    var qOfRank := RankCounts(cards[..]);
    var most := MaxCount(qOfRank);
    var leastPositive := 0;
    if most == 3 {
      leastPositive := MinPositive(qOfRank);
    }
    ClassifyIs(given, isFlush, isStraight, highestRank, most, leastPositive);
    hand := Decide(isFlush, isStraight, highestRank, qOfRank, most, leastPositive);
  }

  /** `max(qOfRank)`: the largest count, through the range-checked `max`. */
  method MaxCount(qOfRank: seq<int>) returns (most: int)
    requires |qOfRank| > 0
    ensures most == MinMax.SeqMax(qOfRank)
  {
    var counts := new int[|qOfRank|](i requires 0 <= i < |qOfRank| => qOfRank[i]);
    assert counts[..] == qOfRank;
    var max := MinMax.Max(counts);
    MinMax.SeqMaxUnique(qOfRank, max.value);
    most := max.value;
  }

  /** `min(qOfRank.filter((i) => i > 0))` with the `min` of better-minmax. */
  method MinPositive(qOfRank: seq<int>) returns (least: int)
    requires exists x :: x in qOfRank && x > 0
    ensures least == MinMax.SeqMin(Positive(qOfRank))
  {
    var positive := Positive(qOfRank);
    var values := new int[|positive|](i requires 0 <= i < |positive| => positive[i]);
    assert values[..] == positive;
    var min := MinMax.Min(values);
    MinMax.SeqMinUnique(positive, min.value);
    least := min.value;
  }

  /** What `GetHand` reads off the sorted array is what Classify computes from the given cards. */
  lemma SortedFeatures(given: seq<Card>, sorted: seq<Card>)
    requires |given| == 5 && sorted == SortByRank(given)
    ensures IsRun(Ranks(sorted)) == IsStraightHand(given)
    ensures AceHighOrder(Ranks(sorted))[4] == HighestRank(given)
    ensures RankCounts(sorted) == RankCounts(given)
  {
    assert Ranks(sorted) == SortedRanks(given);
    RankCountsPermutation(sorted, given);
  }

  // ---------------------------------------------------------------------
  // Order independence

  lemma MultisetRemove<T>(s: seq<T>, k: int)
    requires 0 <= k < |s|
    ensures multiset(s[..k] + s[k + 1..]) == multiset(s) - multiset{s[k]}
  {
    assert s == s[..k] + [s[k]] + s[k + 1..];
  }

  lemma MultisetTail<T>(s: seq<T>)
    requires s != []
    ensures multiset(s[1..]) == multiset(s) - multiset{s[0]}
  {
    assert s == [s[0]] + s[1..];
  }

  lemma {:induction false} RanksPermutation(a: seq<Card>, b: seq<Card>)
    requires multiset(a) == multiset(b)
    ensures multiset(Ranks(a)) == multiset(Ranks(b))
    decreases |a|
  {
    if a == [] {
      assert |b| == |multiset(b)| == 0;
    } else {
      var c := a[0];
      assert c in multiset(b);
      var k :| 0 <= k < |b| && b[k] == c;
      var rest := b[..k] + b[k + 1..];
      MultisetRemove(b, k);
      MultisetTail(a);
      RanksPermutation(a[1..], rest);
      assert Ranks(a) == [c.rank] + Ranks(a[1..]);
      assert Ranks(b) == Ranks(b[..k]) + [c.rank] + Ranks(b[k + 1..]);
      assert Ranks(rest) == Ranks(b[..k]) + Ranks(b[k + 1..]);
    }
  }

  lemma RankCountsPermutation(a: seq<Card>, b: seq<Card>)
    requires multiset(a) == multiset(b)
    ensures RankCounts(a) == RankCounts(b)
  {
    RanksPermutation(a, b);
  }

  lemma SortedHeadLeast(s: seq<int>, x: int)
    requires Sorted(s) && x in multiset(s)
    ensures s[0] <= x
  {
    var k :| 0 <= k < |s| && s[k] == x;
    assert s[0] <= s[k];
  }

  /** Two ascending sequences with the same elements are equal. */
  lemma {:induction false} SortedUnique(a: seq<int>, b: seq<int>)
    requires Sorted(a) && Sorted(b) && multiset(a) == multiset(b)
    ensures a == b
    decreases |a|
  {
    assert |a| == |multiset(a)| == |multiset(b)| == |b|;
    if a != [] {
      assert a[0] in multiset(a) && b[0] in multiset(b);
      SortedHeadLeast(a, b[0]);
      SortedHeadLeast(b, a[0]);
      MultisetTail(a);
      MultisetTail(b);
      SortedTail(a);
      SortedTail(b);
      assert a[0] == b[0];
      SortedUnique(a[1..], b[1..]);
      forall i | 1 <= i < |a|
        ensures a[i] == b[i]
      {
        assert a[i] == a[1..][i - 1] && b[i] == b[1..][i - 1];
      }
    }
  }

  lemma SortedTail(s: seq<int>)
    requires Sorted(s) && s != []
    ensures Sorted(s[1..])
  {
    forall i, j | 0 <= i < j < |s| - 1
      ensures s[1..][i] <= s[1..][j]
    {
      assert s[1..][i] == s[i + 1] && s[1..][j] == s[j + 1];
    }
  }

  lemma SortedRanksPermutation(a: seq<Card>, b: seq<Card>)
    requires multiset(a) == multiset(b)
    ensures SortedRanks(a) == SortedRanks(b)
  {
    RanksPermutation(SortByRank(a), a);
    RanksPermutation(a, b);
    RanksPermutation(SortByRank(b), b);
    SortedUnique(SortedRanks(a), SortedRanks(b));
  }

  lemma FlushTransfer(a: seq<Card>, b: seq<Card>)
    requires |a| == 5 && |b| == 5 && multiset(a) == multiset(b) && IsFlush(a)
    ensures IsFlush(b)
  {
    forall i | 0 <= i < 5
      ensures b[i].suit == a[0].suit
    {
      assert b[i] in multiset(a);
    }
  }

  /** GetHand's result depends only on which cards are given, not on their order. */
  lemma ClassifyPermutation(a: seq<Card>, b: seq<Card>)
    requires multiset(a) == multiset(b)
    ensures Classify(a) == Classify(b)
  {
    assert |a| == |multiset(a)| == |multiset(b)| == |b|;
    if |a| == 5 {
      if IsFlush(a) { FlushTransfer(a, b); }
      if IsFlush(b) { FlushTransfer(b, a); }
      RankCountsPermutation(a, b);
      SortedRanksPermutation(a, b);
    }
  }
}
