/**
 * The board engine of game/game.ts: a `TableWidth` x `TableHeight` grid of
 * cells `cards[x, y]` (row `TableHeight - 1` is the bottom), the score, and
 * the `StartGame` and `ClaimHand` operations. The grid is stated through
 * its columns (module `Columns`).
 */
module Board {
  import opened Wrappers
  import opened Poker
  import opened Columns
  import MinMax

  const TableWidth := 6
  const TableHeight := 8

  datatype GameEventType = HandEvent | ScoreChange

  /** What `OnGameEvent` receives. */
  datatype GameEvent = GameEvent(event: GameEventType, hand: Option<Hand>)

  /** One claimed card and the cell it is taken from. */
  datatype Claim = Claim(card: Card, x: int, y: int)

  /** `hand.map((i) => i.card)`. */
  function HandCards(hand: seq<Claim>): (cards: seq<Card>)
    ensures |cards| == |hand| && forall i :: 0 <= i < |hand| ==> cards[i] == hand[i].card
  {
    seq(|hand|, i requires 0 <= i < |hand| => hand[i].card)
  }

  /** The cells a claim names. */
  function Positions(hand: seq<Claim>): set<(int, int)>
  {
    set i | 0 <= i < |hand| :: (hand[i].x, hand[i].y)
  }

  /** `randInt(lo, hi)`: any integer of the half-open range. */
  method RandInt(lo: int, hi: int) returns (r: int)
    requires lo < hi
    ensures lo <= r < hi
  {
    r :| lo <= r < hi;
  }

  // ---------------------------------------------------------------------
  // The grid as a sequence of columns

  /** The columns of a grid, `x` first. */
  function ColumnsOf(a: array2<Option<Card>>): (g: seq<Column>)
    reads a
    ensures |g| == a.Length0
    ensures forall x :: 0 <= x < a.Length0 ==>
      |g[x]| == a.Length1 && forall y :: 0 <= y < a.Length1 ==> g[x][y] == a[x, y]
  {
    seq(a.Length0, x requires 0 <= x < a.Length0 reads a =>
      seq(a.Length1, y requires 0 <= y < a.Length1 reads a => a[x, y]))
  }

  /** How many cards each column holds. */
  function CountsOf(g: seq<Column>): (counts: seq<int>)
    ensures |counts| == |g| && forall x :: 0 <= x < |g| ==> counts[x] == Count(g[x])
  {
    seq(|g|, x requires 0 <= x < |g| => Count(g[x]))
  }

  /** How many cards the grid holds. */
  function Total(g: seq<Column>): int
  {
    Sum(CountsOf(g))
  }

  function Capped(n: int, cap: int): int
  {
    if n < cap then n else cap
  }

  /** Replacing one column changes the total by the difference of the counts. */
  lemma TotalUpdate(g: seq<Column>, x: int, col: Column)
    requires 0 <= x < |g|
    ensures Total(g[x := col]) == Total(g) - Count(g[x]) + Count(col)
  {
    assert CountsOf(g[x := col]) == CountsOf(g)[x := Count(col)];
    SumUpdate(CountsOf(g), x, Count(col));
  }

  /** A grid of full columns holds `TableWidth * TableHeight` cards; one with room holds fewer. */
  lemma TotalBound(g: seq<Column>)
    requires |g| == TableWidth && forall x :: 0 <= x < |g| ==> |g[x]| == TableHeight
    ensures Total(g) <= TableWidth * TableHeight
    ensures (exists x :: 0 <= x < |g| && Count(g[x]) < TableHeight) ==> Total(g) < TableWidth * TableHeight
    ensures (forall x :: 0 <= x < |g| ==> Count(g[x]) == TableHeight) ==> Total(g) == TableWidth * TableHeight
  {
    var counts := CountsOf(g);
    SumBound(counts, TableHeight);
    if exists x :: 0 <= x < |g| && Count(g[x]) < TableHeight {
      var x :| 0 <= x < |g| && Count(g[x]) < TableHeight;
      assert counts[x] < TableHeight;
    }
    if forall x :: 0 <= x < |g| ==> Count(g[x]) == TableHeight {
      SumAll(counts, TableHeight);
    }
  }

  // ---------------------------------------------------------------------
  // The steps of ClaimHand on values

  /** The claimed cells exist, hold a card, and are pairwise distinct. */
  predicate Claimable(g: seq<Column>, hand: seq<Claim>)
  {
    (forall i :: 0 <= i < |hand| ==>
      0 <= hand[i].x < |g| && 0 <= hand[i].y < |g[hand[i].x]| && g[hand[i].x][hand[i].y].Some?) &&
    (forall i, j :: 0 <= i < j < |hand| ==> (hand[i].x, hand[i].y) != (hand[j].x, hand[j].y))
  }

  /** The grid with the claimed cells emptied. */
  function Removed(g: seq<Column>, hand: seq<Claim>): (r: seq<Column>)
    ensures |r| == |g|
    ensures forall x :: 0 <= x < |g| ==> (|r[x]| == |g[x]| &&
      forall y :: 0 <= y < |g[x]| ==> r[x][y] == if (x, y) in Positions(hand) then None else g[x][y])
  {
    seq(|g|, x requires 0 <= x < |g| =>
      seq(|g[x]|, y requires 0 <= y < |g[x]| => if (x, y) in Positions(hand) then None else g[x][y]))
  }

  /** Emptying the claimed cells one after the other empties the next one, which still holds its card. */
  lemma RemoveNext(g: seq<Column>, hand: seq<Claim>, i: int)
    requires Claimable(g, hand) && 0 <= i < |hand|
    ensures Removed(g, hand[..i])[hand[i].x][hand[i].y].Some?
    ensures Removed(g, hand[..i + 1]) ==
      Removed(g, hand[..i])[hand[i].x := Removed(g, hand[..i])[hand[i].x][hand[i].y := None]]
  {
    var x, y := hand[i].x, hand[i].y;
    forall j | 0 <= j < i
      ensures (hand[..i][j].x, hand[..i][j].y) != (x, y)
    {
      assert hand[..i][j] == hand[j];
    }
    assert (x, y) !in Positions(hand[..i]);
    assert Positions(hand[..i + 1]) == Positions(hand[..i]) + {(x, y)};
    var a := Removed(g, hand[..i]);
    var b := Removed(g, hand[..i + 1]);
    forall x' | 0 <= x' < |g|
      ensures b[x'] == a[x := a[x][y := None]][x']
    {
      assert |b[x']| == |a[x := a[x][y := None]][x']|;
    }
  }

  /** Removing nothing leaves the grid as it is. */
  lemma RemovedNothing(g: seq<Column>, hand: seq<Claim>)
    ensures Removed(g, hand[..0]) == g
  {
    assert Positions(hand[..0]) == {};
    forall x | 0 <= x < |g|
      ensures Removed(g, hand[..0])[x] == g[x]
    {
    }
  }

  /** Emptying `k` distinct occupied cells takes `k` cards off the grid. */
  lemma {:induction false} RemovedTotal(g: seq<Column>, hand: seq<Claim>, k: int)
    requires Claimable(g, hand) && 0 <= k <= |hand|
    ensures Total(Removed(g, hand[..k])) == Total(g) - k
  {
    if k == 0 {
      RemovedNothing(g, hand);
    } else {
      RemovedTotal(g, hand, k - 1);
      RemoveNext(g, hand, k - 1);
      var before := Removed(g, hand[..k - 1]);
      var x, y := hand[k - 1].x, hand[k - 1].y;
      Empty(before[x], y);
      TotalUpdate(before, x, before[x][y := None]);
    }
  }

  /** The grid with every `newCard` flag cleared. */
  function Unmarked(g: seq<Column>): (r: seq<Column>)
    ensures |r| == |g| && forall x :: 0 <= x < |g| ==> r[x] == UnmarkColumn(g[x])
  {
    seq(|g|, x requires 0 <= x < |g| => UnmarkColumn(g[x]))
  }

  /** The grid once every column has fallen. */
  function Dropped(g: seq<Column>): (r: seq<Column>)
    ensures |r| == |g| && forall x :: 0 <= x < |g| ==> r[x] == Settle(g[x])
  {
    seq(|g|, x requires 0 <= x < |g| => Settle(g[x]))
  }

  /** Clearing flags and dropping keep every card, so the total. */
  lemma DroppedTotal(g: seq<Column>)
    ensures Total(Dropped(Unmarked(g))) == Total(g)
  {
    forall x | 0 <= x < |g|
      ensures CountsOf(Dropped(Unmarked(g)))[x] == CountsOf(g)[x]
    {
      StackUnmark(g[x]);
      SettleKeepsCards(UnmarkColumn(g[x]));
    }
    assert CountsOf(Dropped(Unmarked(g))) == CountsOf(g);
  }

  /**
   * Emptying five distinct occupied cells, clearing the flags and dropping
   * leaves every column settled with its remaining cards, flags cleared, in
   * their order, and five cards fewer on the grid.
   */
  lemma ClaimSteps(g: seq<Column>, hand: seq<Claim>)
    requires Claimable(g, hand) && |hand| == 5
    ensures forall x :: 0 <= x < |g| ==> Settled(Dropped(Unmarked(Removed(g, hand)))[x])
    ensures forall x :: 0 <= x < |g| ==>
      Stack(Dropped(Unmarked(Removed(g, hand)))[x]) == ClearFlags(Stack(Removed(g, hand)[x]))
    ensures Total(Dropped(Unmarked(Removed(g, hand)))) == Total(g) - 5
  {
    var removed := Removed(g, hand);
    forall x | 0 <= x < |g|
      ensures Settled(Dropped(Unmarked(removed))[x])
      ensures Stack(Dropped(Unmarked(removed))[x]) == ClearFlags(Stack(removed[x]))
    {
      StackUnmark(removed[x]);
      SettleKeepsCards(UnmarkColumn(removed[x]));
    }
    RemovedTotal(g, hand, |hand|);
    assert hand[..|hand|] == hand;
    DroppedTotal(removed);
  }

  /** The column numbers whose count is `v`, in increasing order. */
  function ColumnsAt(counts: seq<int>, v: int): (xs: seq<int>)
    ensures forall x :: x in xs <==> 0 <= x < |counts| && counts[x] == v
    ensures forall i, j :: 0 <= i < j < |xs| ==> xs[i] < xs[j]
  {
    if counts == [] then []
    else
      var earlier := ColumnsAt(counts[..|counts| - 1], v);
      assert forall k :: 0 <= k < |earlier| ==> earlier[k] in earlier;
      earlier + (if counts[|counts| - 1] == v then [|counts| - 1] else [])
  }

  /** `min(columnCount.map(...))`, through the range-checked `min`. */
  method LowestCount(counts: seq<int>) returns (lowest: int)
    requires |counts| > 0
    ensures lowest in counts && forall x :: 0 <= x < |counts| ==> lowest <= counts[x]
  {
    var values := new int[|counts|](i requires 0 <= i < |counts| => counts[i]);
    assert values[..] == counts;
    var m := MinMax.Min(values);
    lowest := m.value;
  }

  // ---------------------------------------------------------------------
  // The game

  /**
   * The board `after` claiming `hand` on `before` and refilling with
   * `newCards` cards: gravity holds in every column, each column keeps the
   * cards that were not claimed, in order and with `newCard` cleared, under
   * nothing but new cards, and the board holds five cards fewer plus the new
   * ones, up to its size.
   */
  predicate Claimed(before: seq<Column>, hand: seq<Claim>, newCards: int, after: seq<Column>)
  {
    |after| == |before| &&
    (forall x :: 0 <= x < |after| ==> Settled(after[x])) &&
    (forall x :: 0 <= x < |after| ==>
      OnTop(Stack(after[x]), ClearFlags(Stack(Removed(before, hand)[x])))) &&
    Total(after) == Capped(Total(before) - 5 + newCards, TableWidth * TableHeight)
  }

  /** One `addCard` keeps gravity and the cards beneath, and adds a card unless the board is full. */
  lemma RefillStep(before: seq<Column>, g: seq<Column>, i: int,
                   columnX: int, row: int, placed: Option<Card>, next: seq<Column>)
    requires |g| == TableWidth && forall x :: 0 <= x < TableWidth ==> |g[x]| == TableHeight
    requires |before| == TableWidth && Total(before) <= TableWidth * TableHeight
    requires forall x :: 0 <= x < TableWidth ==> Settled(g[x])
    requires forall x :: 0 <= x < TableWidth ==> OnTop(Stack(g[x]), Stack(before[x]))
    requires Total(g) == Capped(Total(before) + i, TableWidth * TableHeight)
    requires 0 <= columnX < TableWidth
    requires forall x :: 0 <= x < TableWidth ==> Count(g[columnX]) <= Count(g[x])
    requires row == TableHeight - Count(g[columnX]) - 1
    requires row < 0 ==> next == g
    requires row >= 0 ==> placed.Some? && placed.value.newCard && next == g[columnX := g[columnX][row := placed]]
    ensures forall x :: 0 <= x < TableWidth ==> Settled(next[x])
    ensures forall x :: 0 <= x < TableWidth ==> OnTop(Stack(next[x]), Stack(before[x]))
    ensures Total(next) == Capped(Total(before) + i + 1, TableWidth * TableHeight)
  {
    TotalBound(g);
    if row >= 0 {
      PlaceOnTop(g[columnX], placed.value);
      OnTopPush(Stack(g[columnX]), Stack(before[columnX]), placed.value);
      TotalUpdate(g, columnX, g[columnX][row := placed]);
    } else {
      assert forall x :: 0 <= x < TableWidth ==> Count(g[x]) == TableHeight;
    }
  }

  /** Refilling the dropped board settles the claim. */
  lemma ClaimedBy(before: seq<Column>, hand: seq<Claim>, newCards: int, dropped: seq<Column>, after: seq<Column>)
    requires |before| == |after| == TableWidth
    requires dropped == Dropped(Unmarked(Removed(before, hand)))
    requires forall x :: 0 <= x < |before| ==>
      Stack(dropped[x]) == ClearFlags(Stack(Removed(before, hand)[x]))
    requires Total(dropped) == Total(before) - 5
    requires forall x :: 0 <= x < TableWidth ==> Settled(after[x])
    requires forall x :: 0 <= x < TableWidth ==> OnTop(Stack(after[x]), Stack(dropped[x]))
    requires Total(after) == Capped(Total(dropped) + newCards, TableWidth * TableHeight)
    ensures Claimed(before, hand, newCards, after)
  {
  }

  /** `getHand` on the claimed cards, copied into a fresh array as `ClaimHand` does. */
  method Evaluate(hand: seq<Claim>) returns (h: Hand)
    ensures h == Classify(HandCards(hand))
  {
    var given := new Card[|hand|](i requires 0 <= i < |hand| => hand[i].card);
    assert given[..] == HandCards(hand);
    h := GetHand(given);
  }

  class Game {
    var cards: array2<Option<Card>>
    var score: int

    /** Before `StartGame` the grid is empty (`cards = []`) and the score 0. */
    constructor()
      ensures cards.Length0 == 0 && cards.Length1 == 0 && score == 0
    {
      cards := new Option<Card>[0, 0];
      score := 0;
    }

    /** The grid has been laid. */
    predicate Started()
      reads this
    {
      cards.Length0 == TableWidth && cards.Length1 == TableHeight
    }

    /** Lays a fresh grid with a card, not new, in every cell; the score is kept. */
    method StartGame()
      modifies this
      ensures Started() && fresh(cards) && score == old(score)
      ensures forall x, y :: 0 <= x < TableWidth && 0 <= y < TableHeight ==>
        cards[x, y].Some? && !cards[x, y].value.newCard
    {
      var laid := new Option<Card>[TableWidth, TableHeight];
      for x := 0 to TableWidth
        modifies laid
        invariant forall i, j :: 0 <= i < x && 0 <= j < TableHeight ==>
          laid[i, j].Some? && !laid[i, j].value.newCard
      {
        for y := 0 to TableHeight
          modifies laid
          invariant forall i, j :: 0 <= i < TableWidth && 0 <= j < TableHeight && (i < x || (i == x && j < y)) ==>
            laid[i, j].Some? && !laid[i, j].value.newCard
        {
          var suit := RandInt(0, 4);
          var rank := RandInt(0, 13);
          laid[x, y] := Some(Card(suit, rank, false));
        }
      }
      cards := laid;
    }

    /** Writes one cell. */
    method Set(x: int, y: int, cell: Option<Card>)
      requires Started() && 0 <= x < TableWidth && 0 <= y < TableHeight
      modifies cards
      ensures forall i, j :: 0 <= i < TableWidth && 0 <= j < TableHeight ==>
        cards[i, j] == if i == x && j == y then cell else old(cards[i, j])
      ensures ColumnsOf(cards) == old(ColumnsOf(cards))[x := old(ColumnsOf(cards))[x][y := cell]]
    {
      cards[x, y] := cell;
      forall i | 0 <= i < TableWidth
        ensures ColumnsOf(cards)[i] == old(ColumnsOf(cards))[x := old(ColumnsOf(cards))[x][y := cell]][i]
      {
      }
    }

    /** `hand.forEach((i) => this.cards[i.x][i.y] = null)`. */
    method RemoveClaimed(hand: seq<Claim>)
      requires Started() && Claimable(ColumnsOf(cards), hand)
      modifies cards
      ensures ColumnsOf(cards) == Removed(old(ColumnsOf(cards)), hand)
    {
      ghost var before := ColumnsOf(cards);
      RemovedNothing(before, hand);
      for i := 0 to |hand|
        invariant ColumnsOf(cards) == Removed(before, hand[..i])
      {
        RemoveNext(before, hand, i);
        Set(hand[i].x, hand[i].y, None);
      }
      assert hand[..|hand|] == hand;
    }

    /** Clears `newCard` on every card, column by column from the bottom. */
    method ClearNew()
      requires Started()
      modifies cards
      ensures ColumnsOf(cards) == Unmarked(old(ColumnsOf(cards)))
    {
      for x := 0 to TableWidth
        invariant forall i, j :: 0 <= i < TableWidth && 0 <= j < TableHeight ==>
          cards[i, j] == if i < x then Unmark(old(cards[i, j])) else old(cards[i, j])
      {
        var y := TableHeight - 1;
        while y >= 0
          invariant -1 <= y < TableHeight
          invariant forall i, j :: 0 <= i < TableWidth && 0 <= j < TableHeight ==>
            cards[i, j] == if i < x || (i == x && j > y) then Unmark(old(cards[i, j])) else old(cards[i, j])
        {
          if cards[x, y] != None {
            cards[x, y] := Some(cards[x, y].value.(newCard := false));
          }
          y := y - 1;
        }
      }
      assert forall x :: 0 <= x < TableWidth ==> ColumnsOf(cards)[x] == Unmarked(old(ColumnsOf(cards)))[x];
    }

    /**
     * Gravity in column `x`: each empty cell, from the bottom up, pulls down
     * the nearest card above it.
     */
    method DropColumn(x: int)
      requires Started() && 0 <= x < TableWidth
      modifies cards
      ensures ColumnsOf(cards) == old(ColumnsOf(cards))[x := Settle(old(ColumnsOf(cards))[x])]
    {
      ghost var before := ColumnsOf(cards);
      var y := TableHeight - 1;
      while y >= 0
        invariant -1 <= y < TableHeight
        invariant forall i :: 0 <= i < TableWidth && i != x ==> ColumnsOf(cards)[i] == before[i]
        invariant Stack(ColumnsOf(cards)[x]) == Stack(before[x])
        invariant forall i, j :: 0 <= i < j < TableHeight && y < j && cards[x, i].Some? ==> cards[x, j].Some?
      {
        var checkY := y - 1;
        while cards[x, y] == None && checkY >= 0
          invariant -1 <= checkY < y
          invariant cards[x, y] == None ==> forall k :: checkY < k < y ==> cards[x, k] == None
          invariant forall i :: 0 <= i < TableWidth && i != x ==> ColumnsOf(cards)[i] == before[i]
          invariant Stack(ColumnsOf(cards)[x]) == Stack(before[x])
          invariant forall i, j :: 0 <= i < j < TableHeight && y < j && cards[x, i].Some? ==> cards[x, j].Some?
        {
          if cards[x, checkY] != None {
            MoveDown(ColumnsOf(cards)[x], checkY, y);
            Set(x, y, cards[x, checkY]);
            Set(x, checkY, None);
          }
          checkY := checkY - 1;
        }
        y := y - 1;
      }
      SettledUnique(ColumnsOf(cards)[x], before[x]);
    }

    /** Gravity in every column. */
    method Drop()
      requires Started()
      modifies cards
      ensures ColumnsOf(cards) == Dropped(old(ColumnsOf(cards)))
    {
      ghost var before := ColumnsOf(cards);
      for x := 0 to TableWidth
        invariant |ColumnsOf(cards)| == TableWidth
        invariant forall i :: 0 <= i < TableWidth ==>
          ColumnsOf(cards)[i] == if i < x then Settle(before[i]) else before[i]
      {
        DropColumn(x);
      }
    }

    /**
     * One refill insertion: a column holding the fewest cards is chosen at
     * random, and a random new card goes into the cell `TableHeight - count - 1`
     * when there is one.
     */
    method AddCard() returns (columnX: int, row: int, placed: Option<Card>)
      requires Started()
      modifies cards
      ensures 0 <= columnX < TableWidth
      ensures forall x :: 0 <= x < TableWidth ==>
        Count(old(ColumnsOf(cards))[columnX]) <= Count(old(ColumnsOf(cards))[x])
      ensures row == TableHeight - Count(old(ColumnsOf(cards))[columnX]) - 1
      ensures row < 0 ==> placed == None && ColumnsOf(cards) == old(ColumnsOf(cards))
      ensures row >= 0 ==> (placed.Some? && placed.value.newCard &&
        ColumnsOf(cards) == old(ColumnsOf(cards))[columnX := old(ColumnsOf(cards))[columnX][row := placed]])
    {
      var columnCount := CountsOf(ColumnsOf(cards));
      var lowestCount := LowestCount(columnCount);
      var x0 :| 0 <= x0 < |columnCount| && columnCount[x0] == lowestCount;
      var columnsAtLowest := ColumnsAt(columnCount, lowestCount);
      assert x0 in columnsAtLowest;
      var pick := RandInt(0, |columnsAtLowest|);
      columnX := columnsAtLowest[pick];
      assert columnX in columnsAtLowest;
      row := TableHeight - lowestCount - 1;
      placed := None;
      if row >= 0 {
        var suit := RandInt(0, 4);
        var rank := RandInt(0, 13);
        placed := Some(Card(suit, rank, true));
        Set(columnX, row, placed);
      }
    }

    /**
     * `newCards` insertions into a settled grid: gravity still holds, the
     * cards already there stay beneath the new ones, and the grid gains one
     * card per insertion until it is full.
     */
    method Refill(newCards: nat, ghost before: seq<Column>)
      requires Started() && before == ColumnsOf(cards)
      requires forall x :: 0 <= x < TableWidth ==> Settled(before[x])
      modifies cards
      ensures forall x :: 0 <= x < TableWidth ==> Settled(ColumnsOf(cards)[x])
      ensures forall x :: 0 <= x < TableWidth ==> OnTop(Stack(ColumnsOf(cards)[x]), Stack(before[x]))
      ensures Total(ColumnsOf(cards)) == Capped(Total(before) + newCards, TableWidth * TableHeight)
    {
      TotalBound(before);
      for i := 0 to newCards
        invariant forall x :: 0 <= x < TableWidth ==> Settled(ColumnsOf(cards)[x])
        invariant forall x :: 0 <= x < TableWidth ==> OnTop(Stack(ColumnsOf(cards)[x]), Stack(before[x]))
        invariant Total(ColumnsOf(cards)) == Capped(Total(before) + i, TableWidth * TableHeight)
      {
        ghost var g := ColumnsOf(cards);
        var columnX, row, placed := AddCard();
        RefillStep(before, g, i, columnX, row, placed, ColumnsOf(cards));
      }
    }

    /**
     * The board part of `ClaimHand`, from the board `before` the claim: the five
     * claimed cells emptied, flags cleared, columns dropped, `newCards` added.
     */
    method Resolve(hand: seq<Claim>, newCards: nat, ghost before: seq<Column>)
      requires Started() && before == ColumnsOf(cards) && Claimable(before, hand) && |hand| == 5
      modifies cards
      ensures Claimed(before, hand, newCards, ColumnsOf(cards))
    {
      RemoveClaimed(hand);
      ClearNew();
      Drop();
      ghost var dropped := ColumnsOf(cards);
      ClaimSteps(before, hand);
      Refill(newCards, dropped);
      ClaimedBy(before, hand, newCards, dropped, ColumnsOf(cards));
    }

    /**
     * Claims a valid hand: adds its score, empties the five claimed cells,
     * clears `newCard` on the other cards, lets every column fall, refills
     * with the hand's `newCards`, and fires one `Hand` event.
     */
    method ClaimHand(hand: seq<Claim>) returns (event: GameEvent)
      requires Started()
      requires Classify(HandCards(hand)).Valid?
      requires Claimable(ColumnsOf(cards), hand)
      modifies this, cards
      ensures Started() && cards == old(cards)
      ensures score == old(score) + Classify(HandCards(hand)).score
      ensures event == GameEvent(HandEvent, Some(Classify(HandCards(hand))))
      ensures Claimed(old(ColumnsOf(cards)), hand, Classify(HandCards(hand)).newCards, ColumnsOf(cards))
    {
      ghost var before := ColumnsOf(cards);
      var h := Evaluate(hand);
      AddScore(h.score);
      Resolve(hand, h.newCards, before);
      event := GameEvent(HandEvent, Some(h));
    }

    /** `this.score += points`; the board is untouched. */
    method AddScore(points: int)
      modifies this
      ensures score == old(score) + points && cards == old(cards)
      ensures ColumnsOf(cards) == old(ColumnsOf(cards))
    {
      score := score + points;
    }
  }
}
