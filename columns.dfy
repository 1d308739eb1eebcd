/**
 * Columns of the board of game/game.ts, as values: a column lists its cells
 * from the top row (y = 0) to the bottom row, an empty cell being `None`.
 * Gravity, the refill position and the card counts of `ClaimHand` are all
 * stated through the functions of this module.
 */
module Columns {
  import opened Wrappers
  import opened Poker

  type Column = seq<Option<Card>>

  /** The cards of a column, top to bottom. */
  function Stack(col: Column): (cards: seq<Card>)
    ensures |cards| <= |col|
  {
    if col == [] then []
    else (if col[0].Some? then [col[0].value] else []) + Stack(col[1..])
  }

  /** How many cells of the column hold a card. */
  function Count(col: Column): (n: nat)
    ensures n <= |col|
  {
    |Stack(col)|
  }

  lemma {:induction false} StackAppend(a: Column, b: Column)
    ensures Stack(a + b) == Stack(a) + Stack(b)
  {
    if a == [] {
      assert a + b == b;
    } else {
      assert (a + b)[0] == a[0];
      assert (a + b)[1..] == a[1..] + b;
      StackAppend(a[1..], b);
    }
  }

  /** `n` empty cells. */
  function Blank(n: nat): (col: Column)
    ensures |col| == n && forall i :: 0 <= i < n ==> col[i] == None
  {
    seq(n, _ => None)
  }

  /** The cells holding `cards`, in order. */
  function Filled(cards: seq<Card>): (col: Column)
    ensures |col| == |cards| && forall i :: 0 <= i < |cards| ==> col[i] == Some(cards[i])
  {
    seq(|cards|, i requires 0 <= i < |cards| => Some(cards[i]))
  }

  lemma {:induction false} StackBlank(n: nat)
    ensures Stack(Blank(n)) == []
  {
    if n > 0 {
      assert Blank(n)[1..] == Blank(n - 1);
      StackBlank(n - 1);
    }
  }

  lemma {:induction false} StackFilled(cards: seq<Card>)
    ensures Stack(Filled(cards)) == cards
  {
    if cards != [] {
      assert Filled(cards)[1..] == Filled(cards[1..]);
      StackFilled(cards[1..]);
    }
  }

  /** Gravity holds: no card sits above an empty cell. */
  predicate Settled(col: Column)
  {
    forall i, j :: 0 <= i < j < |col| && col[i].Some? ==> col[j].Some?
  }

  /** The column once its cards have fallen: blanks on top, the same cards in the same order below. */
  function Settle(col: Column): (settled: Column)
    ensures |settled| == |col|
  {
    Blank(|col| - Count(col)) + Filled(Stack(col))
  }

  /** Settling keeps the cards and their order, and leaves gravity holding. */
  lemma SettleKeepsCards(col: Column)
    ensures Settled(Settle(col))
    ensures Stack(Settle(col)) == Stack(col)
    ensures Count(Settle(col)) == Count(col)
  {
    StackAppend(Blank(|col| - Count(col)), Filled(Stack(col)));
    StackBlank(|col| - Count(col));
    StackFilled(Stack(col));
  }

  /** A column in which gravity holds is its own settled form. */
  lemma {:induction false} SettledIsSettle(col: Column)
    requires Settled(col)
    ensures col == Settle(col)
  {
    if col == [] {
    } else if col[0].Some? {
      AllFilled(col);
    } else {
      SettledIsSettle(col[1..]);
      assert col == [None] + col[1..];
      assert Settle(col) == [None] + Settle(col[1..]);
    }
  }

  lemma {:induction false} AllFilled(col: Column)
    requires forall i :: 0 <= i < |col| ==> col[i].Some?
    ensures col == Settle(col)
  {
    if col != [] {
      AllFilled(col[1..]);
      assert Settle(col)[1..] == Settle(col[1..]);
    }
  }

  /** Two columns of equal height with the same cards in the same order settle alike. */
  lemma SettledUnique(col: Column, before: Column)
    requires Settled(col) && |col| == |before| && Stack(col) == Stack(before)
    ensures col == Settle(before)
  {
    SettledIsSettle(col);
  }

  /** Settling twice is settling once. */
  lemma SettleIdempotent(col: Column)
    ensures Settle(Settle(col)) == Settle(col)
  {
    SettleKeepsCards(col);
    SettledIsSettle(Settle(col));
  }

  /**
   * Moving the card at `i` down to the empty cell `j`, over empty cells only,
   * keeps the cards and their order.
   */
  lemma MoveDown(col: Column, i: int, j: int)
    requires 0 <= i < j < |col| && col[i].Some? && col[j] == None
    requires forall k :: i < k < j ==> col[k] == None
    ensures Stack(col[j := col[i]][i := None]) == Stack(col)
  {
    LiftedStack(col, i, j);
    MovedStack(col, i, j);
  }

  lemma LiftedStack(col: Column, i: int, j: int)
    requires 0 <= i < j < |col| && col[i].Some? && col[j] == None
    requires forall k :: i < k < j ==> col[k] == None
    ensures Stack(col) == Stack(col[..i]) + [col[i].value] + Stack(col[j + 1..])
  {
    Empty(col, i);
    BlankRun(col, i, j);
  }

  /** The empty cells below `i`, down to and including `j`, hold no card. */
  lemma BlankRun(col: Column, i: int, j: int)
    requires 0 <= i < j < |col| && col[j] == None
    requires forall k :: i < k < j ==> col[k] == None
    ensures Stack(col[i + 1..]) == Stack(col[j + 1..])
  {
    forall t | i + 1 <= t < j + 1
      ensures col[t] == None
    {
      if t == j {
        assert col[t] == col[j];
      }
    }
    SkipBlanks(col, i + 1, j + 1);
  }

  lemma MovedStack(col: Column, i: int, j: int)
    requires 0 <= i < j < |col| && col[i].Some? && col[j] == None
    requires forall k :: i < k < j ==> col[k] == None
    ensures Stack(col[j := col[i]][i := None]) == Stack(col[..i]) + [col[i].value] + Stack(col[j + 1..])
  {
    var moved := col[j := col[i]][i := None];
    Empty(moved, j);
    assert moved[j + 1..] == col[j + 1..];
    LoweredPrefix(col, i, j);
  }

  /** Above the moved card's new cell: the cards above `i` and blanks. */
  lemma LoweredPrefix(col: Column, i: int, j: int)
    requires 0 <= i < j < |col|
    requires forall k :: i < k < j ==> col[k] == None
    ensures Stack(col[j := col[i]][i := None][..j]) == Stack(col[..i])
  {
    var moved := col[j := col[i]][i := None];
    assert moved[..j] == col[..i] + moved[i..j];
    StackAppend(col[..i], moved[i..j]);
    NoneGap(moved[i..j]);
  }

  /** Empty cells from `from` up to `to` hold no card. */
  lemma SkipBlanks(col: Column, from: int, to: int)
    requires 0 <= from <= to <= |col| && forall t :: from <= t < to ==> col[t] == None
    ensures Stack(col[from..]) == Stack(col[to..])
  {
    assert col[from..] == col[from..to] + col[to..];
    StackAppend(col[from..to], col[to..]);
    NoneGap(col[from..to]);
  }

  lemma NoneGap(gap: Column)
    requires forall k :: 0 <= k < |gap| ==> gap[k] == None
    ensures Stack(gap) == []
  {
    assert gap == Blank(|gap|);
    StackBlank(|gap|);
  }

  /** Emptying an occupied cell takes exactly that card out of the column. */
  lemma Empty(col: Column, y: int)
    requires 0 <= y < |col| && col[y].Some?
    ensures Stack(col[y := None]) == Stack(col[..y]) + Stack(col[y + 1..])
    ensures Stack(col) == Stack(col[..y]) + [col[y].value] + Stack(col[y + 1..])
    ensures Count(col[y := None]) == Count(col) - 1
  {
    assert col == col[..y] + ([col[y]] + col[y + 1..]);
    assert col[y := None] == col[..y] + ([None] + col[y + 1..]);
    StackAppend(col[..y], [col[y]] + col[y + 1..]);
    StackAppend([col[y]], col[y + 1..]);
    StackAppend(col[..y], [None] + col[y + 1..]);
    StackAppend([None], col[y + 1..]);
  }

  /**
   * In a settled column that is not full, row `|col| - Count(col) - 1` is the
   * empty cell directly above the cards; a card placed there lands on top
   * and gravity still holds.
   */
  lemma PlaceOnTop(col: Column, c: Card)
    requires Settled(col) && Count(col) < |col|
    ensures col[|col| - Count(col) - 1] == None
    ensures Settled(col[|col| - Count(col) - 1 := Some(c)])
    ensures Stack(col[|col| - Count(col) - 1 := Some(c)]) == [c] + Stack(col)
  {
    var m := |col| - Count(col);
    var cards := Stack(col);
    SettledIsSettle(col);
    assert col == Blank(m) + Filled(cards);
    var placed := col[m - 1 := Some(c)];
    var shape := Blank(m - 1) + Filled([c] + cards);
    assert |placed| == |shape|;
    forall i | 0 <= i < |placed|
      ensures placed[i] == shape[i]
    {
      if i >= m {
        assert placed[i] == Filled(cards)[i - m];
        assert shape[i] == Filled([c] + cards)[i - m + 1];
      }
    }
    assert placed == shape;
    BlankOverFilled(m - 1, [c] + cards);
    StackAppend(Blank(m - 1), Filled([c] + cards));
    StackBlank(m - 1);
    StackFilled([c] + cards);
  }

  lemma BlankOverFilled(n: nat, cards: seq<Card>)
    ensures Settled(Blank(n) + Filled(cards))
  {
    var col := Blank(n) + Filled(cards);
    forall i, j | 0 <= i < j < |col| && col[i].Some?
      ensures col[j].Some?
    {
      assert i >= n;
    }
  }

  // ---------------------------------------------------------------------
  // The `newCard` flag

  /** A cell with its card's `newCard` flag cleared. */
  function Unmark(cell: Option<Card>): (r: Option<Card>)
    ensures r.Some? <==> cell.Some?
    ensures r.Some? ==> r.value == cell.value.(newCard := false)
  {
    match cell
    case None => None
    case Some(c) => Some(c.(newCard := false))
  }

  /** The cards with their `newCard` flags cleared. */
  function ClearFlags(cards: seq<Card>): (r: seq<Card>)
    ensures |r| == |cards|
    ensures forall i :: 0 <= i < |cards| ==> r[i] == cards[i].(newCard := false)
  {
    seq(|cards|, i requires 0 <= i < |cards| => cards[i].(newCard := false))
  }

  /** The column with every card's `newCard` flag cleared. */
  function UnmarkColumn(col: Column): (r: Column)
    ensures |r| == |col| && forall y :: 0 <= y < |col| ==> r[y] == Unmark(col[y])
  {
    seq(|col|, y requires 0 <= y < |col| => Unmark(col[y]))
  }

  /** Clearing the flags of a column clears them on its cards and moves none. */
  lemma {:induction false} StackUnmark(col: Column)
    ensures Stack(UnmarkColumn(col)) == ClearFlags(Stack(col))
  {
    if col != [] {
      assert UnmarkColumn(col)[1..] == UnmarkColumn(col[1..]);
      StackUnmark(col[1..]);
    }
  }

  /** `now` is `kept` with only new cards stacked on top of it. */
  predicate OnTop(now: seq<Card>, kept: seq<Card>)
  {
    |kept| <= |now| && now[|now| - |kept|..] == kept &&
    forall k :: 0 <= k < |now| - |kept| ==> now[k].newCard
  }

  /** Putting a new card on top keeps the cards beneath. */
  lemma OnTopPush(now: seq<Card>, kept: seq<Card>, c: Card)
    requires OnTop(now, kept) && c.newCard
    ensures OnTop([c] + now, kept)
  {
    assert ([c] + now)[|[c] + now| - |kept|..] == now[|now| - |kept|..];
  }

  // ---------------------------------------------------------------------
  // Sums of column counts

  function Sum(s: seq<int>): int
  {
    if s == [] then 0 else s[0] + Sum(s[1..])
  }

  /** Changing one count changes the sum by the difference. */
  lemma {:induction false} SumUpdate(s: seq<int>, k: int, v: int)
    requires 0 <= k < |s|
    ensures Sum(s[k := v]) == Sum(s) - s[k] + v
  {
    if k > 0 {
      assert s[k := v][1..] == s[1..][k - 1 := v];
      SumUpdate(s[1..], k - 1, v);
    }
  }

  /** Counts bounded by `m` sum to at most `|s| * m`, and to less when one of them is below `m`. */
  lemma {:induction false} SumBound(s: seq<int>, m: int)
    requires forall i :: 0 <= i < |s| ==> s[i] <= m
    ensures Sum(s) <= |s| * m
    ensures (exists i :: 0 <= i < |s| && s[i] < m) ==> Sum(s) < |s| * m
  {
    if s != [] {
      SumBound(s[1..], m);
      assert |s| * m == m + (|s| - 1) * m;
      if exists i :: 0 <= i < |s| && s[i] < m {
        var i :| 0 <= i < |s| && s[i] < m;
        if i > 0 {
          assert s[1..][i - 1] < m;
        }
      }
    }
  }

  /** Counts that all equal `m` sum to `|s| * m`. */
  lemma {:induction false} SumAll(s: seq<int>, m: int)
    requires forall i :: 0 <= i < |s| ==> s[i] == m
    ensures Sum(s) == |s| * m
  {
    if s != [] {
      SumAll(s[1..], m);
    }
  }
}
