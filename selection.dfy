/**
 * The selection state machine of game/game-state.ts: every cell of the
 * board carries a `Back` state, `getSelected` lists the chosen cells in
 * scan order, `setAvailable` decides which cells may extend the selection,
 * `unselectAll` resets, and `tapCell` drives the transitions, judging five
 * chosen cards with `GetHand` and claiming a judged hand with `ClaimHand`.
 * Positions are `(x, y)` pairs; rendering, sound and screen-reader text are
 * not part of this model.
 */
module Selection {
  import MinMax
  import Wrappers
  import opened Poker
  import opened Columns
  import opened Board

  /** The state of a cell (the `NewCard` sprite index is never stored in a cell). */
  datatype Back = Unavailable | Available | Selected | Ready | Invalid | None

  type Position = (int, int)

  /** A grid of cell states, `x` first, as the board's columns. */
  type Grid = seq<seq<Back>>

  predicate Shaped(g: Grid)
  {
    |g| == TableWidth && forall x :: 0 <= x < TableWidth ==> |g[x]| == TableHeight
  }

  predicate InBounds(p: Position)
  {
    0 <= p.0 < TableWidth && 0 <= p.1 < TableHeight
  }

  /** The cell belongs to the current selection. */
  predicate Chosen(b: Back)
  {
    b == Selected || b == Ready
  }

  /** What the lock-all loop does to one cell: `Available` becomes `Unavailable`. */
  function Lock(b: Back): (r: Back)
    ensures r != Available
    ensures b != Available ==> r == b
  {
    if b == Available then Unavailable else b
  }

  /** What `unselectAll` gives a cell: `Available` if it holds a card, `None` if not. */
  function Unselected(card: Wrappers.Option<Card>): (r: Back)
    ensures r == Available <==> card.Some?
    ensures r == None <==> card.None?
  {
    if card.Some? then Available else None
  }

  /** What the state part of `updateCells` gives a cell, from the card now on the board. */
  function Refreshed(b: Back, card: Wrappers.Option<Card>): (r: Back)
    ensures card.None? ==> r == None
    ensures card.Some? ==> r != None && (b != None ==> r == b)
  {
    if card.Some? then (if b == None then Available else b) else None
  }

  /** The states of a grid of cells. */
  function BacksOf(a: array2<Back>): (g: Grid)
    reads a
    ensures |g| == a.Length0
    ensures forall x :: 0 <= x < a.Length0 ==>
      |g[x]| == a.Length1 && forall y :: 0 <= y < a.Length1 ==> g[x][y] == a[x, y]
  {
    seq(a.Length0, x requires 0 <= x < a.Length0 reads a =>
      seq(a.Length1, y requires 0 <= y < a.Length1 reads a => a[x, y]))
  }

  // ---------------------------------------------------------------------
  // getSelected: the scan `for x { for y { ... } }`

  /** The chosen cells among the first `m` of column `x`, by y. */
  function SelectedInColumn(g: Grid, x: int, m: int): seq<Position>
    requires Shaped(g) && 0 <= x < TableWidth && 0 <= m <= TableHeight
  {
    if m == 0 then []
    else SelectedInColumn(g, x, m - 1) + (if Chosen(g[x][m - 1]) then [(x, m - 1)] else [])
  }

  /** The chosen cells of the first `c` columns, by x and then by y. */
  function SelectedColumns(g: Grid, c: int): seq<Position>
    requires Shaped(g) && 0 <= c <= TableWidth
  {
    if c == 0 then [] else SelectedColumns(g, c - 1) + SelectedInColumn(g, c - 1, TableHeight)
  }

  /** What `getSelected` returns: the `Selected` and `Ready` cells, by x and then by y. */
  function SelectionOf(g: Grid): seq<Position>
    requires Shaped(g)
  {
    SelectedColumns(g, TableWidth)
  }

  /** Scan order: by x, then by y. */
  predicate Before(p: Position, q: Position)
  {
    p.0 < q.0 || (p.0 == q.0 && p.1 < q.1)
  }

  lemma {:induction false} InColumnHas(g: Grid, x: int, m: int, p: Position)
    requires Shaped(g) && 0 <= x < TableWidth && 0 <= m <= TableHeight
    ensures p in SelectedInColumn(g, x, m) <==> p.0 == x && 0 <= p.1 < m && Chosen(g[x][p.1])
  {
    if m > 0 {
      InColumnHas(g, x, m - 1, p);
    }
  }

  lemma {:induction false} InColumnOrdered(g: Grid, x: int, m: int)
    requires Shaped(g) && 0 <= x < TableWidth && 0 <= m <= TableHeight
    ensures forall k :: 0 <= k < |SelectedInColumn(g, x, m)| ==>
      SelectedInColumn(g, x, m)[k].0 == x && 0 <= SelectedInColumn(g, x, m)[k].1 < m
    ensures forall k, l :: 0 <= k < l < |SelectedInColumn(g, x, m)| ==>
      SelectedInColumn(g, x, m)[k].1 < SelectedInColumn(g, x, m)[l].1
  {
    if m > 0 {
      InColumnOrdered(g, x, m - 1);
    }
  }

  lemma {:induction false} ColumnsHas(g: Grid, c: int, p: Position)
    requires Shaped(g) && 0 <= c <= TableWidth
    ensures p in SelectedColumns(g, c) <==> InBounds(p) && p.0 < c && Chosen(g[p.0][p.1])
  {
    if c > 0 {
      ColumnsHas(g, c - 1, p);
      InColumnHas(g, c - 1, TableHeight, p);
    }
  }

  lemma {:induction false} ColumnsOrdered(g: Grid, c: int)
    requires Shaped(g) && 0 <= c <= TableWidth
    ensures forall k :: 0 <= k < |SelectedColumns(g, c)| ==>
      InBounds(SelectedColumns(g, c)[k]) && SelectedColumns(g, c)[k].0 < c
    ensures forall k, l :: 0 <= k < l < |SelectedColumns(g, c)| ==>
      Before(SelectedColumns(g, c)[k], SelectedColumns(g, c)[l])
  {
    if c > 0 {
      ColumnsOrdered(g, c - 1);
      InColumnOrdered(g, c - 1, TableHeight);
      var a, b := SelectedColumns(g, c - 1), SelectedInColumn(g, c - 1, TableHeight);
      assert forall k :: |a| <= k < |a + b| ==> (a + b)[k] == b[k - |a|];
    }
  }

  /** Two grids of the board's shape are equal when every cell is. */
  lemma SameGrid(a: Grid, b: Grid)
    requires Shaped(a) && Shaped(b)
    requires forall i, j :: 0 <= i < TableWidth && 0 <= j < TableHeight ==> a[i][j] == b[i][j]
    ensures a == b
  {
    forall i | 0 <= i < TableWidth
      ensures a[i] == b[i]
    {
    }
  }

  /** `getSelected` holds exactly the cells in state `Selected` or `Ready`. */
  lemma SelectionHas(g: Grid, p: Position)
    requires Shaped(g)
    ensures p in SelectionOf(g) <==> InBounds(p) && Chosen(g[p.0][p.1])
  {
    ColumnsHas(g, TableWidth, p);
  }

  /** `getSelected` lists its cells on the board, by x and then by y, each once. */
  lemma SelectionOrdered(g: Grid)
    requires Shaped(g)
    ensures forall k :: 0 <= k < |SelectionOf(g)| ==> InBounds(SelectionOf(g)[k])
    ensures forall k, l :: 0 <= k < l < |SelectionOf(g)| ==> Before(SelectionOf(g)[k], SelectionOf(g)[l])
  {
    ColumnsOrdered(g, TableWidth);
  }

  // ---------------------------------------------------------------------
  // setAvailable

  /** The board-clamped 3x3 square around `c`, as the loops over `ix` and `iy` bound it. */
  predicate Near(c: Position, x: int, y: int)
    ensures InBounds(c) ==>
      (Near(c, x, y) <==> InBounds((x, y)) && c.0 - 1 <= x <= c.0 + 1 && c.1 - 1 <= y <= c.1 + 1)
  {
    (if c.0 - 1 > 0 then c.0 - 1 else 0) <= x <= (if c.0 + 1 < TableWidth - 1 then c.0 + 1 else TableWidth - 1) &&
    (if c.1 - 1 > 0 then c.1 - 1 else 0) <= y <= (if c.1 + 1 < TableHeight - 1 then c.1 + 1 else TableHeight - 1)
  }

  function Xs(sel: seq<Position>): (xs: seq<int>)
    ensures |xs| == |sel| && forall k :: 0 <= k < |sel| ==> xs[k] == sel[k].0
  {
    seq(|sel|, k requires 0 <= k < |sel| => sel[k].0)
  }

  function Ys(sel: seq<Position>): (ys: seq<int>)
    ensures |ys| == |sel| && forall k :: 0 <= k < |sel| ==> ys[k] == sel[k].1
  {
    seq(|sel|, k requires 0 <= k < |sel| => sel[k].1)
  }

  /**
   * The cells one step past either end of a selection of two or more, where
   * they lie on the board: the line's direction is read from the first two
   * cells (same x: vertical, same y: horizontal, differences unequal: '/',
   * else '\\').
   */
  function Ends(sel: seq<Position>): (ends: (Wrappers.Option<Position>, Wrappers.Option<Position>))
    requires |sel| >= 2
    ensures ends.0.Some? ==> ends.0.value !in sel
    ensures ends.1.Some? ==> ends.1.value !in sel
  {
    assert forall k :: 0 <= k < |sel| ==> Xs(sel)[k] in Xs(sel) && Ys(sel)[k] in Ys(sel);
    EndsFrom(sel[0], sel[1], MinMax.SeqMin(Xs(sel)), MinMax.SeqMax(Xs(sel)),
             MinMax.SeqMin(Ys(sel)), MinMax.SeqMax(Ys(sel)))
  }

  /** The two ends, from the first two cells and the selection's extent. */
  function EndsFrom(first: Position, second: Position, xMin: int, xMax: int, yMin: int, yMax: int)
    : (ends: (Wrappers.Option<Position>, Wrappers.Option<Position>))
    ensures ends.0.Some? ==> !(xMin <= ends.0.value.0 <= xMax && yMin <= ends.0.value.1 <= yMax)
    ensures ends.1.Some? ==> !(xMin <= ends.1.value.0 <= xMax && yMin <= ends.1.value.1 <= yMax)
  {
    if first.0 == second.0 then
      (if yMin > 0 then Wrappers.Some((first.0, yMin - 1)) else Wrappers.None,
       if yMax < TableHeight - 1 then Wrappers.Some((first.0, yMax + 1)) else Wrappers.None)
    else if first.1 == second.1 then
      (if xMin > 0 then Wrappers.Some((xMin - 1, first.1)) else Wrappers.None,
       if xMax < TableWidth - 1 then Wrappers.Some((xMax + 1, first.1)) else Wrappers.None)
    else if first.0 - second.0 != first.1 - second.1 then
      (if xMin > 0 && yMax < TableHeight - 1 then Wrappers.Some((xMin - 1, yMax + 1)) else Wrappers.None,
       if xMax < TableWidth - 1 && yMin > 0 then Wrappers.Some((xMax + 1, yMin - 1)) else Wrappers.None)
    else
      (if yMax < TableHeight - 1 && xMax < TableWidth - 1 then Wrappers.Some((xMax + 1, yMax + 1)) else Wrappers.None,
       if yMin > 0 && xMin > 0 then Wrappers.Some((xMin - 1, yMin - 1)) else Wrappers.None)
  }

  /** `(x, y)` is one of the ends. */
  predicate IsEnd(ends: (Wrappers.Option<Position>, Wrappers.Option<Position>), x: int, y: int)
  {
    ends.0 == Wrappers.Some((x, y)) || ends.1 == Wrappers.Some((x, y))
  }

  /**
   * The state `setAvailable` leaves in cell `(x, y)`, from its state `b`
   * before, the selection `sel` and whether the cell holds a card.
   */
  function NextBack(b: Back, x: int, y: int, sel: seq<Position>, hasCard: bool): (r: Back)
    ensures r == Ready || r == Back.Invalid ==> r == b
    ensures r == Selected ==> b == Selected || (|sel| == 1 && (x, y) == sel[0])
    ensures |sel| == 5 ==> r != Available
  {
    if |sel| == 5 then Lock(b)
    else if |sel| == 0 then (if hasCard then Available else None)
    else if |sel| == 1 then
      if (x, y) == sel[0] then Selected
      else if Near(sel[0], x, y) && (b == Unavailable || b == Available) then Available
      else Lock(b)
    else if IsEnd(Ends(sel), x, y) then Available
    else Lock(b)
  }

  /** With five chosen, every `Available` cell is locked and nothing else changes. */
  lemma FiveLocks(b: Back, x: int, y: int, sel: seq<Position>, hasCard: bool)
    requires |sel| == 5
    ensures NextBack(b, x, y, sel, hasCard) != Available
    ensures b == Available ==> NextBack(b, x, y, sel, hasCard) == Unavailable
    ensures b != Available ==> NextBack(b, x, y, sel, hasCard) == b
  {
  }

  /** With none chosen, a cell becomes `Available` if it holds a card and `None` if not. */
  lemma NoneUnselects(b: Back, x: int, y: int, sel: seq<Position>, card: Wrappers.Option<Card>)
    requires |sel| == 0
    ensures NextBack(b, x, y, sel, card.Some?) == Unselected(card)
  {
  }

  /**
   * With one chosen, the `Available` cells afterwards are exactly the cells
   * of its clamped 3x3 square that were `Unavailable` or `Available`.
   */
  lemma OneOpensSquare(g: Grid, x: int, y: int, hasCard: bool)
    requires Shaped(g) && InBounds((x, y)) && |SelectionOf(g)| == 1
    ensures NextBack(g[x][y], x, y, SelectionOf(g), hasCard) == Available <==>
      Near(SelectionOf(g)[0], x, y) && (g[x][y] == Unavailable || g[x][y] == Available)
    ensures (x, y) == SelectionOf(g)[0] ==> NextBack(g[x][y], x, y, SelectionOf(g), hasCard) == Selected
  {
    var sel := SelectionOf(g);
    if (x, y) == sel[0] {
      SelectionHas(g, (x, y));
    }
  }

  /**
   * With two to four chosen (or more than five), a cell is `Available`
   * afterwards exactly when it is one of the ends, and the ends lie on the
   * board, on the line's axis or diagonal just past its extent.
   */
  lemma ManyOpensEnds(b: Back, x: int, y: int, sel: seq<Position>, hasCard: bool)
    requires |sel| >= 2 && |sel| != 5
    requires forall k :: 0 <= k < |sel| ==> InBounds(sel[k])
    ensures NextBack(b, x, y, sel, hasCard) == Available <==> IsEnd(Ends(sel), x, y)
    ensures Ends(sel).0.Some? ==> InBounds(Ends(sel).0.value)
    ensures Ends(sel).1.Some? ==> InBounds(Ends(sel).1.value)
  {
    EndsBounded(sel);
  }

  lemma EndsBounded(sel: seq<Position>)
    requires |sel| >= 2
    requires forall k :: 0 <= k < |sel| ==> InBounds(sel[k])
    ensures Ends(sel).0.Some? ==> InBounds(Ends(sel).0.value)
    ensures Ends(sel).1.Some? ==> InBounds(Ends(sel).1.value)
  {
    var xs, ys := Xs(sel), Ys(sel);
    assert forall v :: v in xs ==> 0 <= v < TableWidth;
    assert forall v :: v in ys ==> 0 <= v < TableHeight;
    assert xs[0] in xs && ys[0] in ys;
    EndsFromBounded(sel[0], sel[1], MinMax.SeqMin(xs), MinMax.SeqMax(xs), MinMax.SeqMin(ys), MinMax.SeqMax(ys));
  }

  lemma EndsFromBounded(first: Position, second: Position, xMin: int, xMax: int, yMin: int, yMax: int)
    requires InBounds(first) && 0 <= xMin <= xMax < TableWidth && 0 <= yMin <= yMax < TableHeight
    ensures EndsFrom(first, second, xMin, xMax, yMin, yMax).0.Some? ==>
      InBounds(EndsFrom(first, second, xMin, xMax, yMin, yMax).0.value)
    ensures EndsFrom(first, second, xMin, xMax, yMin, yMax).1.Some? ==>
      InBounds(EndsFrom(first, second, xMin, xMax, yMin, yMax).1.value)
  {
  }

  // ---------------------------------------------------------------------
  // tapCell on an Available cell

  /** The snapshot has the board's shape and every position lies on it. */
  predicate Covers(snap: seq<Column>, sel: seq<Position>)
  {
    |snap| == TableWidth && (forall x :: 0 <= x < TableWidth ==> |snap[x]| == TableHeight) &&
    forall k :: 0 <= k < |sel| ==> InBounds(sel[k])
  }

  /** `selected.filter((i) => i.card != null).map((i) => i.card!)` on the card snapshot. */
  function SelectedCards(snap: seq<Column>, sel: seq<Position>): (cards: seq<Card>)
    requires Covers(snap, sel)
    ensures |cards| <= |sel|
  {
    if sel == [] then []
    else
      var cell := snap[sel[0].0][sel[0].1];
      (if cell.Some? then [cell.value] else []) + SelectedCards(snap, sel[1..])
  }

  /** The grid with the tapped cell `Selected`. */
  function Tapped(g: Grid, x: int, y: int): (t: Grid)
    requires Shaped(g) && InBounds((x, y))
    ensures Shaped(t) && t[x][y] == Selected
    ensures forall i, j :: 0 <= i < TableWidth && 0 <= j < TableHeight && (i, j) != (x, y) ==> t[i][j] == g[i][j]
  {
    g[x := g[x][y := Selected]]
  }

  /** The judgement of a five-card selection: `Selected` cells become `Ready` or `Invalid`. */
  function Judged(b: Back, valid: bool): Back
  {
    if b == Selected then (if valid then Ready else Back.Invalid) else b
  }

  /**
   * The state of cell `(i, j)` after tapping the `Available` cell `(x, y)`,
   * before the board is redrawn: the tapped cell is selected, `setAvailable`
   * runs on the new selection `sel`, and a fifth card has the hand judged.
   */
  function AfterSelect(b: Back, i: int, j: int, x: int, y: int, sel: seq<Position>,
                       hasCard: bool, valid: bool): Back
  {
    var chosen := NextBack(if (i, j) == (x, y) then Selected else b, i, j, sel, hasCard);
    if |sel| == 5 then Judged(chosen, valid) else chosen
  }

  /**
   * Tapping an `Available` cell selects it; when that makes five, every
   * selected cell is `Ready` if the hand is valid and `Invalid` if not, and
   * no cell is left `Available`.
   */
  lemma TapSelects(g: Grid, x: int, y: int, hasCard: bool, valid: bool)
    requires Shaped(g) && InBounds((x, y)) && g[x][y] == Available
    ensures var sel := SelectionOf(Tapped(g, x, y));
      (x, y) in sel &&
      (|sel| == 1 ==> AfterSelect(g[x][y], x, y, x, y, sel, hasCard, valid) == Selected) &&
      (|sel| == 5 ==> AfterSelect(g[x][y], x, y, x, y, sel, hasCard, valid) == (if valid then Ready else Back.Invalid))
  {
    SelectionHas(Tapped(g, x, y), (x, y));
  }

  /** With five chosen, every other `Selected` cell is judged alike and no cell stays `Available`. */
  lemma FiveJudged(b: Back, i: int, j: int, x: int, y: int, sel: seq<Position>, hasCard: bool, valid: bool)
    requires |sel| == 5
    ensures b == Selected ==> AfterSelect(b, i, j, x, y, sel, hasCard, valid) == (if valid then Ready else Back.Invalid)
    ensures AfterSelect(b, i, j, x, y, sel, hasCard, valid) != Available
    ensures AfterSelect(b, i, j, x, y, sel, hasCard, valid) != Selected
  {
  }

  // ---------------------------------------------------------------------
  // tapCell on a Ready cell

  /** `selected.map((i) => ({card: i.card!, x: i.x, y: i.y}))` on the card snapshot. */
  function ClaimsOf(snap: seq<Column>, sel: seq<Position>): (claims: seq<Claim>)
    requires Covers(snap, sel) && forall k :: 0 <= k < |sel| ==> snap[sel[k].0][sel[k].1].Some?
    ensures |claims| == |sel|
    ensures forall k :: 0 <= k < |sel| ==>
      claims[k] == Claim(snap[sel[k].0][sel[k].1].value, sel[k].0, sel[k].1)
  {
    seq(|sel|, k requires 0 <= k < |sel| => Claim(snap[sel[k].0][sel[k].1].value, sel[k].0, sel[k].1))
  }

  /** When every selected cell holds a card, the claimed cards are the judged cards. */
  lemma {:induction false} ClaimsCards(snap: seq<Column>, sel: seq<Position>)
    requires Covers(snap, sel) && forall k :: 0 <= k < |sel| ==> snap[sel[k].0][sel[k].1].Some?
    ensures HandCards(ClaimsOf(snap, sel)) == SelectedCards(snap, sel)
  {
    if sel != [] {
      ClaimsCards(snap, sel[1..]);
      assert ClaimsOf(snap, sel)[1..] == ClaimsOf(snap, sel[1..]);
      assert HandCards(ClaimsOf(snap, sel)) == [ClaimsOf(snap, sel)[0].card] + HandCards(ClaimsOf(snap, sel)[1..]);
    }
  }

  // ---------------------------------------------------------------------
  // The state

  class GameState {
    /** The rules engine. */
    var game: Game
    /** `cells[x][y].selected`. */
    var cells: array2<Back>
    /** `cells[x][y].card`: the card the cell showed when the board was last redrawn. */
    var cellCards: array2<Wrappers.Option<Card>>

    /** The board is laid, the grids have its size, and the cells show its cards. */
    predicate Valid()
      reads this, game, game.cards, cellCards
    {
      game.Started() &&
      cells.Length0 == TableWidth && cells.Length1 == TableHeight &&
      cellCards.Length0 == TableWidth && cellCards.Length1 == TableHeight &&
      cellCards != game.cards &&
      forall i, j :: 0 <= i < TableWidth && 0 <= j < TableHeight ==> cellCards[i, j] == game.cards[i, j]
    }

    /** The Ready precondition: every selected cell shows a card and the cards make a valid hand. */
    predicate ClaimReady()
      reads this, cells, cellCards
      requires cells.Length0 == TableWidth && cells.Length1 == TableHeight
      requires cellCards.Length0 == TableWidth && cellCards.Length1 == TableHeight
    {
      var sel := SelectionOf(BacksOf(cells));
      SelectionOrderedFacts(BacksOf(cells));
      (forall k :: 0 <= k < |sel| ==> cellCards[sel[k].0, sel[k].1].Some?) &&
      Classify(SelectedCards(ColumnsOf(cellCards), sel)).Valid?
    }

    /** `startNewGame`: a dealt board, every cell showing its card and `Available`. */
    constructor()
      ensures Valid() && fresh(game)
      ensures game.score == 0
      ensures forall i, j :: 0 <= i < TableWidth && 0 <= j < TableHeight ==> cells[i, j] == Available
    {
      var g := new Game();
      g.StartGame();
      game := g;
      cells := new Back[TableWidth, TableHeight]((i, j) => Available);
      cellCards := new Wrappers.Option<Card>[TableWidth, TableHeight]((i, j) => Wrappers.None);
      new;
      UpdateCells();
      UnselectAll();
    }

    /** `getSelected`. */
    method GetSelected() returns (selected: seq<Position>)
      requires cells.Length0 == TableWidth && cells.Length1 == TableHeight
      ensures selected == SelectionOf(BacksOf(cells))
    {
      ghost var g := BacksOf(cells);
      selected := [];
      for x := 0 to TableWidth
        invariant selected == SelectedColumns(g, x)
      {
        for y := 0 to TableHeight
          invariant selected == SelectedColumns(g, x) + SelectedInColumn(g, x, y)
        {
          if cells[x, y] == Selected || cells[x, y] == Ready {
            selected := selected + [(x, y)];
          }
        }
      }
    }

    /** `unselectAll` (state part): a card cell becomes `Available`, an empty one `None`. */
    method UnselectAll()
      requires cells.Length0 == TableWidth && cells.Length1 == TableHeight
      requires cellCards.Length0 == TableWidth && cellCards.Length1 == TableHeight
      modifies cells
      ensures forall i, j :: 0 <= i < TableWidth && 0 <= j < TableHeight ==>
        cells[i, j] == Unselected(cellCards[i, j])
    {
      for x := 0 to TableWidth
        invariant forall i, j :: 0 <= i < x && 0 <= j < TableHeight ==>
          cells[i, j] == Unselected(cellCards[i, j])
      {
        for y := 0 to TableHeight
          invariant forall i, j :: 0 <= i < TableWidth && 0 <= j < TableHeight && (i < x || (i == x && j < y)) ==>
            cells[i, j] == Unselected(cellCards[i, j])
        {
          if cellCards[x, y].Some? {
            cells[x, y] := Available;
          } else {
            cells[x, y] := None;
          }
        }
      }
    }

    /** The loop that turns every `Available` cell `Unavailable`. */
    method LockAll()
      requires cells.Length0 == TableWidth && cells.Length1 == TableHeight
      modifies cells
      ensures forall i, j :: 0 <= i < TableWidth && 0 <= j < TableHeight ==>
        cells[i, j] == Lock(old(cells[i, j]))
    {
      for x := 0 to TableWidth
        invariant forall i, j :: 0 <= i < TableWidth && 0 <= j < TableHeight ==>
          cells[i, j] == if i < x then Lock(old(cells[i, j])) else old(cells[i, j])
      {
        for y := 0 to TableHeight
          invariant forall i, j :: 0 <= i < TableWidth && 0 <= j < TableHeight ==>
            cells[i, j] == if i < x || (i == x && j < y) then Lock(old(cells[i, j])) else old(cells[i, j])
        {
          if cells[x, y] == Available {
            cells[x, y] := Unavailable;
          }
        }
      }
    }

    /** The loops over the clamped 3x3 square around `(cx, cy)`. */
    method OpenSquare(cx: int, cy: int)
      requires cells.Length0 == TableWidth && cells.Length1 == TableHeight
      modifies cells
      ensures forall i, j :: 0 <= i < TableWidth && 0 <= j < TableHeight ==>
        cells[i, j] == if Near((cx, cy), i, j) && (old(cells[i, j]) == Unavailable || old(cells[i, j]) == Available)
          then Available else old(cells[i, j])
    {
      var xHi := if cx + 1 < TableWidth - 1 then cx + 1 else TableWidth - 1;
      var yHi := if cy + 1 < TableHeight - 1 then cy + 1 else TableHeight - 1;
      var ix := if cx - 1 > 0 then cx - 1 else 0;
      while ix <= xHi
        invariant forall i, j :: 0 <= i < TableWidth && 0 <= j < TableHeight ==>
          cells[i, j] == if Near((cx, cy), i, j) && i < ix && (old(cells[i, j]) == Unavailable || old(cells[i, j]) == Available)
            then Available else old(cells[i, j])
        decreases xHi - ix
      {
        var iy := if cy - 1 > 0 then cy - 1 else 0;
        while iy <= yHi
          invariant forall i, j :: 0 <= i < TableWidth && 0 <= j < TableHeight ==>
            cells[i, j] == if Near((cx, cy), i, j) && (i < ix || (i == ix && j < iy)) &&
                              (old(cells[i, j]) == Unavailable || old(cells[i, j]) == Available)
              then Available else old(cells[i, j])
          decreases yHi - iy
        {
          if cells[ix, iy] == Unavailable || cells[ix, iy] == Available {
            cells[ix, iy] := Available;
          }
          iy := iy + 1;
        }
        ix := ix + 1;
      }
    }

    /** The range-checked `min`/`max` of the selection's coordinates. */
    method Bounds(sel: seq<Position>) returns (xMin: int, xMax: int, yMin: int, yMax: int)
      requires |sel| > 0
      ensures xMin == MinMax.SeqMin(Xs(sel)) && xMax == MinMax.SeqMax(Xs(sel))
      ensures yMin == MinMax.SeqMin(Ys(sel)) && yMax == MinMax.SeqMax(Ys(sel))
    {
      var xs := new int[|sel|](k requires 0 <= k < |sel| => sel[k].0);
      var ys := new int[|sel|](k requires 0 <= k < |sel| => sel[k].1);
      assert xs[..] == Xs(sel) && ys[..] == Ys(sel);
      var lo := MinMax.Min(ys);
      var hi := MinMax.Max(ys);
      MinMax.SeqMinUnique(Ys(sel), lo.value);
      MinMax.SeqMaxUnique(Ys(sel), hi.value);
      yMin, yMax := lo.value, hi.value;
      lo := MinMax.Min(xs);
      hi := MinMax.Max(xs);
      MinMax.SeqMinUnique(Xs(sel), lo.value);
      MinMax.SeqMaxUnique(Xs(sel), hi.value);
      xMin, xMax := lo.value, hi.value;
    }

    /** Makes the cell at `p`, if any, `Available`. */
    method Open(p: Wrappers.Option<Position>)
      requires cells.Length0 == TableWidth && cells.Length1 == TableHeight
      requires p.Some? ==> InBounds(p.value)
      modifies cells
      ensures forall i, j :: 0 <= i < TableWidth && 0 <= j < TableHeight ==>
        cells[i, j] == if p == Wrappers.Some((i, j)) then Available else old(cells[i, j])
    {
      if p.Some? {
        cells[p.value.0, p.value.1] := Available;
      }
    }

    /** Marks the cells just past the ends of a line of two or more. */
    method OpenEnds(sel: seq<Position>)
      requires cells.Length0 == TableWidth && cells.Length1 == TableHeight
      requires |sel| >= 2 && forall k :: 0 <= k < |sel| ==> InBounds(sel[k])
      modifies cells
      ensures forall i, j :: 0 <= i < TableWidth && 0 <= j < TableHeight ==>
        cells[i, j] == if IsEnd(Ends(sel), i, j) then Available else old(cells[i, j])
    {
      var xMin, xMax, yMin, yMax := Bounds(sel);
      EndsBounded(sel);
      var ends := EndsFrom(sel[0], sel[1], xMin, xMax, yMin, yMax);
      Open(ends.0);
      Open(ends.1);
    }

    /** The selection once `(x, y)` is tapped, as `getSelected` sees it. */
    function SelectionAfterTap(x: int, y: int): seq<Position>
      reads this, cells
      requires cells.Length0 == TableWidth && cells.Length1 == TableHeight && InBounds((x, y))
    {
      SelectionOf(Tapped(BacksOf(cells), x, y))
    }

    /** `GetHand` on the cards of that selection. */
    function HandAfterTap(x: int, y: int): Hand
      reads this, cells, cellCards
      requires cells.Length0 == TableWidth && cells.Length1 == TableHeight && InBounds((x, y))
      requires cellCards.Length0 == TableWidth && cellCards.Length1 == TableHeight
    {
      SelectionOrderedFacts(Tapped(BacksOf(cells), x, y));
      Classify(SelectedCards(ColumnsOf(cellCards), SelectionAfterTap(x, y)))
    }

    /** The claims a `Ready` tap hands to `ClaimHand`. */
    function ReadyClaims(): (claims: seq<Claim>)
      reads this, cells, cellCards
      requires cells.Length0 == TableWidth && cells.Length1 == TableHeight
      requires cellCards.Length0 == TableWidth && cellCards.Length1 == TableHeight
      requires ClaimReady()
      ensures Classify(HandCards(claims)).Valid?
    {
      SelectionOrderedFacts(BacksOf(cells));
      ClaimsCards(ColumnsOf(cellCards), SelectionOf(BacksOf(cells)));
      ClaimsOf(ColumnsOf(cellCards), SelectionOf(BacksOf(cells)))
    }

    /** `updateCells` (state part): each cell takes the board's card, and a `None` cell with a card becomes `Available`. */
    method UpdateCells()
      requires game.Started() && cellCards != game.cards
      requires cells.Length0 == TableWidth && cells.Length1 == TableHeight
      requires cellCards.Length0 == TableWidth && cellCards.Length1 == TableHeight
      modifies cells, cellCards
      ensures Valid()
      ensures forall i, j :: 0 <= i < TableWidth && 0 <= j < TableHeight ==>
        cells[i, j] == Refreshed(old(cells[i, j]), game.cards[i, j])
    {
      for x := 0 to TableWidth
        invariant forall i, j :: 0 <= i < TableWidth && 0 <= j < TableHeight ==>
          if i < x then cellCards[i, j] == game.cards[i, j] && cells[i, j] == Refreshed(old(cells[i, j]), game.cards[i, j])
          else cells[i, j] == old(cells[i, j])
      {
        for y := 0 to TableHeight
          invariant forall i, j :: 0 <= i < TableWidth && 0 <= j < TableHeight ==>
            if i < x || (i == x && j < y) then
              cellCards[i, j] == game.cards[i, j] && cells[i, j] == Refreshed(old(cells[i, j]), game.cards[i, j])
            else cells[i, j] == old(cells[i, j])
        {
          var card := game.cards[x, y];
          if card.Some? {
            if cells[x, y] == None {
              cells[x, y] := Available;
            }
          } else {
            cells[x, y] := None;
          }
          cellCards[x, y] := card;
        }
      }
    }

    /** The judging loop: every `Selected` cell becomes `Ready` or `Invalid`. */
    method Judge(valid: bool)
      requires cells.Length0 == TableWidth && cells.Length1 == TableHeight
      modifies cells
      ensures forall i, j :: 0 <= i < TableWidth && 0 <= j < TableHeight ==>
        cells[i, j] == Judged(old(cells[i, j]), valid)
    {
      for x := 0 to TableWidth
        invariant forall i, j :: 0 <= i < TableWidth && 0 <= j < TableHeight ==>
          cells[i, j] == if i < x then Judged(old(cells[i, j]), valid) else old(cells[i, j])
      {
        for y := 0 to TableHeight
          invariant forall i, j :: 0 <= i < TableWidth && 0 <= j < TableHeight ==>
            cells[i, j] == if i < x || (i == x && j < y) then Judged(old(cells[i, j]), valid) else old(cells[i, j])
        {
          if cells[x, y] == Selected {
            cells[x, y] := if valid then Ready else Back.Invalid;
          }
        }
      }
    }

    /** `GetHand` on the cards of the selected cells that hold one. */
    method JudgeSelection(selected: seq<Position>) returns (hand: Hand)
      requires cellCards.Length0 == TableWidth && cellCards.Length1 == TableHeight
      requires forall k :: 0 <= k < |selected| ==> InBounds(selected[k])
      ensures hand == Classify(SelectedCards(ColumnsOf(cellCards), selected))
    {
      var cards := SelectedCards(ColumnsOf(cellCards), selected);
      var given := new Card[|cards|](k requires 0 <= k < |cards| => cards[k]);
      assert given[..] == cards;
      hand := GetHand(given);
    }

    /** `tapCell` on an `Available` cell, before the board is redrawn. */
    method SelectCell(x: int, y: int)
      requires cells.Length0 == TableWidth && cells.Length1 == TableHeight && InBounds((x, y))
      requires cellCards.Length0 == TableWidth && cellCards.Length1 == TableHeight
      modifies cells
      ensures forall i, j :: 0 <= i < TableWidth && 0 <= j < TableHeight ==>
        cells[i, j] == AfterSelect(old(cells[i, j]), i, j, x, y, old(SelectionAfterTap(x, y)),
                                   cellCards[i, j].Some?, old(HandAfterTap(x, y)).Valid?)
    {
      ghost var g := BacksOf(cells);
      cells[x, y] := Selected;
      SameGrid(BacksOf(cells), Tapped(g, x, y));
      var selected := GetSelected();
      SelectionOrdered(BacksOf(cells));
      SetAvailable();
      if |selected| == 5 {
        var hand := JudgeSelection(selected);
        Judge(hand.Valid?);
      }
    }

    /** `selected.map(...)`: the claims of the selected cells, which `ClaimHand` accepts. */
    method SelectionClaims() returns (claims: seq<Claim>)
      requires Valid() && ClaimReady()
      ensures claims == ReadyClaims()
      ensures Claimable(ColumnsOf(game.cards), claims)
    {
      var selected := GetSelected();
      SelectionOrdered(BacksOf(cells));
      claims := ClaimsOf(ColumnsOf(cellCards), selected);
      SameBoard(cellCards, game.cards);
      ReadyClaimable(ColumnsOf(cellCards), ColumnsOf(game.cards), selected);
    }

    /** `tapCell` on a `Ready` cell, before the board is redrawn: the selection is claimed. */
    method ClaimSelection()
      requires Valid() && ClaimReady()
      modifies cells, game, game.cards
      ensures game.Started() && game.cards == old(game.cards)
      ensures game.score == old(game.score) + Classify(HandCards(old(ReadyClaims()))).score
      ensures Claimed(old(ColumnsOf(game.cards)), old(ReadyClaims()),
                      Classify(HandCards(old(ReadyClaims()))).newCards, ColumnsOf(game.cards))
      ensures forall i, j :: 0 <= i < TableWidth && 0 <= j < TableHeight ==>
        cells[i, j] == Unselected(cellCards[i, j])
    {
      var claims := SelectionClaims();
      var event := game.ClaimHand(claims);
      UnselectAll();
    }

    /** `tapCell`: the transition for the tapped cell's state, then `updateCells`. */
    method TapCell(x: int, y: int)
      requires Valid() && InBounds((x, y))
      requires cells[x, y] == Ready ==> ClaimReady()
      modifies cells, cellCards, game, game.cards
      ensures Valid() && game.cards == old(game.cards)
      ensures old(cells[x, y]) != Ready ==>
        game.score == old(game.score) && ColumnsOf(game.cards) == old(ColumnsOf(game.cards))
      ensures old(cells[x, y]) == Available ==>
        forall i, j :: 0 <= i < TableWidth && 0 <= j < TableHeight ==>
          cells[i, j] == Refreshed(AfterSelect(old(cells[i, j]), i, j, x, y, old(SelectionAfterTap(x, y)),
                                               game.cards[i, j].Some?, old(HandAfterTap(x, y)).Valid?),
                                   game.cards[i, j])
      ensures old(cells[x, y]) == Ready ==>
        game.score == old(game.score) + Classify(HandCards(old(ReadyClaims()))).score &&
        Claimed(old(ColumnsOf(game.cards)), old(ReadyClaims()),
                Classify(HandCards(old(ReadyClaims()))).newCards, ColumnsOf(game.cards))
      ensures old(cells[x, y]) != Available ==>
        forall i, j :: 0 <= i < TableWidth && 0 <= j < TableHeight ==>
          cells[i, j] == Unselected(game.cards[i, j])
    {
      match cells[x, y] {
        case Available =>
          SelectCell(x, y);
        case Ready =>
          ClaimSelection();
        case _ =>
          UnselectAll();
      }
      UpdateCells();
    }

    /** `setAvailable`: every cell moves to `NextBack` of its state, for the selection before the call. */
    method SetAvailable()
      requires cells.Length0 == TableWidth && cells.Length1 == TableHeight
      requires cellCards.Length0 == TableWidth && cellCards.Length1 == TableHeight
      modifies cells
      ensures forall i, j :: 0 <= i < TableWidth && 0 <= j < TableHeight ==>
        cells[i, j] == NextBack(old(cells[i, j]), i, j, old(SelectionOf(BacksOf(cells))), cellCards[i, j].Some?)
    {
      var selected := GetSelected();
      SelectionOrdered(BacksOf(cells));
      if |selected| == 5 {
        LockAll();
      } else if |selected| == 0 {
        UnselectAll();
      } else if |selected| == 1 {
        OpenAround(selected);
      } else {
        OpenLine(selected);
      }
    }

    /** `setAvailable` with one cell chosen: its clamped 3x3 square opens and it stays `Selected`. */
    method OpenAround(sel: seq<Position>)
      requires cells.Length0 == TableWidth && cells.Length1 == TableHeight
      requires |sel| == 1 && InBounds(sel[0])
      modifies cells
      ensures forall i, j :: 0 <= i < TableWidth && 0 <= j < TableHeight ==>
        cells[i, j] == NextBack(old(cells[i, j]), i, j, sel, true)
    {
      LockAll();
      OpenSquare(sel[0].0, sel[0].1);
      cells[sel[0].0, sel[0].1] := Selected;
    }

    /** `setAvailable` with two to four chosen: only the ends of the line open. */
    method OpenLine(sel: seq<Position>)
      requires cells.Length0 == TableWidth && cells.Length1 == TableHeight
      requires |sel| >= 2 && |sel| != 5 && forall k :: 0 <= k < |sel| ==> InBounds(sel[k])
      modifies cells
      ensures forall i, j :: 0 <= i < TableWidth && 0 <= j < TableHeight ==>
        cells[i, j] == NextBack(old(cells[i, j]), i, j, sel, true)
    {
      LockAll();
      OpenEnds(sel);
    }
  }

  /** Helper fact for `ClaimReady`'s well-formedness. */
  lemma SelectionOrderedFacts(g: Grid)
    requires Shaped(g)
    ensures forall k :: 0 <= k < |SelectionOf(g)| ==> InBounds(SelectionOf(g)[k])
  {
    SelectionOrdered(g);
  }

  /** The selection's claims satisfy `ClaimHand`'s demands on the board the cells show. */
  lemma ReadyClaimable(snap: seq<Column>, board: seq<Column>, sel: seq<Position>)
    requires snap == board && Covers(snap, sel)
    requires forall k :: 0 <= k < |sel| ==> snap[sel[k].0][sel[k].1].Some?
    requires forall k, l :: 0 <= k < l < |sel| ==> Before(sel[k], sel[l])
    ensures Claimable(board, ClaimsOf(snap, sel))
  {
  }

  /** Two grids of cards with equal cells have equal columns. */
  lemma SameBoard(a: array2<Wrappers.Option<Card>>, b: array2<Wrappers.Option<Card>>)
    requires a.Length0 == b.Length0 == TableWidth && a.Length1 == b.Length1 == TableHeight
    requires forall i, j :: 0 <= i < TableWidth && 0 <= j < TableHeight ==> a[i, j] == b[i, j]
    ensures ColumnsOf(a) == ColumnsOf(b)
  {
    forall x | 0 <= x < TableWidth
      ensures ColumnsOf(a)[x] == ColumnsOf(b)[x]
    {
    }
  }
}
