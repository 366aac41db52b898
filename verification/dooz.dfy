/** The dooz games: five-field rules, one move, and whole games.

    The normal and the classic game place a mark on the chosen cell; the gravity game
    lets it fall to the last empty cell of the chosen column. Everything after the
    placement is shared. */
module Dooz {
  import opened Lines

  // Side, line length, the two seats, and whether pieces fall.
  datatype Rules = Rules(n: nat, k: nat, player1: int, player2: int, gravity: bool)

  // turn is the id of the player to move, 0 after the end of a game.
  datatype Match = Match(grid: Grid, turn: int)

  // What the player who pressed a cell is told.
  datatype Outcome = NotYourTurn | Taken | Moved | Won | Drawn

  predicate ValidRules(r: Rules) {
    r.n > 0 && r.k > 0 && r.player1 != 0 && r.player2 != 0 && r.player1 != r.player2
  }

  predicate Accepted(o: Outcome) {
    o.Moved? || o.Won? || o.Drawn?
  }

  function EmptyGrid(n: nat): (g: Grid)
    ensures Square(g, n)
  {
    seq(n, j => seq(n, i => 0))
  }

  predicate Full(g: Grid, n: nat)
    requires Square(g, n)
  {
    forall x, y | 0 <= x < n && 0 <= y < n :: g[y][x] != 0
  }

  // The last empty cell of column y at or before x, -1 if there is none.
  function Landing(g: Grid, n: nat, x: int, y: int): int
    requires Square(g, n) && 0 <= y < n && -1 <= x < n
    decreases x
  {
    if x < 0 then -1 else if g[y][x] == 0 then x else Landing(g, n, x - 1, y)
  }

  function Mark(r: Rules, player: int): int {
    if player == r.player2 then 2 else 1
  }

  // The mark is on the board at (x, y): pass the turn, or end and reset the game.
  function Settle(r: Rules, g: Grid, player: int, x: int, y: int): (Match, Outcome)
    requires Square(g, r.n)
  {
    if LocalWin(g, r.n, r.k, Mark(r, player), x, y) then (Match(EmptyGrid(r.n), 0), Won)
    else if Full(g, r.n) then (Match(EmptyGrid(r.n), 0), Drawn)
    else (Match(g, if player == r.player1 then r.player2 else r.player1), Moved)
  }

  // The cell a press on (x, y) would fill, (-1, y) if it is refused.
  function Target(r: Rules, g: Grid, x: int, y: int): (int, int)
    requires Square(g, r.n) && Inside(r.n, x, y)
  {
    if r.gravity then (Landing(g, r.n, r.n - 1, y), y)
    else if g[y][x] == 0 then (x, y) else (-1, y)
  }

  function Press(r: Rules, s: Match, player: int, x: int, y: int): (Match, Outcome)
    requires Square(s.grid, r.n) && Inside(r.n, x, y)
  {
    if s.turn != player then (s, NotYourTurn)
    else
      var (x', y') := Target(r, s.grid, x, y);
      if Inside(r.n, x', y')
      then Settle(r, Put(s.grid, r.n, x', y', Mark(r, player)), player, x', y')
      else (s, Taken)
  }

  // ----- the state every game keeps -----

  ghost function Cells(g: Grid, n: nat, m: int): set<(int, int)>
    requires Square(g, n)
  {
    set x, y | 0 <= x < n && 0 <= y < n && g[y][x] == m :: (x, y)
  }

  // No gap under a piece: pieces of a column fill its far end.
  ghost predicate Packed(g: Grid, n: nat)
    requires Square(g, n)
  {
    forall y, x, x' | 0 <= y < n && 0 <= x < x' < n && g[y][x] != 0 :: g[y][x'] != 0
  }

  ghost predicate Inv(r: Rules, s: Match) {
    && Square(s.grid, r.n)
    && (s.turn == 0 ==> s.grid == EmptyGrid(r.n))
    && (s.turn != 0 ==>
          && s.turn in {r.player1, r.player2}
          && (forall x, y | 0 <= x < r.n && 0 <= y < r.n :: 0 <= s.grid[y][x] <= 2)
          && !HasLine(s.grid, r.n, r.k, 1) && !HasLine(s.grid, r.n, r.k, 2)
          && !Full(s.grid, r.n)
          && |Cells(s.grid, r.n, 1)| - |Cells(s.grid, r.n, 2)|
             == (if s.turn == r.player1 then 0 else 1)
          && (r.gravity ==> Packed(s.grid, r.n)))
  }

  function Fresh(r: Rules): Match {
    Match(EmptyGrid(r.n), r.player1)
  }

  lemma FreshInv(r: Rules)
    requires ValidRules(r)
    ensures Inv(r, Fresh(r))
  {
    var g := EmptyGrid(r.n);
    forall m | m != 0 ensures !HasLine(g, r.n, r.k, m) {
      forall x, y, d ensures !Span(g, r.n, m, x, y, d, 0, r.k) {
        assert !On(g, r.n, m, x, y, d, 0);
      }
    }
    assert Cells(g, r.n, 1) == {} && Cells(g, r.n, 2) == {};
    assert g[0][0] == 0;
  }

  lemma FullHasNoEmptyCell(g: Grid, n: nat)
    requires Square(g, n)
    ensures Full(g, n) <==> Cells(g, n, 0) == {}
  {
    forall x, y | 0 <= x < n && 0 <= y < n ensures g[y][x] == 0 <==> (x, y) in Cells(g, n, 0) {
    }
  }

  lemma {:induction false} LandingIsLastEmpty(g: Grid, n: nat, x: int, y: int)
    requires Square(g, n) && 0 <= y < n && -1 <= x < n
    ensures -1 <= Landing(g, n, x, y) <= x
    ensures Landing(g, n, x, y) >= 0 ==> g[y][Landing(g, n, x, y)] == 0
    ensures forall i | Landing(g, n, x, y) < i <= x :: g[y][i] != 0
  {
    if x >= 0 && g[y][x] != 0 {
      LandingIsLastEmpty(g, n, x - 1, y);
    }
  }

  // A cell to fill is a real empty cell, and none is offered only when the press must fail:
  // the cell is taken, or in the gravity game the whole column is.
  lemma TargetIsEmptyCell(r: Rules, g: Grid, x: int, y: int)
    requires Square(g, r.n) && Inside(r.n, x, y)
    ensures var (x', y') := Target(r, g, x, y);
      && y' == y
      && (Inside(r.n, x', y') ==> g[y'][x'] == 0)
      && (Inside(r.n, x', y') <==>
            if r.gravity then exists i | 0 <= i < r.n :: g[y][i] == 0 else g[y][x] == 0)
      && (r.gravity ==> forall i | 0 <= i < r.n && x' < i :: g[y][i] != 0)
      && (!r.gravity && Inside(r.n, x', y') ==> x' == x)
  {
    LandingIsLastEmpty(g, r.n, r.n - 1, y);
  }

  lemma PutCells(g: Grid, n: nat, x: int, y: int, m: int)
    requires Square(g, n) && Inside(n, x, y) && g[y][x] == 0 && m != 0
    ensures |Cells(Put(g, n, x, y, m), n, m)| == |Cells(g, n, m)| + 1
    ensures |Cells(Put(g, n, x, y, m), n, 0)| == |Cells(g, n, 0)| - 1
    ensures forall o | o != m && o != 0 :: Cells(Put(g, n, x, y, m), n, o) == Cells(g, n, o)
  {
    var g' := Put(g, n, x, y, m);
    assert Cells(g', n, m) == Cells(g, n, m) + {(x, y)};
    assert (x, y) in Cells(g, n, 0);
    assert Cells(g', n, 0) == Cells(g, n, 0) - {(x, y)};
  }

  /** One press, from any reachable state: what it does and what it keeps. */
  lemma PressKeepsInv(r: Rules, s: Match, player: int, x: int, y: int)
    requires ValidRules(r) && Inv(r, s) && Inside(r.n, x, y) && player in {r.player1, r.player2}
    ensures var (s', o) := Press(r, s, player, x, y); var (x', y') := Target(r, s.grid, x, y);
      && Inv(r, s')
      && (o.NotYourTurn? <==> s.turn != player)
      && (!Accepted(o) ==> s' == s)
      && (Accepted(o) <==> s.turn == player && Inside(r.n, x', y'))
      && (Accepted(o) ==>
            var g' := Put(s.grid, r.n, x', y', Mark(r, player));
            && (o.Won? <==> HasLine(g', r.n, r.k, Mark(r, player)))
            && (o.Drawn? <==> Cells(g', r.n, 0) == {} && !HasLine(g', r.n, r.k, Mark(r, player)))
            && (o.Moved? ==> s'.grid == g' && s'.turn != player && s'.turn != 0)
            && (!o.Moved? ==> s' == Match(EmptyGrid(r.n), 0)))
  {
    TargetIsEmptyCell(r, s.grid, x, y);
    var (x', y') := Target(r, s.grid, x, y);
    var m := Mark(r, player);
    if s.turn == player && Inside(r.n, x', y') {
      LocalWinIsGlobal(s.grid, r.n, r.k, m, x', y');
      NoLineOfOtherMark(s.grid, r.n, r.k, m, 3 - m, x', y');
      PutCells(s.grid, r.n, x', y', m);
      FullHasNoEmptyCell(Put(s.grid, r.n, x', y', m), r.n);
    }
  }

  /** While a game runs, the player to move has a cell to press that is accepted. */
  lemma MoverIsNeverStuck(r: Rules, s: Match) returns (x: int, y: int)
    requires ValidRules(r) && Inv(r, s) && s.turn != 0
    ensures Inside(r.n, x, y) && Accepted(Press(r, s, s.turn, x, y).1)
  {
    x, y :| 0 <= x < r.n && 0 <= y < r.n && s.grid[y][x] == 0;
    PressKeepsInv(r, s, s.turn, x, y);
    TargetIsEmptyCell(r, s.grid, x, y);
  }

  // ----- whole games -----

  datatype Touch = Touch(player: int, x: int, y: int)

  predicate ValidTouch(r: Rules, t: Touch) {
    t.player in {r.player1, r.player2} && Inside(r.n, t.x, t.y)
  }

  // Presses are handled one at a time; the result is the last state and the number accepted.
  ghost function Play(r: Rules, touches: seq<Touch>): (res: (Match, nat))
    requires ValidRules(r) && forall t | t in touches :: ValidTouch(r, t)
    ensures Square(res.0.grid, r.n)
  {
    if touches == [] then (Fresh(r), 0)
    else
      var t := touches[|touches| - 1];
      assert t in touches && ValidTouch(r, t);
      var (s, a) := Play(r, touches[..|touches| - 1]);
      var (s', o) := Press(r, s, t.player, t.x, t.y);
      assert Square(s'.grid, r.n);
      (s', if Accepted(o) then a + 1 else a)
  }

  lemma {:induction false} RowSize(n: nat, y: int)
    ensures |set x | 0 <= x < n :: (x, y)| == n
  {
    if n == 0 {
      assert (set x | 0 <= x < n :: (x, y)) == {};
    } else {
      RowSize(n - 1, y);
      assert (set x | 0 <= x < n :: (x, y)) == (set x | 0 <= x < n - 1 :: (x, y)) + {(n - 1, y)};
    }
  }

  lemma {:induction false} RectangleSize(n: nat, h: nat)
    ensures |set x, y | 0 <= x < n && 0 <= y < h :: (x, y)| == n * h
  {
    var all := set x, y | 0 <= x < n && 0 <= y < h :: (x, y);
    if h == 0 {
      assert all == {};
    } else {
      RectangleSize(n, h - 1);
      AddRow(n, h - 1);
      assert n * h == n * (h - 1) + n;
    }
  }

  lemma AddRow(n: nat, last: nat)
    ensures |set x, y | 0 <= x < n && 0 <= y < last + 1 :: (x, y)|
         == |set x, y | 0 <= x < n && 0 <= y < last :: (x, y)| + n
  {
    var below := set x, y | 0 <= x < n && 0 <= y < last :: (x, y);
    var row := set x | 0 <= x < n :: (x, last);
    RowSize(n, last);
    assert (set x, y | 0 <= x < n && 0 <= y < last + 1 :: (x, y)) == below + row;
    assert below !! row;
  }

  /** Over every game: the invariant holds, each accepted press uses up one empty cell,
      and so no game accepts more than n * n presses. */
  lemma {:induction false} GamesEnd(r: Rules, touches: seq<Touch>)
    requires ValidRules(r) && forall t | t in touches :: ValidTouch(r, t)
    ensures var (s, a) := Play(r, touches);
      && Inv(r, s)
      && a <= r.n * r.n
      && (s.turn != 0 ==> a + |Cells(s.grid, r.n, 0)| == r.n * r.n)
  {
    if touches == [] {
      FreshInv(r);
      RectangleSize(r.n, r.n);
      assert Cells(EmptyGrid(r.n), r.n, 0) == set x, y | 0 <= x < r.n && 0 <= y < r.n :: (x, y);
    } else {
      var t := touches[|touches| - 1];
      var rest := touches[..|touches| - 1];
      assert t in touches;
      GamesEnd(r, rest);
      var (s, a) := Play(r, rest);
      PressKeepsInv(r, s, t.player, t.x, t.y);
      var (x', y') := Target(r, s.grid, t.x, t.y);
      TargetIsEmptyCell(r, s.grid, t.x, t.y);
      if Accepted(Press(r, s, t.player, t.x, t.y).1) {
        PutCells(s.grid, r.n, x', y', Mark(r, t.player));
      }
    }
  }
}
