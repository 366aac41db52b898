/** Marks on a square board and the lines they form.

    A board is indexed as in the source: g[y][x], where y picks the row slice and x the
    cell in it. The side n and the line length k are parameters; the dooz-4 games use
    (7, 4) and the classic game (3, 3). */
module Lines {

  type Grid = seq<seq<int>>

  datatype Dir = Dir(dx: int, dy: int)

  // The four line directions, in the order the win check tries them.
  const DIRECTIONS: seq<Dir> := [Dir(0, 1), Dir(1, 0), Dir(1, 1), Dir(1, -1)]

  predicate Square(g: Grid, n: nat) {
    |g| == n && forall j :: 0 <= j < n ==> |g[j]| == n
  }

  predicate Inside(n: nat, x: int, y: int) {
    0 <= x < n && 0 <= y < n
  }

  // Cell (x, y) exists and carries mark m.
  predicate Holds(g: Grid, n: nat, m: int, x: int, y: int)
    requires Square(g, n)
  {
    Inside(n, x, y) && g[y][x] == m
  }

  function Put(g: Grid, n: nat, x: int, y: int, m: int): (r: Grid)
    requires Square(g, n) && Inside(n, x, y)
    ensures Square(r, n)
  {
    g[y := g[y][x := m]]
  }

  // Boards with the same cells are the same board.
  lemma SameCells(g: Grid, h: Grid, n: nat)
    requires Square(g, n) && Square(h, n)
    requires forall x, y | 0 <= x < n && 0 <= y < n :: g[y][x] == h[y][x]
    ensures g == h
  {
    forall y | 0 <= y < n ensures g[y] == h[y] {
      assert |g[y]| == |h[y]| == n;
    }
  }

  predicate Unit(d: Dir) {
    -1 <= d.dx <= 1 && -1 <= d.dy <= 1 && (d.dx != 0 || d.dy != 0)
  }

  function Opposite(d: Dir): Dir {
    Dir(-d.dx, -d.dy)
  }

  // t unit steps of size d from p, written without a product; t may be negative.
  function Shift(p: int, d: int, t: int): int {
    if d == 0 then p else if d > 0 then p + t else p - t
  }

  // The cell t steps away from (x, y) in direction d carries m.
  predicate On(g: Grid, n: nat, m: int, x: int, y: int, d: Dir, t: int)
    requires Square(g, n)
  {
    Holds(g, n, m, Shift(x, d.dx, t), Shift(y, d.dy, t))
  }

  // The k offsets a, ..., a + k - 1 from (x, y) in direction d all carry m.
  ghost predicate Span(g: Grid, n: nat, m: int, x: int, y: int, d: Dir, a: int, k: nat)
    requires Square(g, n)
  {
    forall t :: a <= t < a + k ==> On(g, n, m, x, y, d, t)
  }

  /** The whole-board search, whatever the win check tries: some start cell and any of the eight
      neighbouring directions give k cells in a row. */
  ghost predicate HasLine(g: Grid, n: nat, k: nat, m: int)
    requires Square(g, n)
  {
    exists x, y, d | Unit(d) :: Span(g, n, m, x, y, d, 0, k)
  }

  // Steps that stay on the board from (x, y) in direction d; the measure of a scan.
  function Reach(n: nat, x: int, y: int, d: Dir): int {
    if d.dx > 0 then n - x else if d.dx < 0 then x + 1
    else if d.dy > 0 then n - y else y + 1
  }

  // How many consecutive cells carry m, from (x, y) on, in direction d.
  function Streak(g: Grid, n: nat, m: int, x: int, y: int, d: Dir): nat
    requires Square(g, n) && Unit(d)
    decreases if Inside(n, x, y) then Reach(n, x, y, d) else 0
  {
    if Holds(g, n, m, x, y) then 1 + Streak(g, n, m, x + d.dx, y + d.dy, d) else 0
  }

  // What one direction of the win check counts around (x, y), the cell itself included.
  function Count(g: Grid, n: nat, m: int, x: int, y: int, d: Dir): nat
    requires Square(g, n) && Unit(d)
  {
    1 + Streak(g, n, m, x + d.dx, y + d.dy, d)
      + Streak(g, n, m, x - d.dx, y - d.dy, Opposite(d))
  }

  predicate LocalWin(g: Grid, n: nat, k: nat, m: int, x: int, y: int)
    requires Square(g, n)
  {
    exists d | d in DIRECTIONS :: Count(g, n, m, x, y, d) >= k
  }

  lemma {:induction false} StreakIsMaximal(g: Grid, n: nat, m: int, x: int, y: int, d: Dir)
    requires Square(g, n) && Unit(d)
    ensures Span(g, n, m, x, y, d, 0, Streak(g, n, m, x, y, d))
    ensures !On(g, n, m, x, y, d, Streak(g, n, m, x, y, d))
    decreases if Inside(n, x, y) then Reach(n, x, y, d) else 0
  {
    if Holds(g, n, m, x, y) {
      var x', y' := x + d.dx, y + d.dy;
      StreakIsMaximal(g, n, m, x', y', d);
      var c := Streak(g, n, m, x', y', d);
      forall t | 0 <= t < c + 1 ensures On(g, n, m, x, y, d, t) {
        if t > 0 { assert On(g, n, m, x', y', d, t - 1); }
      }
      assert !On(g, n, m, x', y', d, c);
    }
  }

  // Scanning on from a neighbour is scanning from the cell, one offset further.
  lemma Neighbour(g: Grid, n: nat, m: int, x: int, y: int, d: Dir, t: int)
    requires Square(g, n) && Unit(d)
    ensures On(g, n, m, x + d.dx, y + d.dy, d, t) == On(g, n, m, x, y, d, t + 1)
  {
  }

  // The marked cells just ahead of (x, y), and the first one that is not.
  lemma Ahead(g: Grid, n: nat, m: int, x: int, y: int, d: Dir) returns (f: int)
    requires Square(g, n) && Unit(d)
    ensures f == Streak(g, n, m, x + d.dx, y + d.dy, d)
    ensures Span(g, n, m, x, y, d, 1, f) && !On(g, n, m, x, y, d, f + 1)
  {
    f := Streak(g, n, m, x + d.dx, y + d.dy, d);
    StreakIsMaximal(g, n, m, x + d.dx, y + d.dy, d);
    Neighbour(g, n, m, x, y, d, f);
    forall t | 1 <= t < 1 + f ensures On(g, n, m, x, y, d, t) {
      Neighbour(g, n, m, x, y, d, t - 1);
    }
  }

  // Walking the other way is walking to negative offsets.
  lemma Flip(g: Grid, n: nat, m: int, x: int, y: int, d: Dir, t: int)
    requires Square(g, n) && Unit(d)
    ensures On(g, n, m, x, y, Opposite(d), t) == On(g, n, m, x, y, d, -t)
  {
  }

  // The marked offsets around a marked cell: a whole interval, closed off on both sides.
  lemma StreaksAround(g: Grid, n: nat, m: int, x: int, y: int, d: Dir)
    returns (b: int, f: int)
    requires Square(g, n) && Unit(d) && Holds(g, n, m, x, y)
    ensures b >= 0 && f >= 0 && Count(g, n, m, x, y, d) == b + 1 + f
    ensures Span(g, n, m, x, y, d, -b, b + 1 + f)
    ensures !On(g, n, m, x, y, d, f + 1) && !On(g, n, m, x, y, d, -b - 1)
  {
    f := Ahead(g, n, m, x, y, d);
    b := Ahead(g, n, m, x, y, Opposite(d));
    Flip(g, n, m, x, y, d, b + 1);
    forall t | -b <= t < 1 + f ensures On(g, n, m, x, y, d, t) {
      if t < 0 {
        Flip(g, n, m, x, y, d, -t);
      }
    }
  }

  /** One direction: the count around a marked cell reaches k exactly when some k
      consecutive offsets that include the cell are all marked. */
  lemma CountIsLongestSpan(g: Grid, n: nat, k: nat, m: int, x: int, y: int, d: Dir)
    requires Square(g, n) && Unit(d) && Holds(g, n, m, x, y) && k > 0
    ensures Count(g, n, m, x, y, d) >= k
       <==> exists s :: s <= 0 < s + k && Span(g, n, m, x, y, d, s, k)
  {
    var b, f := StreaksAround(g, n, m, x, y, d);
    if b + 1 + f >= k {
      var s := if b < k - 1 then -b else 1 - k;
      assert Span(g, n, m, x, y, d, s, k);
    }
    if s :| s <= 0 < s + k && Span(g, n, m, x, y, d, s, k) {
      assert !(s <= -b - 1 < s + k) && !(s <= f + 1 < s + k);
    }
  }

  // A line seen from one of its own cells, s steps after the start.
  lemma Recentre(g: Grid, n: nat, m: int, x: int, y: int, d: Dir, a: int, k: nat, s: int)
    requires Square(g, n) && Unit(d)
    ensures Span(g, n, m, x, y, d, a, k)
       <==> Span(g, n, m, Shift(x, d.dx, s), Shift(y, d.dy, s), d, a - s, k)
  {
    var x', y' := Shift(x, d.dx, s), Shift(y, d.dy, s);
    if Span(g, n, m, x', y', d, a - s, k) {
      forall t | a <= t < a + k ensures On(g, n, m, x, y, d, t) {
        assert On(g, n, m, x', y', d, t - s);
      }
    }
    if Span(g, n, m, x, y, d, a, k) {
      forall t | a - s <= t < a - s + k ensures On(g, n, m, x', y', d, t) {
        assert On(g, n, m, x, y, d, t + s);
      }
    }
  }

  // A span that was not there before the mark was placed runs through the placed cell.
  lemma NewSpanMeetsCell(g: Grid, n: nat, k: nat, m: int, x: int, y: int, x0: int, y0: int, d: Dir)
    returns (s: int)
    requires Square(g, n) && Inside(n, x, y)
    requires Span(Put(g, n, x, y, m), n, m, x0, y0, d, 0, k)
    requires !Span(g, n, m, x0, y0, d, 0, k)
    ensures 0 <= s < k && Shift(x0, d.dx, s) == x && Shift(y0, d.dy, s) == y
  {
    s :| 0 <= s < k && !On(g, n, m, x0, y0, d, s);
    assert On(Put(g, n, x, y, m), n, m, x0, y0, d, s);
  }

  lemma LocalWinGivesLine(g: Grid, n: nat, k: nat, m: int, x: int, y: int, d: Dir)
    requires Square(g, n) && Holds(g, n, m, x, y) && k > 0 && d in DIRECTIONS
    requires Count(g, n, m, x, y, d) >= k
    ensures HasLine(g, n, k, m)
  {
    CountIsLongestSpan(g, n, k, m, x, y, d);
    var s :| s <= 0 < s + k && Span(g, n, m, x, y, d, s, k);
    Recentre(g, n, m, x, y, d, s, k, s);
  }

  lemma NewLineIsLocal(g: Grid, n: nat, k: nat, m: int, x: int, y: int, x0: int, y0: int, d: Dir)
    requires Square(g, n) && Inside(n, x, y) && k > 0 && Unit(d)
    requires !Span(g, n, m, x0, y0, d, 0, k)
    requires Span(Put(g, n, x, y, m), n, m, x0, y0, d, 0, k)
    ensures Count(Put(g, n, x, y, m), n, m, x, y, d) >= k
  {
    var g' := Put(g, n, x, y, m);
    var s := NewSpanMeetsCell(g, n, k, m, x, y, x0, y0, d);
    Recentre(g', n, m, x0, y0, d, 0, k, s);
    CountIsLongestSpan(g', n, k, m, x, y, d);
  }

  // A line in some direction is a line in the opposite one, seen from its other end.
  lemma LineFromOtherEnd(g: Grid, n: nat, k: nat, m: int, x: int, y: int, d: Dir)
    requires Square(g, n) && Unit(d) && k > 0 && Span(g, n, m, x, y, d, 0, k)
    ensures Span(g, n, m, Shift(x, d.dx, k - 1), Shift(y, d.dy, k - 1), Opposite(d), 0, k)
  {
    var x', y' := Shift(x, d.dx, k - 1), Shift(y, d.dy, k - 1);
    Recentre(g, n, m, x, y, d, 0, k, k - 1);
    forall t | 0 <= t < k ensures On(g, n, m, x', y', Opposite(d), t) {
      Flip(g, n, m, x', y', d, t);
    }
  }

  /** Four directions are enough: a line in any of the eight is a line in one of those tried. */
  lemma FourDirectionsSuffice(g: Grid, n: nat, k: nat, m: int)
    requires Square(g, n) && k > 0
    ensures HasLine(g, n, k, m) <==> exists x, y, d | d in DIRECTIONS :: Span(g, n, m, x, y, d, 0, k)
  {
    if HasLine(g, n, k, m) {
      var x, y, d :| Unit(d) && Span(g, n, m, x, y, d, 0, k);
      if d !in DIRECTIONS {
        LineFromOtherEnd(g, n, k, m, x, y, d);
        assert Opposite(d) in DIRECTIONS;
      }
    }
  }

  /** The scan through the last cell finds a line exactly when the whole board has one. */
  lemma LocalWinIsGlobal(g: Grid, n: nat, k: nat, m: int, x: int, y: int)
    requires Square(g, n) && Inside(n, x, y)
    requires !HasLine(g, n, k, m)
    ensures LocalWin(Put(g, n, x, y, m), n, k, m, x, y) <==> HasLine(Put(g, n, x, y, m), n, k, m)
  {
    var g' := Put(g, n, x, y, m);
    assert !Span(g, n, m, 0, 0, DIRECTIONS[0], 0, k);
    if LocalWin(g', n, k, m, x, y) {
      var d :| d in DIRECTIONS && Count(g', n, m, x, y, d) >= k;
      LocalWinGivesLine(g', n, k, m, x, y, d);
    }
    if HasLine(g', n, k, m) {
      FourDirectionsSuffice(g', n, k, m);
      var x0, y0, d :| d in DIRECTIONS && Span(g', n, m, x0, y0, d, 0, k);
      NewLineIsLocal(g, n, k, m, x, y, x0, y0, d);
    }
  }

  /** Placing one player's mark never completes a line of another mark. */
  lemma NoLineOfOtherMark(g: Grid, n: nat, k: nat, m: int, other: int, x: int, y: int)
    requires Square(g, n) && Inside(n, x, y) && other != m
    requires !HasLine(g, n, k, other)
    ensures !HasLine(Put(g, n, x, y, m), n, k, other)
  {
    var g' := Put(g, n, x, y, m);
    if HasLine(g', n, k, other) {
      var x0, y0, d :| Unit(d) && Span(g', n, other, x0, y0, d, 0, k);
      forall t | 0 <= t < k ensures On(g, n, other, x0, y0, d, t) {
        assert On(g', n, other, x0, y0, d, t);
      }
      assert Span(g, n, other, x0, y0, d, 0, k);
    }
  }
}
