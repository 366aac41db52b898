/** The dooz games as objects: a board updated in place and the room whose turn it moves. */
module DoozBoard {
  import opened Lines
  import opened Dooz

  // The part of a room a move touches.
  class Room {
    const player1: int
    const player2: int
    var turn: int

    constructor (player1: int, player2: int, turn: int)
      ensures this.player1 == player1 && this.player2 == player2 && this.turn == turn
    {
      this.player1, this.player2, this.turn := player1, player2, turn;
    }
  }

  class Game {
    const n: nat
    const k: nat
    const gravity: bool
    const board: array2<int>

    ghost predicate Valid() {
      board.Length0 == n && board.Length1 == n
    }

    // The board as a value.
    ghost function Contents(): (g: Grid)
      requires Valid()
      reads board
      ensures Square(g, n)
      ensures forall x, y | 0 <= x < n && 0 <= y < n :: g[y][x] == board[y, x]
    {
      seq(n, j requires 0 <= j < n reads board =>
        seq(n, i requires 0 <= i < n reads board => board[j, i]))
    }

    ghost function RulesFor(room: Room): Rules {
      Rules(n, k, room.player1, room.player2, gravity)
    }

    constructor (n: nat, k: nat, gravity: bool)
      ensures Valid() && fresh(board) && this.n == n && this.k == k && this.gravity == gravity
      ensures Contents() == EmptyGrid(n)
    {
      this.n, this.k, this.gravity := n, k, gravity;
      board := new int[n, n]((i, j) => 0);
      new;
      SameCells(Contents(), EmptyGrid(n), n);
    }

    // A board stored before.
    constructor Load(n: nat, k: nat, gravity: bool, g: Grid)
      requires Square(g, n)
      ensures Valid() && fresh(board) && this.n == n && this.k == k && this.gravity == gravity
      ensures Contents() == g
    {
      this.n, this.k, this.gravity := n, k, gravity;
      board := new int[n, n]((j, i) requires 0 <= j < n && 0 <= i < n && Square(g, n) => g[j][i]);
      new;
      SameCells(Contents(), g, n);
    }

    // The board to store.
    method Dump() returns (g: Grid)
      requires Valid()
      ensures g == Contents()
    {
      g := [];
      for j := 0 to n
        invariant |g| == j
        invariant forall y | 0 <= y < j :: |g[y]| == n && forall x | 0 <= x < n :: g[y][x] == board[y, x]
      {
        var row: seq<int> := [];
        for i := 0 to n
          invariant |row| == i && forall x | 0 <= x < i :: row[x] == board[j, x]
        {
          row := row + [board[j, i]];
        }
        g := g + [row];
      }
      SameCells(g, Contents(), n);
    }

    method Reset()
      requires Valid()
      modifies board
      ensures Contents() == EmptyGrid(n)
    {
      forall i, j | 0 <= i < n && 0 <= j < n {
        board[i, j] := 0;
      }
      SameCells(Contents(), EmptyGrid(n), n);
    }

    method IsDraw() returns (full: bool)
      requires Valid()
      ensures full == Full(Contents(), n)
    {
      for j := 0 to n
        invariant forall x, y | 0 <= x < n && 0 <= y < j :: board[y, x] != 0
      {
        for i := 0 to n
          invariant forall x | 0 <= x < i :: board[j, x] != 0
        {
          if board[j, i] == 0 {
            assert Contents()[j][i] == 0;
            return false;
          }
        }
      }
      return true;
    }

    // One of the two scan loops of the win check.
    method Scan(x: int, y: int, d: Dir, mark: int) returns (count: nat)
      requires Valid() && Unit(d)
      ensures count == Streak(Contents(), n, mark, x, y, d)
    {
      var i, j := x, y;
      count := 0;
      while 0 <= i < n && 0 <= j < n && board[j, i] == mark
        invariant count + Streak(Contents(), n, mark, i, j, d)
                  == Streak(Contents(), n, mark, x, y, d)
        decreases if Inside(n, i, j) then Reach(n, i, j, d) else 0
      {
        count := count + 1;
        i, j := i + d.dx, j + d.dy;
      }
    }

    // One direction of the win check.
    method CountAlong(x: int, y: int, d: Dir, mark: int) returns (count: nat)
      requires Valid() && Unit(d)
      ensures count == Count(Contents(), n, mark, x, y, d)
    {
      var forward := Scan(x + d.dx, y + d.dy, d, mark);
      var backward := Scan(x - d.dx, y - d.dy, Opposite(d), mark);
      count := 1 + forward + backward;
    }

    method CheckWin(x: int, y: int, mark: int) returns (won: bool)
      requires Valid()
      ensures won == LocalWin(Contents(), n, k, mark, x, y)
    {
      for i := 0 to |DIRECTIONS|
        invariant forall o | 0 <= o < i :: Count(Contents(), n, mark, x, y, DIRECTIONS[o]) < k
      {
        var d := DIRECTIONS[i];
        var count := CountAlong(x, y, d, mark);
        if count >= k {
          assert d in DIRECTIONS;
          return true;
        }
      }
      return false;
    }

    // The mark is placed: pass the turn, then end and reset the game on a win or a draw.
    method Finish(room: Room, player: int, x: int, y: int) returns (out: Outcome)
      requires Valid() && room.turn == player
      modifies room, board
      ensures (Match(Contents(), room.turn), out)
           == Settle(RulesFor(room), old(Contents()), player, x, y)
    {
      room.turn := if room.turn == room.player1 then room.player2 else room.player1;
      var won := CheckWin(x, y, if player == room.player2 then 2 else 1);
      if won {
        out := Won;
      } else {
        var full := IsDraw();
        out := if full then Drawn else Moved;
      }
      if out != Moved {
        room.turn := 0;
        Reset();
      }
    }

    method Place(x: int, y: int, mark: int)
      requires Valid() && Inside(n, x, y)
      modifies board
      ensures Contents() == Put(old(Contents()), n, x, y, mark)
    {
      board[y, x] := mark;
      SameCells(Contents(), Put(old(Contents()), n, x, y, mark), n);
    }

    // A press in the normal or the classic game.
    method MakeMove(room: Room, player: int, x: int, y: int) returns (out: Outcome)
      requires Valid() && !gravity && Inside(n, x, y)
      modifies room, board
      ensures (Match(Contents(), room.turn), out)
           == Press(RulesFor(room), old(Match(Contents(), room.turn)), player, x, y)
    {
      if room.turn != player {
        return NotYourTurn;
      }
      if board[y, x] != 0 {
        return Taken;
      }
      Place(x, y, if player == room.player2 then 2 else 1);
      out := Finish(room, player, x, y);
    }

    // A press in the gravity game: only the column y counts, the mark falls to its last empty cell.
    method MakeFallingMove(room: Room, player: int, x: int, y: int) returns (out: Outcome)
      requires Valid() && gravity && Inside(n, x, y)
      modifies room, board
      ensures (Match(Contents(), room.turn), out)
           == Press(RulesFor(room), old(Match(Contents(), room.turn)), player, x, y)
    {
      if room.turn != player {
        return NotYourTurn;
      }
      var i := 0;
      while i < n && board[y, n - 1 - i] != 0
        invariant 0 <= i <= n
        invariant Landing(Contents(), n, n - 1, y) == Landing(Contents(), n, n - 1 - i, y)
      {
        i := i + 1;
      }
      if i == n {
        return Taken;
      }
      Place(n - 1 - i, y, if player == room.player2 then 2 else 1);
      out := Finish(room, player, n - 1 - i, y);
    }
  }
}
