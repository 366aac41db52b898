/** The rooms as the bot keeps them: a room object that handlers load, change and save back, the
    manager that stores rooms and player keys, and the handlers themselves. This file holds no
    theorem of its own: it ties that load-change-save code, update by update, to the steps of Rooms
    and GameRooms, which the theorems are about. The talk of a room is history for those theorems;
    it is carried along and never looked at. */
module GameManager {
  import opened Options
  import opened Rooms
  import DoozBoard
  import Dooz
  import GameRooms
  import WordBoard
  import WordGame

  class LiveRoom {
    var id: int
    var player1: User
    var player2: Option<User>
    var name1: string
    var name2: string
    var turn: int
    var gameOver: bool
    var pendingGame: Option<Game>
    var pendingBy: int
    var game: Game
    var state: State
    var talk: seq<Talk>

    function View(): Room reads this {
      Room(id, player1, player2, name1, name2, turn, gameOver, pendingGame, pendingBy, game, state, talk)
    }

    constructor (r: Room)
      ensures View() == r
    {
      id, player1, player2, name1, name2 := r.id, r.player1, r.player2, r.name1, r.name2;
      turn, gameOver, pendingGame, pendingBy := r.turn, r.gameOver, r.pendingGame, r.pendingBy;
      game, state, talk := r.game, r.state, r.talk;
    }

    method Reset()
      modifies this
      ensures View() == old(View()).(turn := 0, gameOver := false, pendingGame := None, pendingBy := 0,
                                     state := ResetState(old(state)))
    {
      turn, gameOver := 0, false;
      pendingGame, pendingBy := None, 0;
      state := ResetState(state);
    }

    method EnsurePlayerFirst(first: int)
      modifies this
      ensures View() == Rooms.EnsurePlayerFirst(old(View()), first)
    {
      if player2.None? || player1.id == first {
        return;
      }
      player1, player2 := player2.value, Some(player1);
      name1, name2 := name2, name1;
    }

    method MarkOver()
      modifies this
      ensures View() == Rooms.MarkOver(old(View()))
    {
      gameOver := true;
      pendingGame, pendingBy := None, 0;
      talk := talk + [Ended];
    }

    method Request(player: int, wanted: Game) returns (ok: bool)
      modifies this
      ensures View() == Ask(old(View()), player, wanted)
      ensures ok == old(gameOver)
    {
      if !gameOver {
        return false;
      }
      pendingGame, pendingBy := Some(wanted), player;
      talk := talk + [Asked(player, wanted)];
      return true;
    }

    method StartAgreed(acceptor: int, wanted: Game)
      modifies this
      ensures View() == Rooms.StartAgreed(old(View()), acceptor, wanted)
    {
      var requester := pendingBy;
      EnsurePlayerFirst(requester);
      game, state := wanted, Initial(wanted);
      Reset();
      turn := player1.id;
      talk := talk + [Started(requester, acceptor, wanted)];
    }

    method RestartInChat(user: User)
      modifies this
      ensures View() == Rooms.RestartInChat(old(View()), user)
    {
      if user.id != player1.id {
        player2 := Some(player1);
        player1 := user;
      }
      turn := player1.id;
      state := ResetState(state);
      talk := talk + [Restarted];
    }
  }

  class RoomManager {
    var rooms: map<int, Room>
    var index: map<int, int>
    var nextId: int

    constructor ()
      ensures rooms == map[] && index == map[] && nextId == 0
    {
      rooms, index, nextId := map[], map[], 0;
    }

    /** The stored rooms and keys, as a lobby without chats. */
    ghost function Table(): Lobby reads this {
      Lobby(rooms, index, nextId, map[])
    }

    method SaveRoom(r: LiveRoom)
      modifies this
      ensures Table() == Save(old(Table()), r.View())
    {
      rooms := rooms[r.id := r.View()];
      index := index[r.player1.id := r.id];
      if r.player2.Some? {
        index := index[r.player2.value.id := r.id];
      }
    }

    method CreateRoom(user: User, game: Game, name: string) returns (r: LiveRoom)
      modifies this
      ensures fresh(r) && r.id == nextId == old(nextId) + 1
      ensures r.id in rooms && rooms[r.id] == r.View()
      ensures Table() == Rooms.CreateRoom(old(Table()), user, game, name)
    {
      nextId := nextId + 1;
      r := new LiveRoom(Room(nextId, user, None, name, "", user.id, false, None, 0, game, Initial(game), []));
      SaveRoom(r);
    }

    method GetRoomByID(id: int) returns (r: LiveRoom?)
      ensures r != null <==> id in rooms
      ensures r != null ==> fresh(r) && r.View() == rooms[id]
    {
      if id in rooms {
        r := new LiveRoom(rooms[id]);
      } else {
        r := null;
      }
    }

    method GetRoomByPlayerID(player: int) returns (r: LiveRoom?)
      ensures RoomOf(Table(), player) == if r == null then None else Some(r.View())
      ensures r != null ==> fresh(r)
    {
      if player !in index {
        return null;
      }
      r := GetRoomByID(index[player]);
    }

    method JoinRoom(id: int, user: User, name: string) returns (r: LiveRoom?, ok: bool)
      modifies this
      ensures ok == (id in old(rooms) && old(rooms)[id].player2.None?)
      ensures ok <==> r != null
      ensures Table() == Rooms.JoinRoom(old(Table()), id, user, name)
      ensures ok ==> fresh(r) && r.View() == old(rooms)[id].(player2 := Some(user), name2 := name)
    {
      r := GetRoomByID(id);
      if r == null {
        return null, false;
      }
      if r.player2.Some? {
        return null, false;
      }
      r.player2 := Some(user);
      r.name2 := name;
      SaveRoom(r);
      ok := true;
    }

    method RemoveRoomByRoomID(id: int)
      modifies this
      ensures Table() == RemoveRoom(old(Table()), id)
    {
      var r := GetRoomByID(id);
      if r == null {
        return;
      }
      rooms := rooms - {id};
      index := index - {r.player1.id};
      if r.player2.Some? {
        index := index - {r.player2.value.id};
      }
    }

    method RemoveRoomsByPlayerID(player: int)
      modifies this
      ensures Table() == RemoveRoomsOf(old(Table()), player)
    {
      var r := GetRoomByPlayerID(player);
      if r == null {
        return;
      }
      RemoveRoomByRoomID(r.id);
    }
  }

  class Handler {
    const rooms: RoomManager
    var partner: map<int, int>

    constructor ()
      ensures View() == Run([]) && fresh(rooms)
    {
      rooms := new RoomManager();
      partner := map[];
    }

    ghost function View(): Lobby reads this, rooms {
      rooms.Table().(partner := partner)
    }

    method SelectGame(user: User, game: Game, name: string)
      modifies rooms
      ensures View() == Step(old(View()), Event.SelectGame(user, game, name))
    {
      var existing := rooms.GetRoomByPlayerID(user.id);
      if user.id in partner && existing != null {
        return;
      }
      if existing != null && user.id !in partner && existing.player2.Some? {
        var _ := existing.Request(user.id, game);
        rooms.SaveRoom(existing);
        return;
      }
      rooms.RemoveRoomsByPlayerID(user.id);
      var _ := rooms.CreateRoom(user, game, name);
    }

    method HandleGameJoin(user: User, creator: int, name: string)
      modifies rooms
      ensures View() == Step(old(View()), Event.JoinLink(user, creator, name))
    {
      var mine := rooms.GetRoomByPlayerID(user.id);
      if mine != null || user.id == creator {
        return;
      }
      var r := rooms.GetRoomByPlayerID(creator);
      if r == null || r.player2.Some? {
        return;
      }
      var _, _ := rooms.JoinRoom(r.id, user, name);
    }

    method ChatGameAccept(user: User, game: Game, name: string, partnerName: string)
      modifies rooms
      ensures View() == Step(old(View()), Event.ChatAccept(user, game, name, partnerName))
    {
      if user.id !in partner {
        return;
      }
      var other := partner[user.id];
      var mine := rooms.GetRoomByPlayerID(user.id);
      var theirs := rooms.GetRoomByPlayerID(other);
      if mine != null || theirs != null {
        return;
      }
      rooms.RemoveRoomsByPlayerID(user.id);
      rooms.RemoveRoomsByPlayerID(other);
      ghost var cleared := View();
      assert cleared == RemoveRoomsOf(RemoveRoomsOf(old(View()), user.id), other);
      var r := rooms.CreateRoom(user, game, name);
      ghost var created := View();
      assert created == Rooms.CreateRoom(cleared, user, game, name);
      var _, _ := rooms.JoinRoom(r.id, User(other, ""), partnerName);
      assert View() == Rooms.JoinRoom(created, r.id, User(other, ""), partnerName);
    }

    method ConfirmFinish(player: int)
      modifies rooms
      ensures View() == Step(old(View()), Event.Finish(player))
    {
      var r := rooms.GetRoomByPlayerID(player);
      if r == null {
        return;
      }
      rooms.RemoveRoomByRoomID(r.id);
    }

    method AfterMove(player: int, turn: int, state: State, ends: bool)
      modifies rooms
      ensures View() == Step(old(View()), Event.Move(player, turn, state, ends))
    {
      var r := rooms.GetRoomByPlayerID(player);
      if r == null || r.gameOver {
        return;
      }
      r.turn, r.state := turn, state;
      if !ends {
        rooms.SaveRoom(r);
      } else if r.player1.id in partner {
        rooms.RemoveRoomByRoomID(r.id);
      } else {
        r.MarkOver();
        rooms.SaveRoom(r);
      }
    }

    // One press, played on a board array loaded from the room and stored back.
    static method PlayBoard(r: Room, player: int, x: int, y: int) returns (m: Event)
      requires GameRooms.TakesPress(r, r.game)
      requires 0 <= x < GameRooms.Side(r.game) && 0 <= y < GameRooms.Side(r.game)
      ensures m == GameRooms.Pressed(r, player, x, y)
    {
      var falling := r.game == Dooz4Gravity;
      var board := new DoozBoard.Game.Load(GameRooms.Side(r.game), GameRooms.LineLength(r.game), falling, r.state.grid);
      var seats := new DoozBoard.Room(r.player1.id, r.player2.value.id, r.turn);
      var out;
      if falling {
        out := board.MakeFallingMove(seats, player, x, y);
      } else {
        out := board.MakeMove(seats, player, x, y);
      }
      var grid := board.Dump();
      m := Event.Move(player, seats.turn, Board(grid), out == Dooz.Won || out == Dooz.Drawn);
    }

    method PressCell(ghost letters: set<char>, player: int, game: Game, x: int, y: int)
      modifies rooms
      ensures View() == GameRooms.Step(letters, old(View()), GameRooms.Press(player, game, x, y))
    {
      var r := rooms.GetRoomByPlayerID(player);
      if r == null || !GameRooms.TakesPress(r.View(), game) {
        return;
      }
      if !(0 <= x < GameRooms.Side(game) && 0 <= y < GameRooms.Side(game)) {
        return;
      }
      var m := PlayBoard(r.View(), player, x, y);
      AfterMove(player, m.turn, m.state, m.ends);
    }

    // One action, played on a word game loaded from the room.
    static method PlayDuel(letters: set<char>, w: WordGame.Word, seats: WordGame.Seats, a: WordGame.Action)
      returns (v: WordGame.Word)
      requires WordGame.OneSlotEach(w, seats, a.player)
      ensures v == WordGame.Step(letters, seats, w, a)
    {
      var game := new WordBoard.GameWordGuess.Load(w);
      match a {
        case PickType(p, kind) => game.PickType(p, kind);
        case PickLength(p, length) => game.PickLength(seats, p, length);
        case Secret(p, text) => game.TakeSecret(letters, seats, p, text);
        case Letter(p, text) =>
          var _ := game.TakeLetter(letters, seats, p, text);
        case Number(p, text) =>
          var _ := game.TakeNumber(letters, seats, p, text);
      }
      v := game.View();
    }

    // A letter relies on a display with one slot a letter, as every reachable room has it.
    method PlayWord(letters: set<char>, a: WordGame.Action)
      requires GameRooms.Good(letters, View())
      modifies rooms
      ensures View() == GameRooms.Step(letters, old(View()), GameRooms.Guess(a))
    {
      var r := rooms.GetRoomByPlayerID(a.player);
      if r == null || !GameRooms.TakesWord(r.View()) {
        return;
      }
      GameRooms.DuelHasSlots(letters, View(), a.player);
      var w := PlayDuel(letters, r.state.word, GameRooms.SeatsOf(r.View()), a);
      AfterMove(a.player, r.turn, Duel(w), w.over);
    }

    method EndDareAndTruth(player: int)
      modifies rooms
      ensures View() == Step(old(View()), EndDare(player))
    {
      var r := rooms.GetRoomByPlayerID(player);
      if r == null || r.game != DareAndTruth {
        return;
      }
      if player in partner {
        rooms.RemoveRoomByRoomID(r.id);
      } else if r.player1.id !in partner {
        r.MarkOver();
        rooms.SaveRoom(r);
      }
    }

    method RepeatGame(user: User)
      modifies rooms
      ensures View() == Step(old(View()), Event.Repeat(user))
    {
      var r := rooms.GetRoomByPlayerID(user.id);
      if r == null || r.player2.None? {
        return;
      }
      if user.id !in partner {
        var _ := r.Request(user.id, r.game);
      } else {
        r.RestartInChat(user);
      }
      rooms.SaveRoom(r);
    }

    method AcceptGame(player: int, game: Game)
      modifies rooms
      ensures View() == Step(old(View()), Event.Accept(player, game))
    {
      var r := rooms.GetRoomByPlayerID(player);
      if r == null || r.player2.None? || player in partner {
        return;
      }
      if r.pendingGame.None? || r.pendingBy == 0 || r.pendingBy == player || r.pendingGame.value != game {
        return;
      }
      r.StartAgreed(player, game);
      rooms.SaveRoom(r);
    }

    method RejectGame(player: int)
      modifies rooms
      ensures View() == Step(old(View()), Event.Reject(player))
    {
      var r := rooms.GetRoomByPlayerID(player);
      if r == null || player in partner {
        return;
      }
      r.pendingGame, r.pendingBy := None, 0;
      r.talk := r.talk + [Declined];
      rooms.SaveRoom(r);
    }

    method EndChat(player: int)
      modifies this, rooms
      ensures View() == Step(old(View()), Event.ChatEnds(player))
    {
      if player !in partner {
        return;
      }
      var other := partner[player];
      partner := partner - {player, other};
      rooms.RemoveRoomsByPlayerID(player);
      rooms.RemoveRoomsByPlayerID(other);
    }
  }
}
