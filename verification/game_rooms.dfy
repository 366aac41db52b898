/** Games inside rooms: the moves of the board games and of the word duel as handlers make them, on
    the state stored with the room, and what every room's game looks like over whole runs. */
module GameRooms {
  import opened Options
  import opened Rooms
  import Dooz
  import Lines
  import WordGame

  predicate IsBoardGame(game: Game) {
    game in {Dooz4Normal, Dooz4Gravity, DoozClassic}
  }

  function Side(game: Game): nat {
    if game == DoozClassic then 3 else 7
  }

  function LineLength(game: Game): nat {
    if game == DoozClassic then 3 else 4
  }

  function RulesOf(r: Room): Dooz.Rules
    requires r.player2.Some?
  {
    Dooz.Rules(Side(r.game), LineLength(r.game), r.player1.id, r.player2.value.id, r.game == Dooz4Gravity)
  }

  // An empty second seat has the id 0.
  function SeatsOf(r: Room): WordGame.Seats {
    WordGame.Seats(r.player1.id, if r.player2.Some? then r.player2.value.id else 0)
  }

  // A press the handler can pass on to this room's board.
  predicate TakesPress(r: Room, game: Game) {
    && IsBoardGame(game) && r.game == game && r.player2.Some? && !r.gameOver
    && r.state.Board? && Lines.Square(r.state.grid, Side(game))
  }

  // Type, length and the own secret can be chosen before a second player sits down.
  predicate TakesWord(r: Room) {
    r.game == WordGuess && !r.gameOver && r.state.Duel?
  }

  datatype Event =
    | Seating(e: Rooms.Event)
    | Press(player: int, game: Game, x: int, y: int)
    | Guess(action: WordGame.Action)
    | SmallMove(player: int, turn: int, data: int, ends: bool)

  // What a press does to the room: the new turn and board, and whether the game is over.
  function Pressed(r: Room, player: int, x: int, y: int): Rooms.Event
    requires TakesPress(r, r.game) && Lines.Inside(Side(r.game), x, y)
  {
    var (m, o) := Dooz.Press(RulesOf(r), Dooz.Match(r.state.grid, r.turn), player, x, y);
    Rooms.Event.Move(player, m.turn, Board(m.grid), o.Won? || o.Drawn?)
  }

  function Guessed(letters: set<char>, r: Room, a: WordGame.Action): Rooms.Event
    requires TakesWord(r)
  {
    var w := WordGame.Step(letters, SeatsOf(r), r.state.word, a);
    Rooms.Event.Move(a.player, r.turn, Duel(w), w.over)
  }

  function Step(letters: set<char>, l: Lobby, e: Event): Lobby {
    match e
    case Seating(s) => if s.Move? then l else Rooms.Step(l, s)
    case Press(p, game, x, y) =>
      var room := RoomOf(l, p);
      if room.None? || !TakesPress(room.value, game) || !Lines.Inside(Side(game), x, y) then l
      else Rooms.Step(l, Pressed(room.value, p, x, y))
    case Guess(a) =>
      var room := RoomOf(l, a.player);
      if room.None? || !TakesWord(room.value) then l
      else Rooms.Step(l, Guessed(letters, room.value, a))
    case SmallMove(p, turn, data, ends) =>
      var room := RoomOf(l, p);
      if room.None? || room.value.game !in {Rps, DareAndTruth} then l
      else Rooms.Step(l, Rooms.Event.Move(p, turn, Small(data), ends))
  }

  // ----- the game of a room -----

  ghost predicate BoardOk(r: Room) {
    && r.state.Board? && Lines.Square(r.state.grid, Side(r.game))
    && (r.player2.None? ==> r.turn == r.player1.id && r.state.grid == Dooz.EmptyGrid(Side(r.game)))
    && (r.player2.Some? ==> Dooz.Inv(RulesOf(r), Dooz.Match(r.state.grid, r.turn)))
    && (!r.gameOver ==> r.turn != 0)
  }

  ghost predicate DuelOk(letters: set<char>, r: Room) {
    && r.state.Duel?
    && WordGame.Inv(letters, SeatsOf(r), r.state.word)
    && (r.player2.None? ==> r.state.word.phase != WordGame.Playing && !r.state.word.h2.ready)
    && (!r.gameOver ==> !r.state.word.over)
  }

  /** The stored state satisfies the invariant of the room's game, for the players in their seats. */
  ghost predicate GameOk(letters: set<char>, r: Room) {
    && (IsBoardGame(r.game) ==> BoardOk(r))
    && (r.game == WordGuess ==> DuelOk(letters, r))
    && (!IsBoardGame(r.game) && r.game != WordGuess ==> r.state.Small?)
  }

  ghost predicate GamesOk(letters: set<char>, l: Lobby) {
    forall id | id in l.rooms :: GameOk(letters, l.rooms[id])
  }

  ghost predicate Good(letters: set<char>, l: Lobby) {
    Rooms.Inv(l) && GamesOk(letters, l)
  }

  // A room whose game has just been set up or set back, with the first seat to move.
  lemma NewGameOk(letters: set<char>, r: Room)
    requires RoomOk(r) && r.state == Initial(r.game) && r.turn == r.player1.id
    ensures GameOk(letters, r)
  {
    if r.player2.Some? && IsBoardGame(r.game) {
      Dooz.FreshInv(RulesOf(r));
    }
  }

  lemma ResetIsInitial(letters: set<char>, r: Room)
    requires GameOk(letters, r)
    ensures ResetState(r.state) == Initial(r.game)
  {
  }

  lemma SaveGames(letters: set<char>, l: Lobby, r: Room)
    requires GamesOk(letters, l) && GameOk(letters, r)
    ensures GamesOk(letters, Save(l, r))
  {
  }

  lemma RemoveGames(letters: set<char>, l: Lobby, player: int)
    requires GamesOk(letters, l)
    ensures GamesOk(letters, RemoveRoomsOf(l, player))
  {
  }

  lemma CreateGames(letters: set<char>, l: Lobby, u: User, game: Game, name: string)
    requires GamesOk(letters, l) && u.id > 0
    ensures GamesOk(letters, CreateRoom(l, u, game, name))
  {
    var r := Room(l.nextId + 1, u, None, name, "", u.id, false, None, 0, game, Initial(game), []);
    NewGameOk(letters, r);
    SaveGames(letters, l.(nextId := l.nextId + 1), r);
  }

  lemma JoinGames(letters: set<char>, l: Lobby, id: int, u: User, name: string)
    requires GamesOk(letters, l) && id in l.rooms && l.rooms[id].player2.None?
    requires RoomOk(l.rooms[id]) && RoomOk(l.rooms[id].(player2 := Some(u), name2 := name))
    ensures GamesOk(letters, JoinRoom(l, id, u, name))
  {
    var r := l.rooms[id].(player2 := Some(u), name2 := name);
    SecondSeatOk(letters, l.rooms[id], u, name);
    SaveGames(letters, l, r);
  }

  lemma SecondSeatOk(letters: set<char>, r: Room, u: User, name: string)
    requires GameOk(letters, r) && r.player2.None? && RoomOk(r) && u.id > 0 && u.id != r.player1.id
    ensures GameOk(letters, r.(player2 := Some(u), name2 := name))
  {
    var s := r.(player2 := Some(u), name2 := name);
    if IsBoardGame(r.game) {
      Dooz.FreshInv(RulesOf(s));
    }
  }

  /** A press in a room is a press of the game: afterwards the stored board and turn are again a
      state of the game's invariant, with the end mark set exactly when the game ended. */
  lemma PressKeepsGame(letters: set<char>, r: Room, player: int, x: int, y: int)
    requires RoomOk(r) && GameOk(letters, r) && TakesPress(r, r.game)
    requires Lines.Inside(Side(r.game), x, y) && player in Members(r)
    ensures var m := Pressed(r, player, x, y);
      if m.ends then
        && m.turn == 0 && m.state == Initial(r.game)
        && GameOk(letters, MarkOver(r.(turn := m.turn, state := m.state)))
      else GameOk(letters, r.(turn := m.turn, state := m.state))
  {
    Dooz.PressKeepsInv(RulesOf(r), Dooz.Match(r.state.grid, r.turn), player, x, y);
  }

  // What the creator of a waiting room does to the duel.
  lemma LoneActionKeeps(letters: set<char>, seats: WordGame.Seats, w: WordGame.Word, a: WordGame.Action)
    requires WordGame.Inv(letters, seats, w) && a.player == seats.player1
    requires w.phase != WordGame.Playing && !w.h2.ready
    ensures var v := WordGame.Step(letters, seats, w, a);
      WordGame.Inv(letters, seats, v) && v.phase != WordGame.Playing && !v.h2.ready
  {
  }

  lemma GuessKeepsGame(letters: set<char>, r: Room, a: WordGame.Action)
    requires RoomOk(r) && GameOk(letters, r) && TakesWord(r) && a.player in Members(r)
    ensures var m := Guessed(letters, r, a);
      if m.ends then GameOk(letters, MarkOver(r.(turn := m.turn, state := m.state)))
      else GameOk(letters, r.(turn := m.turn, state := m.state))
  {
    if r.player2.Some? {
      WordGame.StepKeepsInv(letters, SeatsOf(r), r.state.word, a);
    } else {
      LoneActionKeeps(letters, SeatsOf(r), r.state.word, a);
    }
  }

  /** In every room that satisfies the invariant, letters find a slot for every letter of the secret. */
  lemma DuelHasSlots(letters: set<char>, l: Lobby, player: int)
    requires Good(letters, l) && RoomOf(l, player).Some? && TakesWord(RoomOf(l, player).value)
    ensures var r := RoomOf(l, player).value; WordGame.OneSlotEach(r.state.word, SeatsOf(r), player)
  {
    var r := RoomOf(l, player).value;
    WordGame.InvGivesSlots(letters, SeatsOf(r), r.state.word, player);
  }

  // A move that leaves the room's game in order, whether it ends the game or not.
  lemma MoveGames(letters: set<char>, l: Lobby, m: Rooms.Event)
    requires Good(letters, l) && m.Move? && RoomOf(l, m.player).Some? && !RoomOf(l, m.player).value.gameOver
    requires var r := RoomOf(l, m.player).value.(turn := m.turn, state := m.state);
      GameOk(letters, if m.ends then MarkOver(r) else r)
    ensures GamesOk(letters, Rooms.Step(l, m))
  {
    var r := RoomOf(l, m.player).value.(turn := m.turn, state := m.state);
    SaveGames(letters, l, if m.ends then MarkOver(r) else r);
  }

  lemma SelectGames(letters: set<char>, l: Lobby, u: User, game: Game, name: string)
    requires Good(letters, l) && u.id > 0
    ensures GamesOk(letters, Rooms.Step(l, SelectGame(u, game, name)))
  {
    RoomOfMember(l, u.id);
    var room := RoomOf(l, u.id);
    if room.Some? && room.value.player2.Some? {
      SaveGames(letters, l, Ask(room.value, u.id, game));
    }
    RemoveGames(letters, l, u.id);
    CreateGames(letters, RemoveRoomsOf(l, u.id), u, game, name);
  }

  lemma JoinLinkGames(letters: set<char>, l: Lobby, u: User, creator: int, name: string)
    requires Good(letters, l) && u.id > 0
    ensures GamesOk(letters, Rooms.Step(l, Rooms.Event.JoinLink(u, creator, name)))
  {
    var t := Rooms.Step(l, Rooms.Event.JoinLink(u, creator, name));
    RoomOfMember(l, u.id);
    RoomOfMember(l, creator);
    var room := RoomOf(l, creator);
    if t != l {
      JoinLinkKeeps(l, u, creator, name);
      assert t.rooms[room.value.id] == room.value.(player2 := Some(u), name2 := name);
      JoinGames(letters, l, room.value.id, u, name);
    }
  }

  lemma ChatAcceptGames(letters: set<char>, l: Lobby, u: User, game: Game, name: string, partnerName: string)
    requires Good(letters, l) && u.id > 0
    ensures GamesOk(letters, Rooms.Step(l, ChatAccept(u, game, name, partnerName)))
  {
    if u.id in l.partner {
      var q := l.partner[u.id];
      RoomOfMember(l, u.id);
      RoomOfMember(l, q);
      if u.id !in l.index && q !in l.index {
        var c := CreateRoom(l, u, game, name);
        CreateKeeps(l, u, game, name);
        CreateGames(letters, l, u, game, name);
        JoinKeeps(c, l.nextId + 1, User(q, ""), partnerName);
        assert JoinRoom(c, l.nextId + 1, User(q, ""), partnerName).rooms[l.nextId + 1]
            == c.rooms[l.nextId + 1].(player2 := Some(User(q, "")), name2 := partnerName);
        JoinGames(letters, c, l.nextId + 1, User(q, ""), partnerName);
      }
    }
  }

  lemma RepeatGames(letters: set<char>, l: Lobby, u: User)
    requires Good(letters, l)
    ensures var t, was := Rooms.Step(l, Repeat(u)), RoomOf(l, u.id);
      && GamesOk(letters, t)
      && (u.id in l.partner && was.Some? && was.value.player2.Some? ==>
            && (forall p <- Members(was.value) :: RoomOf(t, p) == Some(RestartInChat(was.value, u)))
            && var s := RestartInChat(was.value, u);
               s.game == was.value.game && s.state == Initial(s.game) && s.turn == s.player1.id == u.id
               && s.gameOver == was.value.gameOver)
  {
    RoomOfMember(l, u.id);
    var room := RoomOf(l, u.id);
    if room.Some? && room.value.player2.Some? {
      RestartOk(room.value, u);
      ResetIsInitial(letters, room.value);
      forall p <- Members(room.value) ensures u.id in l.partner ==>
        RoomOf(Rooms.Step(l, Repeat(u)), p) == Some(RestartInChat(room.value, u))
      {
        assert Sits(l, room.value.id, p);
      }
      NewGameOk(letters, RestartInChat(room.value, u));
      SaveGames(letters, l, RestartInChat(room.value, u));
      SaveGames(letters, l, Ask(room.value, u.id, room.value.game));
    }
  }

  lemma AcceptGames(letters: set<char>, l: Lobby, player: int, game: Game)
    requires Good(letters, l)
    ensures GamesOk(letters, Rooms.Step(l, Accept(player, game)))
  {
    RoomOfMember(l, player);
    var room := RoomOf(l, player);
    if room.Some? && room.value.player2.Some? && room.value.pendingGame == Some(game)
       && room.value.pendingBy !in {0, player} {
      AcceptOk(room.value, player, game);
      NewGameOk(letters, StartAgreed(room.value, player, game));
      SaveGames(letters, l, StartAgreed(room.value, player, game));
    }
  }

  lemma SeatingGames(letters: set<char>, l: Lobby, s: Rooms.Event)
    requires Good(letters, l) && Rooms.ValidEvent(s) && !s.Move?
    ensures GamesOk(letters, Rooms.Step(l, s))
  {
    match s
    case SelectGame(u, game, name) => SelectGames(letters, l, u, game, name);
    case JoinLink(u, creator, name) => JoinLinkGames(letters, l, u, creator, name);
    case ChatAccept(u, game, name, partnerName) => ChatAcceptGames(letters, l, u, game, name, partnerName);
    case Finish(p) => RemoveGames(letters, l, p);
    case EndDare(p) =>
      if RoomOf(l, p).Some? && RoomOf(l, p).value.game == DareAndTruth {
        SaveGames(letters, l, MarkOver(RoomOf(l, p).value));
      }
    case Repeat(u) => RepeatGames(letters, l, u);
    case Accept(p, game) => AcceptGames(letters, l, p, game);
    case Reject(p) =>
      if RoomOf(l, p).Some? {
        var r := RoomOf(l, p).value;
        SaveGames(letters, l, ClearPending(r).(talk := r.talk + [Declined]));
      }
    case ChatOpens(a, b) =>
    case ChatEnds(p) =>
      if p in l.partner {
        var c := l.(partner := l.partner - {p, l.partner[p]});
        RemoveGames(letters, c, p);
        RemoveGames(letters, RemoveRoomsOf(c, p), l.partner[p]);
      }
  }

  lemma PressGood(letters: set<char>, l: Lobby, p: int, game: Game, x: int, y: int)
    requires Good(letters, l)
    ensures Good(letters, Step(letters, l, Press(p, game, x, y)))
  {
    RoomOfMember(l, p);
    var room := RoomOf(l, p);
    if room.Some? && TakesPress(room.value, game) && Lines.Inside(Side(game), x, y) {
      var m := Pressed(room.value, p, x, y);
      StepKeeps(l, m);
      PressKeepsGame(letters, room.value, p, x, y);
      MoveGames(letters, l, m);
    }
  }

  lemma GuessGood(letters: set<char>, l: Lobby, a: WordGame.Action)
    requires Good(letters, l)
    ensures Good(letters, Step(letters, l, Guess(a)))
  {
    RoomOfMember(l, a.player);
    var room := RoomOf(l, a.player);
    if room.Some? && TakesWord(room.value) {
      var m := Guessed(letters, room.value, a);
      StepKeeps(l, m);
      GuessKeepsGame(letters, room.value, a);
      MoveGames(letters, l, m);
    }
  }

  lemma SmallMoveGood(letters: set<char>, l: Lobby, p: int, turn: int, data: int, ends: bool)
    requires Good(letters, l)
    ensures Good(letters, Step(letters, l, SmallMove(p, turn, data, ends)))
  {
    var room := RoomOf(l, p);
    if room.Some? && room.value.game in {Rps, DareAndTruth} && !room.value.gameOver {
      StepKeeps(l, Rooms.Event.Move(p, turn, Small(data), ends));
      MoveGames(letters, l, Rooms.Event.Move(p, turn, Small(data), ends));
    }
  }

  lemma StepKeepsGames(letters: set<char>, l: Lobby, e: Event)
    requires Good(letters, l) && (e.Seating? ==> Rooms.ValidEvent(e.e))
    ensures Good(letters, Step(letters, l, e))
  {
    match e
    case Seating(s) =>
      if !s.Move? {
        StepKeeps(l, s);
        SeatingGames(letters, l, s);
      }
    case Press(p, game, x, y) => PressGood(letters, l, p, game, x, y);
    case Guess(a) => GuessGood(letters, l, a);
    case SmallMove(p, turn, data, ends) => SmallMoveGood(letters, l, p, turn, data, ends);
  }

  function Run(letters: set<char>, events: seq<Event>): Lobby {
    if events == [] then Rooms.Run([])
    else Step(letters, Run(letters, events[..|events| - 1]), events[|events| - 1])
  }

  /** Over every run of seatings, moves, requests, restarts and chats, every room holds a state of its
      own game's invariant for the players now in its seats: boards without a line and with
      balanced marks, truthful displays, and a player to move as long as the game is not over. */
  lemma {:induction false} RunKeepsGames(letters: set<char>, events: seq<Event>)
    requires forall i | 0 <= i < |events| && events[i].Seating? :: Rooms.ValidEvent(events[i].e)
    ensures Good(letters, Run(letters, events))
  {
    if events != [] {
      RunKeepsGames(letters, events[..|events| - 1]);
      StepKeepsGames(letters, Run(letters, events[..|events| - 1]), events[|events| - 1]);
    }
  }

  // ----- what a move does -----

  // The room after a move that left this turn and state and did or did not end the game.
  predicate Concluded(l: Lobby, t: Lobby, player: int, turn: int, state: State, ends: bool)
    requires RoomOf(l, player).Some?
  {
    var r := RoomOf(l, player).value;
    if !ends then RoomOf(t, player) == Some(r.(turn := turn, state := state))
    else if r.player1.id in l.partner then r.id !in t.rooms && forall p <- Members(r) :: RoomOf(t, p).None?
    else RoomOf(t, player) == Some(r.(turn := turn, state := state, gameOver := true, pendingGame := None,
                                      pendingBy := 0, talk := r.talk + [Ended]))
  }

  lemma MoveConcludes(letters: set<char>, l: Lobby, player: int, turn: int, state: State, ends: bool)
    requires Good(letters, l) && RoomOf(l, player).Some? && !RoomOf(l, player).value.gameOver
    ensures Concluded(l, Rooms.Step(l, Rooms.Event.Move(player, turn, state, ends)), player, turn, state, ends)
  {
    MoveKeeps(l, player, turn, state, ends);
  }

  /** A press by a member, in a board game that is not over. It is refused, with the room as it was,
      exactly when it is the other's turn or there is no empty cell to take: the pressed one, or with
      falling pieces any of its column. Otherwise the presser's mark, 1 for the first seat and 2 for the
      second, goes there, with falling pieces beyond every other empty cell; four in a row, or three in
      the classic game, or a full board end the game, and else the other player is to move. */
  lemma PressIs(letters: set<char>, l: Lobby, player: int, x: int, y: int) returns (at: int)
    requires Good(letters, l) && RoomOf(l, player).Some?
    requires var r := RoomOf(l, player).value; IsBoardGame(r.game) && r.player2.Some? && !r.gameOver
    requires var r := RoomOf(l, player).value;
      Lines.Inside(if r.game == DoozClassic then 3 else 7, x, y)
      && r.state.Board? && Lines.Square(r.state.grid, if r.game == DoozClassic then 3 else 7)
    ensures var r := RoomOf(l, player).value; var t := Step(letters, l, Press(player, r.game, x, y));
      var n, k := if r.game == DoozClassic then 3 else 7, if r.game == DoozClassic then 3 else 4;
      var grid, mark := r.state.grid, if player == r.player1.id then 1 else 2;
      if player != r.turn
         || (if r.game == Dooz4Gravity then forall i | 0 <= i < n :: grid[y][i] != 0 else grid[y][x] != 0)
      then RoomOf(t, player) == Some(r)
      else
        && 0 <= at < n && grid[y][at] == 0
        && (if r.game == Dooz4Gravity then forall i | at < i < n :: grid[y][i] != 0 else at == x)
        && var g := Lines.Put(grid, n, at, y, mark);
           if Lines.HasLine(g, n, k, mark) || Dooz.Cells(g, n, 0) == {}
           then Concluded(l, t, player, 0, Initial(r.game), true)
           else Concluded(l, t, player, if player == r.player1.id then r.player2.value.id else r.player1.id,
                          Board(g), false)
  {
    RoomOfMember(l, player);
    var r := RoomOf(l, player).value;
    var rules, m := RulesOf(r), Dooz.Match(r.state.grid, r.turn);
    at := Dooz.Target(rules, r.state.grid, x, y).0;
    Dooz.TargetIsEmptyCell(rules, r.state.grid, x, y);
    Dooz.PressKeepsInv(rules, m, player, x, y);
    var move := Pressed(r, player, x, y);
    MoveConcludes(letters, l, player, move.turn, move.state, move.ends);
  }

  /** A word action by a member, in a word game that is not over, is the duel's step on the stored state;
      a win ends the game. */
  lemma GuessIs(letters: set<char>, l: Lobby, a: WordGame.Action)
    requires Good(letters, l) && RoomOf(l, a.player).Some?
    requires var r := RoomOf(l, a.player).value; r.game == WordGuess && !r.gameOver
    ensures var r := RoomOf(l, a.player).value;
      && r.state.Duel?
      && var seats := WordGame.Seats(r.player1.id, if r.player2.Some? then r.player2.value.id else 0);
         var w := WordGame.Step(letters, seats, r.state.word, a);
         Concluded(l, Step(letters, l, Guess(a)), a.player, r.turn, Duel(w), w.over)
  {
    RoomOfMember(l, a.player);
    var r := RoomOf(l, a.player).value;
    var m := Guessed(letters, r, a);
    MoveConcludes(letters, l, a.player, m.turn, m.state, m.ends);
  }

  /** A move of one of the small games is stored as it is. */
  lemma SmallMoveIs(letters: set<char>, l: Lobby, player: int, turn: int, data: int, ends: bool)
    requires Good(letters, l) && RoomOf(l, player).Some?
    requires var r := RoomOf(l, player).value; r.game in {Rps, DareAndTruth} && !r.gameOver
    ensures Concluded(l, Step(letters, l, SmallMove(player, turn, data, ends)), player, turn, Small(data), ends)
  {
    MoveConcludes(letters, l, player, turn, Small(data), ends);
  }

  // ----- what players can do -----

  // The press of the player to move that is always accepted, and the room after it.
  lemma BoardCanGoOn(letters: set<char>, l: Lobby, player: int) returns (x: int, y: int)
    requires Good(letters, l) && RoomOf(l, player).Some?
    requires var r := RoomOf(l, player).value;
      IsBoardGame(r.game) && r.player2.Some? && !r.gameOver && player == r.turn
    ensures Step(letters, l, Press(player, RoomOf(l, player).value.game, x, y)) != l
  {
    RoomOfMember(l, player);
    var r := RoomOf(l, player).value;
    var m := Dooz.Match(r.state.grid, r.turn);
    x, y := Dooz.MoverIsNeverStuck(RulesOf(r), m);
    Dooz.PressKeepsInv(RulesOf(r), m, player, x, y);
    var move := Pressed(r, player, x, y);
    MoveKeeps(l, player, move.turn, move.state, move.ends);
  }

  function PlayerOf(e: Event): int
    requires !e.Seating?
  {
    match e case Press(p, _, _, _) => p case Guess(a) => a.player case SmallMove(p, _, _, _) => p
  }

  // Some press, guess or other move of one of these players does something.
  ghost predicate SomeMove(letters: set<char>, l: Lobby, players: set<int>) {
    exists e: Event :: !e.Seating? && PlayerOf(e) in players && Step(letters, l, e) != l
  }

  lemma NothingAfterTheEnd(letters: set<char>, l: Lobby, e: Event)
    requires !e.Seating? && RoomOf(l, PlayerOf(e)).Some? && RoomOf(l, PlayerOf(e)).value.gameOver
    ensures Step(letters, l, e) == l
  {
  }

  lemma FreshGameGoesOn(letters: set<char>, l: Lobby, player: int) returns (e: Event)
    requires Good(letters, l) && RoomOf(l, player).Some?
    requires var r := RoomOf(l, player).value;
      r.player2.Some? && !r.gameOver && r.state == Initial(r.game) && r.turn == player
    ensures !e.Seating? && PlayerOf(e) == player && Step(letters, l, e) != l
  {
    RoomOfMember(l, player);
    var r := RoomOf(l, player).value;
    if IsBoardGame(r.game) {
      var x, y := BoardCanGoOn(letters, l, player);
      e := Press(player, r.game, x, y);
    } else if r.game == WordGuess {
      e := Guess(WordGame.PickType(player, WordGame.Fa));
      MoveKeeps(l, player, r.turn, Guessed(letters, r, e.action).state, false);
    } else {
      e := SmallMove(player, r.turn, 1, false);
      MoveKeeps(l, player, r.turn, Small(1), false);
    }
  }

  /** The repeat button in a chat sets the game back but not the end mark: whatever the game, the new
      one can be played exactly when the one before it had not been marked as over. */
  lemma RestartPlaysExactlyWhen(letters: set<char>, l: Lobby, user: User)
    requires Good(letters, l) && user.id in l.partner
    requires RoomOf(l, user.id).Some? && RoomOf(l, user.id).value.player2.Some?
    ensures var r := RoomOf(l, user.id).value;
      SomeMove(letters, Rooms.Step(l, Repeat(user)), Members(r)) <==> !r.gameOver
  {
    RoomOfMember(l, user.id);
    var r, t := RoomOf(l, user.id).value, Rooms.Step(l, Repeat(user));
    RepeatKeeps(l, user);
    RepeatGames(letters, l, user);
    if r.gameOver {
      forall e: Event | !e.Seating? && PlayerOf(e) in Members(r) ensures Step(letters, t, e) == t {
        NothingAfterTheEnd(letters, t, e);
      }
    } else {
      var e := FreshGameGoesOn(letters, t, user.id);
    }
  }

  // Two friends in the room of a dare game, which then ends, and who then meet in a chat.
  const CHOOSES := Seating(SelectGame(User(1, "a"), DareAndTruth, "a"))
  const FOLLOWS := Seating(Rooms.Event.JoinLink(User(2, "b"), 1, "b"))
  const ENDS := Seating(EndDare(1))
  const MEETS := Seating(ChatOpens(1, 2))

  lemma RunOfTwo(letters: set<char>, e: Event, f: Event)
    ensures Run(letters, [e, f]) == Step(letters, Step(letters, Rooms.Run([]), e), f)
  {
    assert [e, f][..1] == [e] && [e][..0] == [];
    assert Run(letters, [e]) == Step(letters, Run(letters, []), e);
  }

  lemma RunOfFour(letters: set<char>, e: Event, f: Event, g: Event, h: Event)
    ensures Run(letters, [e, f, g, h]) == Step(letters, Step(letters, Run(letters, [e, f]), g), h)
  {
    assert [e, f, g, h][..3] == [e, f, g] && [e, f, g][..2] == [e, f];
    assert Run(letters, [e, f, g]) == Step(letters, Run(letters, [e, f]), g);
  }

  lemma SeatedTogether(letters: set<char>)
    ensures var l := Run(letters, [CHOOSES, FOLLOWS]);
      && l.partner == map[] && RoomOf(l, 1).Some?
      && var r := RoomOf(l, 1).value;
         r.player1.id == 1 && r.player2 == Some(User(2, "b")) && r.game == DareAndTruth
  {
    RunOfTwo(letters, CHOOSES, FOLLOWS);
    var waiting := Step(letters, Rooms.Run([]), CHOOSES);
    assert RoomOf(waiting, 1).Some? && RoomOf(waiting, 1).value.player2.None? && 2 !in waiting.index;
  }

  lemma MetAfterTheEnd(letters: set<char>)
    ensures var l := Run(letters, [CHOOSES, FOLLOWS, ENDS, MEETS]);
      && 1 in l.partner && RoomOf(l, 1).Some?
      && var r := RoomOf(l, 1).value; Members(r) == {1, 2} && r.player2.Some? && r.gameOver
  {
    SeatedTogether(letters);
    RunOfFour(letters, CHOOSES, FOLLOWS, ENDS, MEETS);
    var seated := Run(letters, [CHOOSES, FOLLOWS]);
    var over := Step(letters, seated, ENDS);
    assert RoomOf(over, 1) == Some(MarkOver(RoomOf(seated, 1).value)) && over.partner == map[];
    assert RoomOf(Step(letters, over, MEETS), 1) == RoomOf(over, 1);
  }

  /** Such a run exists: after it, the repeat button leaves neither player a move. */
  lemma DeadRestartHappens(letters: set<char>)
    ensures var l := Run(letters, [CHOOSES, FOLLOWS, ENDS, MEETS]);
      !SomeMove(letters, Rooms.Step(l, Repeat(User(1, "a"))), {1, 2})
  {
    MetAfterTheEnd(letters);
    RunKeepsGames(letters, [CHOOSES, FOLLOWS, ENDS, MEETS]);
    RestartPlaysExactlyWhen(letters, Run(letters, [CHOOSES, FOLLOWS, ENDS, MEETS]), User(1, "a"));
  }
}
