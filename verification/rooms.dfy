/** Game rooms: a room table, an index from players to rooms, and the handlers that create, join,
    leave and restart rooms, including asking a friend for the next game. */
module Rooms {
  import opened Options
  import Dooz
  import Lines
  import WordGame

  datatype User = User(id: int, firstName: string)

  datatype Game = Dooz4Normal | Dooz4Gravity | DoozClassic | DareAndTruth | Rps | WordGuess

  // The state of the game a room holds; the small games' state is one opaque number.
  datatype State = Board(grid: Lines.Grid) | Duel(word: WordGame.Word) | Small(data: int)

  function Initial(game: Game): State {
    match game
    case Dooz4Normal => Board(Dooz.EmptyGrid(7))
    case Dooz4Gravity => Board(Dooz.EmptyGrid(7))
    case DoozClassic => Board(Dooz.EmptyGrid(3))
    case WordGuess => Duel(WordGame.Fresh())
    case _ => Small(0)
  }

  function ResetState(state: State): State {
    match state
    case Board(grid) => Board(Dooz.EmptyGrid(|grid|))
    case Duel(_) => Duel(WordGame.Fresh())
    case Small(_) => Small(0)
  }

  // What happened in a room since it was created. The source keeps no such list; it is the
  // history the agreement below refers to.
  datatype Talk =
    | Asked(who: int, game: Game)
    | Declined
    | Ended
    | Started(first: int, second: int, game: Game)
    | Restarted

  datatype Room = Room(
    id: int,
    player1: User,
    player2: Option<User>,
    name1: string,
    name2: string,
    turn: int,
    gameOver: bool,
    pendingGame: Option<Game>,
    pendingBy: int,
    game: Game,
    state: State,
    talk: seq<Talk>)

  // partner holds the active chats, under both members.
  datatype Lobby = Lobby(rooms: map<int, Room>, index: map<int, int>, nextId: int, partner: map<int, int>)

  // The stand-in for a player without a name.
  const NO_NAME := "\U{06A9}\U{0627}\U{0631}\U{0628}\U{0631}"

  function Members(r: Room): set<int> {
    {r.player1.id} + if r.player2.Some? then {r.player2.value.id} else {}
  }

  function Shown(name: string, user: User): string {
    if name != "" then name else if user.firstName != "" then user.firstName else NO_NAME
  }

  function NameFor(r: Room, player: int): string {
    if player == r.player1.id then Shown(r.name1, r.player1)
    else if r.player2.Some? && player == r.player2.value.id then Shown(r.name2, r.player2.value)
    else NO_NAME
  }

  // ----- the table -----

  function RoomOf(l: Lobby, player: int): Option<Room> {
    if player in l.index && l.index[player] in l.rooms then Some(l.rooms[l.index[player]]) else None
  }

  function Save(l: Lobby, r: Room): Lobby {
    var index := l.index[r.player1.id := r.id];
    l.(rooms := l.rooms[r.id := r],
       index := if r.player2.Some? then index[r.player2.value.id := r.id] else index)
  }

  function CreateRoom(l: Lobby, user: User, game: Game, name: string): Lobby {
    Save(l.(nextId := l.nextId + 1),
         Room(l.nextId + 1, user, None, name, "", user.id, false, None, 0, game, Initial(game), []))
  }

  function JoinRoom(l: Lobby, id: int, user: User, name: string): Lobby {
    if id !in l.rooms || l.rooms[id].player2.Some? then l
    else Save(l, l.rooms[id].(player2 := Some(user), name2 := name))
  }

  function RemoveRoom(l: Lobby, id: int): Lobby {
    if id !in l.rooms then l
    else l.(rooms := l.rooms - {id}, index := l.index - Members(l.rooms[id]))
  }

  function RemoveRoomsOf(l: Lobby, player: int): Lobby {
    var r := RoomOf(l, player);
    if r.None? then l else RemoveRoom(l, r.value.id)
  }

  // ----- friends mode -----

  function ClearPending(r: Room): Room {
    r.(pendingGame := None, pendingBy := 0)
  }

  // The end of a game that leaves the room open for the next one.
  function MarkOver(r: Room): Room {
    ClearPending(r).(gameOver := true, talk := r.talk + [Ended])
  }

  function Ask(r: Room, player: int, game: Game): Room {
    if !r.gameOver then r
    else r.(pendingGame := Some(game), pendingBy := player, talk := r.talk + [Asked(player, game)])
  }

  function EnsurePlayerFirst(r: Room, first: int): Room {
    if r.player2.None? || r.player1.id == first then r
    else r.(player1 := r.player2.value, player2 := Some(r.player1), name1 := r.name2, name2 := r.name1)
  }

  function StartAgreed(r: Room, second: int, game: Game): Room {
    var s := EnsurePlayerFirst(r, r.pendingBy);
    ClearPending(s).(game := game, state := Initial(game), gameOver := false, turn := s.player1.id,
                     talk := r.talk + [Started(r.pendingBy, second, game)])
  }

  // The repeat button inside a chat: the presser moves to the first seat and the game restarts.
  function RestartInChat(r: Room, user: User): Room {
    var s := if user.id != r.player1.id then r.(player1 := user, player2 := Some(r.player1)) else r;
    s.(turn := s.player1.id, state := ResetState(r.state), talk := r.talk + [Restarted])
  }

  // ----- handlers -----

  datatype Event =
    | SelectGame(user: User, game: Game, name: string)
    | JoinLink(user: User, creator: int, name: string)
    | ChatAccept(user: User, game: Game, name: string, partnerName: string)
    | Finish(player: int)
    | Move(player: int, turn: int, state: State, ends: bool)
    | EndDare(player: int)
    | Repeat(user: User)
    | Accept(player: int, game: Game)
    | Reject(player: int)
    | ChatOpens(a: int, b: int)
    | ChatEnds(player: int)

  function Step(l: Lobby, e: Event): Lobby {
    match e
    case SelectGame(u, game, name) =>
      var room := RoomOf(l, u.id);
      if u.id in l.partner && room.Some? then l
      else if room.Some? && room.value.player2.Some? then Save(l, Ask(room.value, u.id, game))
      else CreateRoom(RemoveRoomsOf(l, u.id), u, game, name)
    case JoinLink(u, creator, name) =>
      var room := RoomOf(l, creator);
      if RoomOf(l, u.id).Some? || u.id == creator || room.None? || room.value.player2.Some? then l
      else JoinRoom(l, room.value.id, u, name)
    case ChatAccept(u, game, name, partnerName) =>
      if u.id !in l.partner then l
      else if RoomOf(l, u.id).Some? || RoomOf(l, l.partner[u.id]).Some? then l
      else
        var cleared := RemoveRoomsOf(RemoveRoomsOf(l, u.id), l.partner[u.id]);
        JoinRoom(CreateRoom(cleared, u, game, name), l.nextId + 1, User(l.partner[u.id], ""), partnerName)
    case Finish(p) => RemoveRoomsOf(l, p)
    case Move(p, turn, state, ends) =>
      var room := RoomOf(l, p);
      if room.None? || room.value.gameOver then l
      else if !ends then Save(l, room.value.(turn := turn, state := state))
      else if room.value.player1.id in l.partner then RemoveRoom(l, room.value.id)
      else Save(l, MarkOver(room.value.(turn := turn, state := state)))
    case EndDare(p) =>
      var room := RoomOf(l, p);
      if room.None? || room.value.game != DareAndTruth then l
      else if p in l.partner then RemoveRoom(l, room.value.id)
      else if room.value.player1.id in l.partner then l
      else Save(l, MarkOver(room.value))
    case Repeat(u) =>
      var room := RoomOf(l, u.id);
      if room.None? || room.value.player2.None? then l
      else if u.id !in l.partner then Save(l, Ask(room.value, u.id, room.value.game))
      else Save(l, RestartInChat(room.value, u))
    case Accept(p, game) =>
      var room := RoomOf(l, p);
      if room.None? || room.value.player2.None? || p in l.partner then l
      else if room.value.pendingGame != Some(game) || room.value.pendingBy in {0, p} then l
      else Save(l, StartAgreed(room.value, p, game))
    case Reject(p) =>
      var room := RoomOf(l, p);
      if room.None? || p in l.partner then l
      else Save(l, ClearPending(room.value).(talk := room.value.talk + [Declined]))
    case ChatOpens(a, b) =>
      if a == b || a in l.partner || b in l.partner then l
      else l.(partner := l.partner[a := b][b := a])
    case ChatEnds(p) =>
      if p !in l.partner then l
      else
        var q := l.partner[p];
        RemoveRoomsOf(RemoveRoomsOf(l.(partner := l.partner - {p, q}), p), q)
  }

  // ----- what the history says -----

  // The request still open after this history.
  function PendingOf(talk: seq<Talk>): Option<(int, Game)> {
    if talk == [] then None
    else match talk[|talk| - 1]
      case Asked(who, game) => Some((who, game))
      case Restarted => PendingOf(talk[..|talk| - 1])
      case _ => None
  }

  function OverOf(talk: seq<Talk>): bool {
    if talk == [] then false
    else match talk[|talk| - 1]
      case Ended => true
      case Started(_, _, _) => false
      case _ => OverOf(talk[..|talk| - 1])
  }

  /** Every new game was agreed on: the game before it was over, one member had asked for exactly
      this game, nothing had withdrawn the request, and the other member accepted. */
  ghost predicate Agreed(talk: seq<Talk>, members: set<int>) {
    forall i | 0 <= i < |talk| ::
      && (talk[i].Asked? ==> OverOf(talk[..i]))
      && (talk[i].Started? ==>
            && OverOf(talk[..i])
            && PendingOf(talk[..i]) == Some((talk[i].first, talk[i].game))
            && talk[i].first != talk[i].second && members == {talk[i].first, talk[i].second})
  }

  // ----- the invariant -----

  ghost predicate RoomOk(r: Room) {
    && r.player1.id > 0
    && (r.player2.Some? ==> r.player2.value.id > 0 && r.player2.value.id != r.player1.id)
    && r.gameOver == OverOf(r.talk)
    && PendingOf(r.talk) == (if r.pendingGame.Some? then Some((r.pendingBy, r.pendingGame.value)) else None)
    && (r.pendingGame.Some? ==> r.gameOver && r.player2.Some? && r.pendingBy in Members(r))
    && (r.pendingGame.None? ==> r.pendingBy == 0)
    && Agreed(r.talk, Members(r))
  }

  predicate Sits(l: Lobby, id: int, player: int) {
    id in l.rooms && player in Members(l.rooms[id])
  }

  /** The player keys point exactly at the rooms their players are in. */
  ghost predicate IndexOk(l: Lobby) {
    && (forall p | p in l.index :: Sits(l, l.index[p], p))
    && (forall id, p | Sits(l, id, p) :: p in l.index && l.index[p] == id)
  }

  ghost predicate Inv(l: Lobby) {
    && IndexOk(l)
    && (forall id | id in l.rooms :: l.rooms[id].id == id <= l.nextId && RoomOk(l.rooms[id]))
    && (forall u | u in l.partner :: u > 0 && l.partner[u] > 0 && l.partner[u] != u)
  }

  /** Partners point at each other. */
  predicate Paired(l: Lobby) {
    forall u | u in l.partner :: l.partner[u] in l.partner && l.partner[l.partner[u]] == u
  }

  // ----- table lemmas -----

  lemma NobodyInTwoRooms(l: Lobby, player: int, id1: int, id2: int)
    requires Inv(l) && Sits(l, id1, player) && Sits(l, id2, player)
    ensures id1 == id2
  {
  }

  lemma RoomOfMember(l: Lobby, player: int)
    requires Inv(l)
    ensures RoomOf(l, player).Some? <==> player in l.index
    ensures RoomOf(l, player).Some? ==>
      var r := RoomOf(l, player).value;
      r.id in l.rooms && l.rooms[r.id] == r && player in Members(r) && RoomOk(r) && r.id <= l.nextId
  {
    if player in l.index {
      assert Sits(l, l.index[player], player);
    }
  }

  // Saving a room whose new members, if any, are in no other room.
  lemma SaveKeeps(l: Lobby, r: Room)
    requires Inv(l) && RoomOk(r) && r.id <= l.nextId
    requires r.id in l.rooms ==> Members(l.rooms[r.id]) <= Members(r)
    requires forall p | p in Members(r) && p in l.index :: l.index[p] == r.id
    ensures Inv(Save(l, r))
  {
    var t := Save(l, r);
    assert forall p :: p in t.index <==> p in l.index || p in Members(r);
    forall p | p in t.index ensures Sits(t, t.index[p], p) {
      if p !in Members(r) {
        assert Sits(l, l.index[p], p);
      }
    }
    forall id, p | Sits(t, id, p) ensures p in t.index && t.index[p] == id {
      if id != r.id {
        assert Sits(l, id, p);
      }
    }
  }

  lemma RemoveKeeps(l: Lobby, id: int)
    requires Inv(l)
    ensures Inv(RemoveRoom(l, id))
    ensures id in l.rooms ==> RemoveRoom(l, id).index == l.index - Members(l.rooms[id])
  {
    if id in l.rooms {
      var t := RemoveRoom(l, id);
      forall p | p in t.index ensures Sits(t, t.index[p], p) {
        assert Sits(l, l.index[p], p);
      }
      forall i, p | Sits(t, i, p) ensures p in t.index && t.index[p] == i {
        assert Sits(l, i, p);
        assert p in Members(l.rooms[id]) ==> Sits(l, id, p);
      }
    }
  }

  /** Removal leaves no dangling key: afterwards the player is in no room. */
  lemma RemoveOfKeeps(l: Lobby, player: int)
    requires Inv(l)
    ensures Inv(RemoveRoomsOf(l, player)) && player !in RemoveRoomsOf(l, player).index
    ensures RoomOf(l, player).None? ==> RemoveRoomsOf(l, player) == l
    ensures RoomOf(l, player).Some? ==>
      var r := RoomOf(l, player).value;
      RemoveRoomsOf(l, player) == l.(rooms := l.rooms - {r.id}, index := l.index - Members(r))
    ensures RemoveRoomsOf(l, player).index.Keys <= l.index.Keys
    ensures RemoveRoomsOf(l, player).nextId == l.nextId && RemoveRoomsOf(l, player).partner == l.partner
  {
    RoomOfMember(l, player);
    if RoomOf(l, player).Some? {
      RemoveKeeps(l, RoomOf(l, player).value.id);
    }
  }

  lemma CreateKeeps(l: Lobby, user: User, game: Game, name: string)
    requires Inv(l) && user.id > 0 && user.id !in l.index
    ensures Inv(CreateRoom(l, user, game, name))
  {
    var n := l.(nextId := l.nextId + 1);
    assert IndexOk(n) by {
      forall p | p in n.index ensures Sits(n, n.index[p], p) { assert Sits(l, l.index[p], p); }
      forall id, p | Sits(n, id, p) ensures p in n.index && n.index[p] == id { assert Sits(l, id, p); }
    }
    SaveKeeps(n, Room(n.nextId, user, None, name, "", user.id, false, None, 0, game, Initial(game), []));
  }

  lemma NothingStartedAlone(r: Room)
    requires RoomOk(r) && r.player2.None?
    ensures forall i | 0 <= i < |r.talk| :: !r.talk[i].Started?
  {
    assert forall a, b | Members(r) == {a, b} :: a in Members(r) && b in Members(r);
  }

  lemma JoinKeeps(l: Lobby, id: int, user: User, name: string)
    requires Inv(l) && user.id > 0 && user.id !in l.index
    ensures Inv(JoinRoom(l, id, user, name))
  {
    if id in l.rooms && l.rooms[id].player2.None? {
      var r := l.rooms[id].(player2 := Some(user), name2 := name);
      assert Sits(l, id, r.player1.id);
      NothingStartedAlone(l.rooms[id]);
      SaveKeeps(l, r);
    }
  }

  // ----- room lemmas -----

  // One more line of history.
  lemma Tell(talk: seq<Talk>, t: Talk, members: set<int>)
    requires Agreed(talk, members)
    requires t.Asked? ==> OverOf(talk)
    requires t.Started? ==> OverOf(talk) && PendingOf(talk) == Some((t.first, t.game))
                            && t.first != t.second && members == {t.first, t.second}
    ensures Agreed(talk + [t], members)
    ensures (talk + [t])[..|talk|] == talk
  {
    var u := talk + [t];
    assert u[..|talk|] == talk;
    forall i | 0 <= i < |u|
      ensures u[i].Asked? ==> OverOf(u[..i])
      ensures u[i].Started? ==> OverOf(u[..i]) && PendingOf(u[..i]) == Some((u[i].first, u[i].game))
                                && u[i].first != u[i].second && members == {u[i].first, u[i].second}
    {
      if i < |talk| {
        assert u[..i] == talk[..i] && u[i] == talk[i];
      }
    }
  }

  lemma MarkOverOk(r: Room)
    requires RoomOk(r)
    ensures RoomOk(MarkOver(r)) && Members(MarkOver(r)) == Members(r)
    ensures MarkOver(r) == r.(gameOver := true, pendingGame := None, pendingBy := 0, talk := r.talk + [Ended])
  {
    Tell(r.talk, Ended, Members(r));
  }

  lemma AskOk(r: Room, player: int, game: Game)
    requires RoomOk(r) && player in Members(r) && r.player2.Some?
    ensures RoomOk(Ask(r, player, game)) && Members(Ask(r, player, game)) == Members(r)
    ensures !r.gameOver ==> Ask(r, player, game) == r
    ensures r.gameOver ==>
      Ask(r, player, game) == r.(pendingGame := Some(game), pendingBy := player,
                                 talk := r.talk + [Asked(player, game)])
  {
    if r.gameOver {
      Tell(r.talk, Asked(player, game), Members(r));
    }
  }

  lemma DeclineOk(r: Room)
    requires RoomOk(r)
    ensures RoomOk(ClearPending(r).(talk := r.talk + [Declined]))
  {
    Tell(r.talk, Declined, Members(r));
  }

  /** A seated player goes by the name stored for the seat, or else by his first name. */
  lemma SeatedPlayersAreNamed(r: Room)
    requires RoomOk(r)
    ensures r.name1 != "" ==> NameFor(r, r.player1.id) == r.name1
    ensures r.name1 == "" && r.player1.firstName != "" ==> NameFor(r, r.player1.id) == r.player1.firstName
    ensures r.player2.Some? && r.name2 != "" ==> NameFor(r, r.player2.value.id) == r.name2
    ensures r.player2.Some? && r.name2 == "" && r.player2.value.firstName != "" ==>
      NameFor(r, r.player2.value.id) == r.player2.value.firstName
    ensures forall p | p !in Members(r) :: NameFor(r, p) == NO_NAME
  {
  }

  /** The seat swap changes nobody's name. */
  lemma SwapKeepsNames(r: Room, first: int, player: int)
    requires RoomOk(r) && first in Members(r)
    ensures var s := EnsurePlayerFirst(r, first);
      NameFor(s, player) == NameFor(r, player) && Members(s) == Members(r) && s.player1.id == first
  {
  }

  /** Accepting starts the requested game with the requester to move and everyone's name intact. */
  lemma AcceptOk(r: Room, second: int, game: Game)
    requires RoomOk(r) && second in Members(r) && r.player2.Some?
    requires r.pendingGame == Some(game) && r.pendingBy != second
    ensures var s := StartAgreed(r, second, game);
      && RoomOk(s) && Members(s) == Members(r)
      && s.game == game && s.state == Initial(game) && s.turn == s.player1.id == r.pendingBy
      && !s.gameOver && s.pendingGame.None?
      && forall p :: NameFor(s, p) == NameFor(r, p)
  {
    Tell(r.talk, Started(r.pendingBy, second, game), Members(r));
    forall p ensures NameFor(StartAgreed(r, second, game), p) == NameFor(r, p) {
      SwapKeepsNames(r, r.pendingBy, p);
    }
  }

  lemma RestartOk(r: Room, user: User)
    requires RoomOk(r) && user.id in Members(r) && r.player2.Some?
    ensures RoomOk(RestartInChat(r, user)) && Members(RestartInChat(r, user)) == Members(r)
  {
    var s := RestartInChat(r, user);
    assert Members(s) == Members(r) && s.talk == r.talk + [Restarted];
    Tell(r.talk, Restarted, Members(r));
    assert PendingOf(s.talk) == PendingOf(r.talk) && OverOf(s.talk) == OverOf(r.talk);
  }

  /** The repeat button inside a chat moves the seats but not the names: with known names, both
      players keep theirs exactly when the presser already had the first seat or the names agree. */
  lemma RestartKeepsNamesExactlyWhen(r: Room, user: User)
    requires RoomOk(r) && user.id in Members(r) && r.player2.Some? && r.name1 != "" && r.name2 != ""
    ensures (forall p | p in Members(r) :: NameFor(RestartInChat(r, user), p) == NameFor(r, p))
       <==> user.id == r.player1.id || r.name1 == r.name2
  {
    if user.id != r.player1.id && r.name1 != r.name2 {
      assert NameFor(RestartInChat(r, user), user.id) != NameFor(r, user.id);
    }
  }

  // ----- steps -----

  predicate ValidEvent(e: Event) {
    match e
    case SelectGame(u, _, _) => u.id > 0
    case JoinLink(u, _, _) => u.id > 0
    case ChatAccept(u, _, _, _) => u.id > 0
    case ChatOpens(a, b) => a > 0 && b > 0
    case _ => true
  }

  // Saving a room that was read for one of its players and changed without changing its members.
  lemma SaveBack(l: Lobby, player: int, r: Room)
    requires Inv(l) && RoomOf(l, player).Some?
    requires RoomOk(r) && r.id == RoomOf(l, player).value.id && Members(r) == Members(RoomOf(l, player).value)
    ensures Inv(Save(l, r))
  {
    RoomOfMember(l, player);
    forall p | p in Members(r) && p in l.index ensures l.index[p] == r.id {
      assert Sits(l, r.id, p);
    }
    SaveKeeps(l, r);
  }

  lemma ChatsChange(l: Lobby, partner: map<int, int>)
    requires Inv(l) && forall u | u in partner :: u > 0 && partner[u] > 0 && partner[u] != u
    ensures Inv(l.(partner := partner))
  {
    var t := l.(partner := partner);
    forall p | p in t.index ensures Sits(t, t.index[p], p) { assert Sits(l, l.index[p], p); }
    forall id, p | Sits(t, id, p) ensures p in t.index && t.index[p] == id { assert Sits(l, id, p); }
  }

  /** Choosing a game: refused inside a chat that has a room, a request to the friend already seated,
      or a new room of one's own in place of the one still waiting. */
  lemma SelectKeeps(l: Lobby, u: User, game: Game, name: string)
    requires Inv(l) && u.id > 0
    ensures var t, was := Step(l, SelectGame(u, game, name)), RoomOf(l, u.id);
      && Inv(t)
      && (u.id in l.partner && was.Some? ==> t == l)
      && (u.id !in l.partner && was.Some? && was.value.player2.Some? ==>
            RoomOf(t, u.id) == Some(Ask(was.value, u.id, game)))
      && (was.None? || (u.id !in l.partner && was.value.player2.None?) ==>
            && t.nextId == l.nextId + 1
            && RoomOf(t, u.id) == Some(Room(t.nextId, u, None, name, "", u.id, false, None, 0, game, Initial(game), []))
            && (was.Some? ==> was.value.id !in t.rooms))
  {
    RoomOfMember(l, u.id);
    var room := RoomOf(l, u.id);
    if room.Some? && u.id !in l.partner && room.value.player2.Some? {
      AskOk(room.value, u.id, game);
      SaveBack(l, u.id, Ask(room.value, u.id, game));
    } else if room.None? || u.id !in l.partner {
      RemoveOfKeeps(l, u.id);
      CreateKeeps(RemoveRoomsOf(l, u.id), u, game, name);
    }
  }

  /** Following a link: the follower takes the free seat of the creator's room exactly when he has no
      room, is not the creator, and the seat is free; otherwise nothing happens. */
  lemma JoinLinkKeeps(l: Lobby, u: User, creator: int, name: string)
    requires Inv(l) && u.id > 0
    ensures var t, host := Step(l, JoinLink(u, creator, name)), RoomOf(l, creator);
      && Inv(t)
      && (u.id != creator && RoomOf(l, u.id).None? && host.Some? && host.value.player2.None? ==>
            var r := host.value.(player2 := Some(u), name2 := name);
            RoomOf(t, u.id) == RoomOf(t, creator) == Some(r) && r.player1.id == creator)
      && (!(u.id != creator && RoomOf(l, u.id).None? && host.Some? && host.value.player2.None?) ==> t == l)
  {
    RoomOfMember(l, u.id);
    RoomOfMember(l, creator);
    if u.id !in l.index && RoomOf(l, creator).Some? {
      JoinKeeps(l, RoomOf(l, creator).value.id, u, name);
    }
  }

  /** Accepting a chat game: nothing outside a chat or while either partner has a room, otherwise one
      new room with both partners in it. */
  lemma ChatAcceptKeeps(l: Lobby, u: User, game: Game, name: string, partnerName: string)
    requires Inv(l) && u.id > 0
    ensures var t := Step(l, ChatAccept(u, game, name, partnerName));
      && Inv(t)
      && (u.id !in l.partner || u.id in l.index || l.partner[u.id] in l.index ==> t == l)
      && (u.id in l.partner && u.id !in l.index && l.partner[u.id] !in l.index ==>
            && RoomOf(t, u.id).Some? && RoomOf(t, l.partner[u.id]) == RoomOf(t, u.id)
            && RoomOf(t, u.id).value == Room(t.nextId, u, Some(User(l.partner[u.id], "")), name, partnerName, u.id,
                                             false, None, 0, game, Initial(game), []))
  {
    if u.id in l.partner {
      var q := l.partner[u.id];
      RoomOfMember(l, u.id);
      RoomOfMember(l, q);
      if u.id !in l.index && q !in l.index {
        CreateKeeps(l, u, game, name);
        JoinKeeps(CreateRoom(l, u, game, name), l.nextId + 1, User(q, ""), partnerName);
      }
    }
  }

  /** A move: refused after the end; otherwise saved, and a move that ends the game closes the room
      inside a chat and leaves it open, without a request, between friends. */
  lemma MoveKeeps(l: Lobby, player: int, turn: int, state: State, ends: bool)
    requires Inv(l)
    ensures var t, was := Step(l, Move(player, turn, state, ends)), RoomOf(l, player);
      && Inv(t)
      && (was.None? || was.value.gameOver ==> t == l)
      && (was.Some? && !was.value.gameOver ==>
            && (!ends ==> RoomOf(t, player) == Some(was.value.(turn := turn, state := state)))
            && (ends && was.value.player1.id in l.partner ==>
                  was.value.id !in t.rooms && forall p <- Members(was.value) :: p !in t.index)
            && (ends && was.value.player1.id !in l.partner ==>
                  RoomOf(t, player) == Some(was.value.(turn := turn, state := state, gameOver := true,
                                                       pendingGame := None, pendingBy := 0,
                                                       talk := was.value.talk + [Ended]))))
  {
    RoomOfMember(l, player);
    var room := RoomOf(l, player);
    if room.Some? {
      var r := room.value.(turn := turn, state := state);
      MarkOverOk(r);
      SaveBack(l, player, r);
      SaveBack(l, player, MarkOver(r));
      RemoveKeeps(l, r.id);
    }
  }

  /** Ending a dare game touches no other game, closes the room inside a chat, and otherwise marks
      the game as over. */
  lemma EndDareKeeps(l: Lobby, player: int)
    requires Inv(l)
    ensures var t, was := Step(l, EndDare(player)), RoomOf(l, player);
      && Inv(t)
      && (was.None? || was.value.game != DareAndTruth ==> t == l)
      && (was.Some? && was.value.game == DareAndTruth ==>
            && (player in l.partner ==> was.value.id !in t.rooms && player !in t.index)
            && (player !in l.partner && was.value.player1.id in l.partner ==> t == l)
            && (player !in l.partner && was.value.player1.id !in l.partner ==>
                  RoomOf(t, player) == Some(MarkOver(was.value)) && MarkOver(was.value).gameOver))
  {
    RoomOfMember(l, player);
    var room := RoomOf(l, player);
    if room.Some? {
      MarkOverOk(room.value);
      SaveBack(l, player, MarkOver(room.value));
      RemoveKeeps(l, room.value.id);
    }
  }

  /** Repeating needs two players: between friends it is a request for the same game, inside a chat the
      game restarts with the presser first. */
  lemma RepeatKeeps(l: Lobby, u: User)
    requires Inv(l)
    ensures var t, was := Step(l, Repeat(u)), RoomOf(l, u.id);
      && Inv(t)
      && (was.None? || was.value.player2.None? ==> t == l)
      && (was.Some? && was.value.player2.Some? ==>
            RoomOf(t, u.id) == Some(if u.id in l.partner then RestartInChat(was.value, u)
                                    else Ask(was.value, u.id, was.value.game)))
  {
    RoomOfMember(l, u.id);
    var room := RoomOf(l, u.id);
    if room.Some? && room.value.player2.Some? {
      AskOk(room.value, u.id, room.value.game);
      RestartOk(room.value, u);
      SaveBack(l, u.id, Ask(room.value, u.id, room.value.game));
      SaveBack(l, u.id, RestartInChat(room.value, u));
    }
  }

  /** Accepting, outside a chat, exactly the game the other member has requested starts it in the same
      room: in its initial state, with no end mark and no request left, the requester first and to move,
      and everyone's name as before. Anything else changes nothing. */
  lemma AcceptKeeps(l: Lobby, player: int, game: Game)
    requires Inv(l)
    ensures var t, was := Step(l, Accept(player, game)), RoomOf(l, player);
      && Inv(t)
      && (was.Some? && player !in l.partner && was.value.pendingGame == Some(game) && was.value.pendingBy != player ==>
            && RoomOf(t, player).Some?
            && var s := RoomOf(t, player).value;
            && s.id == was.value.id && Members(s) == Members(was.value)
            && s.game == game && s.state == Initial(game) && !s.gameOver && s.pendingGame.None? && s.pendingBy == 0
            && s.turn == s.player1.id == was.value.pendingBy
            && forall p :: NameFor(s, p) == NameFor(was.value, p))
      && (!(was.Some? && player !in l.partner && was.value.pendingGame == Some(game) && was.value.pendingBy != player)
          ==> t == l)
  {
    RoomOfMember(l, player);
    var room := RoomOf(l, player);
    if room.Some? && room.value.player2.Some? && room.value.pendingGame == Some(game)
       && room.value.pendingBy !in {0, player} {
      AcceptOk(room.value, player, game);
      SaveBack(l, player, StartAgreed(room.value, player, game));
    }
  }

  /** Rejecting withdraws whatever was requested, outside a chat, and leaves the rest of the room. */
  lemma RejectKeeps(l: Lobby, player: int)
    requires Inv(l)
    ensures var t, was := Step(l, Reject(player)), RoomOf(l, player);
      && Inv(t)
      && (was.None? || player in l.partner ==> t == l)
      && (was.Some? && player !in l.partner ==>
            RoomOf(t, player) == Some(was.value.(pendingGame := None, pendingBy := 0,
                                                 talk := was.value.talk + [Declined])))
  {
    RoomOfMember(l, player);
    var room := RoomOf(l, player);
    if room.Some? {
      DeclineOk(room.value);
      SaveBack(l, player, ClearPending(room.value).(talk := room.value.talk + [Declined]));
    }
  }

  lemma ChatEndsKeeps(l: Lobby, player: int)
    requires Inv(l)
    ensures Inv(Step(l, ChatEnds(player)))
    ensures player in l.partner ==>
      var t := Step(l, ChatEnds(player)); player !in t.index && l.partner[player] !in t.index
  {
    if player in l.partner {
      var q := l.partner[player];
      var c := l.(partner := l.partner - {player, q});
      ChatsChange(l, l.partner - {player, q});
      RemoveOfKeeps(c, player);
      RemoveOfKeeps(RemoveRoomsOf(c, player), q);
    }
  }

  /** Finishing closes the presser's room for everyone in it. */
  lemma FinishKeeps(l: Lobby, player: int)
    requires Inv(l)
    ensures var t, was := Step(l, Finish(player)), RoomOf(l, player);
      && Inv(t) && RoomOf(t, player).None?
      && (was.Some? ==> was.value.id !in t.rooms && forall p <- Members(was.value) :: RoomOf(t, p).None?)
  {
    RoomOfMember(l, player);
    RemoveOfKeeps(l, player);
  }

  /** A chat makes partners of two who have none. */
  lemma ChatOpensKeeps(l: Lobby, a: int, b: int)
    requires Inv(l) && a > 0 && b > 0
    ensures Inv(Step(l, ChatOpens(a, b)))
    ensures Step(l, ChatOpens(a, b)) ==
      if a != b && a !in l.partner && b !in l.partner then l.(partner := l.partner[a := b][b := a]) else l
  {
    if a != b && a !in l.partner && b !in l.partner {
      ChatsChange(l, l.partner[a := b][b := a]);
    }
  }

  lemma StepKeeps(l: Lobby, e: Event)
    requires Inv(l) && ValidEvent(e)
    ensures Inv(Step(l, e))
  {
    match e
    case SelectGame(u, game, name) => SelectKeeps(l, u, game, name);
    case JoinLink(u, creator, name) => JoinLinkKeeps(l, u, creator, name);
    case ChatAccept(u, game, name, partnerName) => ChatAcceptKeeps(l, u, game, name, partnerName);
    case Finish(p) => FinishKeeps(l, p);
    case Move(p, turn, state, ends) => MoveKeeps(l, p, turn, state, ends);
    case EndDare(p) => EndDareKeeps(l, p);
    case Repeat(u) => RepeatKeeps(l, u);
    case Accept(p, game) => AcceptKeeps(l, p, game);
    case Reject(p) => RejectKeeps(l, p);
    case ChatOpens(a, b) => ChatOpensKeeps(l, a, b);
    case ChatEnds(p) => ChatEndsKeeps(l, p);
  }

  // Only chats that open or end change who talks to whom.
  lemma OthersKeepPartners(l: Lobby, e: Event)
    requires !e.ChatOpens? && !e.ChatEnds?
    ensures Step(l, e).partner == l.partner
  {
  }

  lemma StepKeepsPairs(l: Lobby, e: Event)
    requires Paired(l)
    ensures Paired(Step(l, e))
  {
    if e.ChatOpens? {
      assert Step(l, e).partner == l.partner || Step(l, e).partner == l.partner[e.a := e.b][e.b := e.a];
    } else if e.ChatEnds? {
      assert e.player in l.partner ==> Step(l, e).partner == l.partner - {e.player, l.partner[e.player]};
    } else {
      OthersKeepPartners(l, e);
    }
  }

  // The game of a room that stays is the same, and over if it was.
  predicate SameGame(l: Lobby, t: Lobby, id: int) {
    id in l.rooms && id in t.rooms ==>
      t.rooms[id].game == l.rooms[id].game && (l.rooms[id].gameOver ==> t.rooms[id].gameOver)
  }

  lemma SeatingKeepsGame(l: Lobby, e: Event, id: int)
    requires Inv(l) && (e.SelectGame? || e.JoinLink? || e.ChatAccept? || e.Finish? || e.ChatOpens? || e.ChatEnds?)
    ensures SameGame(l, Step(l, e), id)
  {
  }

  lemma PlayingKeepsGame(l: Lobby, e: Event, id: int)
    requires Inv(l) && (e.Move? || e.EndDare? || e.Repeat? || e.Reject?)
    ensures SameGame(l, Step(l, e), id)
  {
  }

  /** A room's game is replaced, or reopened after it was over, only by accepting a request: the
      history then gains the request's start, and whoever asked moves first. */
  lemma GameReplacedOnlyByAccept(l: Lobby, e: Event, id: int)
    requires Inv(l) && ValidEvent(e) && id in l.rooms && id in Step(l, e).rooms
    ensures var r, s := l.rooms[id], Step(l, e).rooms[id];
      s.game != r.game || (r.gameOver && !s.gameOver) ==>
        && e.Accept? && r.gameOver && r.pendingGame == Some(e.game) && r.pendingBy != e.player
        && Members(r) == {r.pendingBy, e.player}
        && s.game == e.game && s.turn == s.player1.id == r.pendingBy
        && s.talk == r.talk + [Started(r.pendingBy, e.player, e.game)]
  {
    if e.Accept? {
      RoomOfMember(l, e.player);
    } else if e.Move? || e.EndDare? || e.Repeat? || e.Reject? {
      PlayingKeepsGame(l, e, id);
    } else {
      SeatingKeepsGame(l, e, id);
    }
  }

  // The players whose rooms an event is about.
  function Concerned(l: Lobby, e: Event): set<int> {
    match e
    case SelectGame(u, _, _) => {u.id}
    case JoinLink(u, creator, _) => {u.id, creator}
    case ChatAccept(u, _, _, _) => {u.id} + if u.id in l.partner then {l.partner[u.id]} else {}
    case Finish(p) => {p}
    case Move(p, _, _, _) => {p}
    case EndDare(p) => {p}
    case Repeat(u) => {u.id}
    case Accept(p, _) => {p}
    case Reject(p) => {p}
    case ChatOpens(a, b) => {a, b}
    case ChatEnds(p) => {p} + if p in l.partner then {l.partner[p]} else {}
  }

  lemma RemoveLeavesOthers(l: Lobby, player: int, id: int)
    requires Inv(l) && id in l.rooms && player !in Members(l.rooms[id])
    ensures var t := RemoveRoomsOf(l, player); id in t.rooms && t.rooms[id] == l.rooms[id]
  {
    RoomOfMember(l, player);
  }

  lemma SeatingLeavesOthers(l: Lobby, e: Event, id: int)
    requires Inv(l) && id in l.rooms && Concerned(l, e) !! Members(l.rooms[id])
    requires e.SelectGame? || e.JoinLink? || e.ChatAccept? || e.Finish? || e.ChatOpens? || e.ChatEnds?
    ensures id in Step(l, e).rooms && Step(l, e).rooms[id] == l.rooms[id]
  {
    match e
    case SelectGame(u, _, _) =>
      RoomOfMember(l, u.id);
      RemoveLeavesOthers(l, u.id, id);
    case JoinLink(u, creator, _) => RoomOfMember(l, creator);
    case ChatAccept(u, _, _, _) =>
    case Finish(p) => RemoveLeavesOthers(l, p, id);
    case ChatOpens(a, b) =>
    case ChatEnds(p) =>
      if p in l.partner {
        var c := l.(partner := l.partner - {p, l.partner[p]});
        ChatsChange(l, c.partner);
        RemoveOfKeeps(c, p);
        RemoveLeavesOthers(c, p, id);
        RemoveLeavesOthers(RemoveRoomsOf(c, p), l.partner[p], id);
      }
  }

  lemma PlayingLeavesOthers(l: Lobby, e: Event, id: int)
    requires Inv(l) && id in l.rooms && Concerned(l, e) !! Members(l.rooms[id])
    requires e.Move? || e.EndDare? || e.Repeat? || e.Reject? || e.Accept?
    ensures id in Step(l, e).rooms && Step(l, e).rooms[id] == l.rooms[id]
  {
    RoomOfMember(l, if e.Repeat? then e.user.id else e.player);
  }

  /** Every event leaves the rooms of all other players exactly as they are, and their keys with them. */
  lemma EventsLeaveOthers(l: Lobby, e: Event, p: int)
    requires Inv(l) && ValidEvent(e) && p in l.index
    requires RoomOf(l, p).Some? && Concerned(l, e) !! Members(RoomOf(l, p).value)
    ensures RoomOf(Step(l, e), p) == RoomOf(l, p)
  {
    RoomOfMember(l, p);
    var r := RoomOf(l, p).value;
    if e.Move? || e.EndDare? || e.Repeat? || e.Reject? || e.Accept? {
      PlayingLeavesOthers(l, e, r.id);
    } else {
      SeatingLeavesOthers(l, e, r.id);
    }
    StepKeeps(l, e);
    assert Sits(Step(l, e), r.id, p);
  }

  // ----- runs -----

  function Run(events: seq<Event>): Lobby {
    if events == [] then Lobby(map[], map[], 0, map[])
    else Step(Run(events[..|events| - 1]), events[|events| - 1])
  }

  /** Over every run: player keys and rooms agree, so nobody is in two rooms; a pending request
      means a finished game and a requester in the room; and every next game was agreed on. */
  lemma {:induction false} RunKeepsRooms(events: seq<Event>)
    requires forall i | 0 <= i < |events| :: ValidEvent(events[i])
    ensures Inv(Run(events)) && Paired(Run(events))
  {
    if events != [] {
      RunKeepsRooms(events[..|events| - 1]);
      StepKeepsPairs(Run(events[..|events| - 1]), events[|events| - 1]);
      StepKeeps(Run(events[..|events| - 1]), events[|events| - 1]);
    }
  }

  // ----- a restart under the wrong name -----

  // Two friends in a dare game meet in a chat.
  function Friends(): Lobby {
    Run([SelectGame(User(1, "a"), DareAndTruth, "a"), JoinLink(User(2, "b"), 1, "b"), ChatOpens(1, 2)])
  }

  lemma FriendsAreSeated()
    ensures 2 in Friends().partner && RoomOf(Friends(), 2).Some?
    ensures var r := RoomOf(Friends(), 2).value;
      r.player1 == User(1, "a") && r.player2 == Some(User(2, "b")) && r.name1 == "a" && r.name2 == "b"
  {
    var e1, e2, e3 := SelectGame(User(1, "a"), DareAndTruth, "a"), JoinLink(User(2, "b"), 1, "b"), ChatOpens(1, 2);
    assert [e1, e2, e3][..2] == [e1, e2] && [e1, e2][..1] == [e1] && [e1][..0] == [];
    var waiting := Run([e1]);
    assert waiting == Step(Run([]), e1);
    assert RoomOf(waiting, 1).Some? && RoomOf(waiting, 1).value.player2.None? && 2 !in waiting.index;
    var seated := Run([e1, e2]);
    assert seated == Step(waiting, e2);
    assert RoomOf(seated, 2).Some? && seated.partner == map[];
    assert Friends() == Step(seated, e3);
  }

  /** When the second of them presses repeat, he is shown under the name of the first. */
  lemma RestartShowsWrongName()
    ensures var t := Step(Friends(), Repeat(User(2, "b")));
      && RoomOf(t, 2).Some? && NameFor(RoomOf(t, 2).value, 2) == "a"
      && NameFor(RoomOf(Friends(), 2).value, 2) == "b"
  {
    FriendsAreSeated();
  }
}
