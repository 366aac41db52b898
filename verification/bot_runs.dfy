/** The chat service and the rooms together: one record of chats, written by the worker and by ending
    a chat, and read by the queue's guards and by every handler of a room. */
module BotRuns {
  import opened Options
  import ChatStore
  import ChatSteps
  import ChatRuns
  import Rooms
  import GameRooms

  datatype Bot = Bot(store: ChatStore.Store, lobby: Rooms.Lobby)

  // Who talks to whom, as the chat records tell it.
  function PartnersOf(s: ChatStore.Store): map<int, int> {
    map u | u in s.chats :: ChatStore.Partner(s, u)
  }

  datatype Event =
    | Search(c: ChatRuns.Event)
    | Play(g: GameRooms.Event)
    | EndChat(user: ChatStore.UserId)

  // Chats open and end only through the chat service.
  predicate ValidEvent(e: Event) {
    match e
    case Search(c) => !c.End?
    case Play(g) => g.Seating? ==> Rooms.ValidEvent(g.e) && !g.e.ChatOpens? && !g.e.ChatEnds?
    case EndChat(_) => true
  }

  function Step(letters: set<char>, b: Bot, e: Event): Bot {
    match e
    case Search(c) =>
      var s := ChatRuns.Step(b.store, c);
      Bot(s, b.lobby.(partner := PartnersOf(s)))
    case Play(g) => b.(lobby := GameRooms.Step(letters, b.lobby, g))
    case EndChat(u) => Bot(ChatStore.EndChat(b.store, u), Rooms.Step(b.lobby, Rooms.ChatEnds(u)))
  }

  /** Both halves are in order, and rooms see exactly the chats there are. */
  ghost predicate Good(letters: set<char>, b: Bot) {
    ChatSteps.Good(b.store) && GameRooms.Good(letters, b.lobby) && b.lobby.partner == PartnersOf(b.store)
  }

  ghost predicate Carries(letters: set<char>, b: Bot, t: Bot) {
    && Good(letters, t) && b.store.coins.Keys <= t.store.coins.Keys
    && forall u | u in b.store.coins :: ChatStore.Wealth(t.store, u) == ChatStore.Wealth(b.store, u)
  }

  lemma PartnersAreValid(s: ChatStore.Store)
    requires ChatStore.ChatInv(s)
    ensures forall u | u in PartnersOf(s) ::
      u > 0 && PartnersOf(s)[u] > 0 && PartnersOf(s)[u] != u
      && PartnersOf(s)[u] in PartnersOf(s) && PartnersOf(s)[PartnersOf(s)[u]] == u
  {
    forall u: ChatStore.UserId | u in s.chats
      ensures ChatStore.Partner(s, u) > 0 && ChatStore.Partner(s, u) != u
      ensures ChatStore.Partner(s, u) in s.chats && ChatStore.Partner(s, ChatStore.Partner(s, u)) == u
    {
    }
  }

  lemma SearchCarries(letters: set<char>, b: Bot, c: ChatRuns.Event)
    requires Good(letters, b)
    ensures Carries(letters, b, Step(letters, b, Search(c)))
  {
    ChatRuns.StepCarries(b.store, c);
    var s := ChatRuns.Step(b.store, c);
    PartnersAreValid(s);
    Rooms.ChatsChange(b.lobby, PartnersOf(s));
  }

  lemma PlayCarries(letters: set<char>, b: Bot, g: GameRooms.Event)
    requires Good(letters, b) && ValidEvent(Play(g))
    ensures Carries(letters, b, Step(letters, b, Play(g)))
    ensures Step(letters, b, Play(g)) == Bot(b.store, GameRooms.Step(letters, b.lobby, g))
  {
    GameRooms.StepKeepsGames(letters, b.lobby, g);
    PlayKeepsPartners(letters, b.lobby, g);
  }

  lemma PlayKeepsPartners(letters: set<char>, l: Rooms.Lobby, g: GameRooms.Event)
    requires ValidEvent(Play(g))
    ensures GameRooms.Step(letters, l, g).partner == l.partner
  {
    match g
    case Seating(s) => Rooms.OthersKeepPartners(l, s);
    case Press(p, game, x, y) =>
    case Guess(a) =>
    case SmallMove(p, turn, data, ends) =>
  }

  lemma EndChatPartners(s: ChatStore.Store, u: ChatStore.UserId)
    requires ChatSteps.Good(s) && u in s.chats
    ensures PartnersOf(ChatStore.EndChat(s, u)) == PartnersOf(s) - {u, ChatStore.Partner(s, u)}
  {
    ChatSteps.EndChatKeeps(s, u);
  }

  lemma EndChatCarries(letters: set<char>, b: Bot, u: ChatStore.UserId)
    requires Good(letters, b)
    ensures Carries(letters, b, Step(letters, b, EndChat(u)))
  {
    ChatSteps.EndChatKeeps(b.store, u);
    GameRooms.StepKeepsGames(letters, b.lobby, GameRooms.Seating(Rooms.ChatEnds(u)));
    if u in b.store.chats {
      EndChatPartners(b.store, u);
      ChatEndsPartners(b.lobby, u);
    }
  }

  lemma ChatEndsPartners(l: Rooms.Lobby, u: int)
    requires u in l.partner
    ensures Rooms.Step(l, Rooms.ChatEnds(u)).partner == l.partner - {u, l.partner[u]}
  {
  }

  // Nothing but the price stands between the queue and a user who neither waits nor chats.
  lemma FreeToSearch(s: ChatStore.Store, p: ChatStore.UserId, cost: int)
    requires ChatStore.Inv(s) && p !in s.waiting && p !in s.chats
    ensures ChatSteps.Admits(s, p, cost) <==> (cost > 0 ==> ChatStore.CanPay(s, p, cost))
  {
  }

  lemma ChatIsGone(s: ChatStore.Store, u: ChatStore.UserId, p: ChatStore.UserId)
    requires ChatSteps.Good(s) && u in s.chats && (p == u || p == ChatStore.Partner(s, u))
    ensures var t := ChatStore.EndChat(s, u);
      p in s.chats && ChatStore.Inv(t) && p !in t.chats && p !in t.waiting
  {
    ChatSteps.EndChatKeeps(s, u);
  }

  lemma RoomIsGone(l: Rooms.Lobby, u: int, p: int)
    requires Rooms.Inv(l) && u in l.partner && p in {u, l.partner[u]}
    ensures var t := Rooms.Step(l, Rooms.ChatEnds(u)); p !in t.partner && Rooms.RoomOf(t, p) == None
  {
    Rooms.ChatEndsKeeps(l, u);
    ChatEndsPartners(l, u);
  }

  /** Ending a chat frees both: no chat, no room, and nothing but the price of a search between either
      of them and the queue. */
  lemma EndChatFreesBoth(letters: set<char>, b: Bot, u: ChatStore.UserId, p: ChatStore.UserId, cost: int)
    requires Good(letters, b) && u in b.store.chats && (p == u || p == ChatStore.Partner(b.store, u))
    ensures var t := Step(letters, b, EndChat(u));
      && p !in t.store.chats && p !in t.lobby.partner && Rooms.RoomOf(t.lobby, p) == None
      && (ChatSteps.Admits(t.store, p, cost) <==> (cost > 0 ==> ChatStore.CanPay(t.store, p, cost)))
  {
    ChatIsGone(b.store, u, p);
    assert u in b.lobby.partner && b.lobby.partner[u] == ChatStore.Partner(b.store, u);
    RoomIsGone(b.lobby, u, p);
    FreeToSearch(ChatStore.EndChat(b.store, u), p, cost);
  }

  lemma StepCarries(letters: set<char>, b: Bot, e: Event)
    requires Good(letters, b) && ValidEvent(e)
    ensures Carries(letters, b, Step(letters, b, e))
  {
    match e
    case Search(c) => SearchCarries(letters, b, c);
    case Play(g) => PlayCarries(letters, b, g);
    case EndChat(u) => EndChatCarries(letters, b, u);
  }

  function Run(letters: set<char>, b: Bot, events: seq<Event>): Bot
    decreases |events|
  {
    if events == [] then b else Run(letters, Step(letters, b, events[0]), events[1..])
  }

  /** Over every run of searches, ticks, games, requests and endings together: rooms see exactly the
      chats there are, every room's game is in order, and nobody's coins appear or disappear. */
  lemma {:induction false} RunKeepsBot(letters: set<char>, b: Bot, events: seq<Event>)
    requires Good(letters, b) && forall e <- events :: ValidEvent(e)
    ensures Carries(letters, b, Run(letters, b, events))
    decreases |events|
  {
    if events != [] {
      assert ValidEvent(events[0]);
      StepCarries(letters, b, events[0]);
      RunKeepsBot(letters, Step(letters, b, events[0]), events[1..]);
    }
  }

  lemma StartIsGood(letters: set<char>)
    ensures Good(letters, Bot(ChatRuns.Start(), Rooms.Run([])))
  {
    ChatRuns.StartIsGood();
  }

  // The part of a run that concerns the chat service.
  function ChatPart(events: seq<Event>): seq<ChatRuns.Event> {
    if events == [] then []
    else
      var rest := ChatPart(events[1..]);
      match events[0]
      case Search(c) => [c] + rest
      case Play(_) => rest
      case EndChat(u) => [ChatRuns.End(u)] + rest
  }

  /** The rooms never get in the way of the chat service: its stores go through exactly the run of its
      own events. */
  lemma {:induction false} ChatsRunAlone(letters: set<char>, b: Bot, events: seq<Event>)
    ensures Run(letters, b, events).store == ChatRuns.Run(b.store, ChatPart(events))
    decreases |events|
  {
    if events != [] {
      ChatsRunAlone(letters, Step(letters, b, events[0]), events[1..]);
      var rest := ChatPart(events[1..]);
      assert events[0].Search? ==> ([events[0].c] + rest)[1..] == rest;
      assert events[0].EndChat? ==> ([ChatRuns.End(events[0].user)] + rest)[1..] == rest;
    }
  }
}
