/** The invitation link of a room: printed when a game is selected, parsed when a friend follows it. */
module JoinLink {
  import opened Options
  import opened Decimal

  import opened Rooms

  // The type names of the games the bot registers.
  function TypeName(game: Game): string {
    match game
    case Dooz4Gravity => "gameDooz4Gravity"
    case Dooz4Normal => "gameDooz4Normal"
    case DoozClassic => "gameDoozClassic"
    case DareAndTruth => "gameDareAndTruth"
    case Rps => "gameRPS"
    case WordGuess => "gameWordGuess"
  }

  // The length of the part of s before its first separator.
  function PartLength(s: string): (n: nat)
    ensures n <= |s|
    ensures forall i | 0 <= i < n :: s[i] != '_'
    ensures n < |s| ==> s[n] == '_'
  {
    if s == "" || s[0] == '_' then 0 else 1 + PartLength(s[1..])
  }

  // strings.Split on the separator.
  function Split(s: string): seq<string>
    decreases |s|
  {
    var n := PartLength(s);
    if n == |s| then [s] else [s[..n]] + Split(s[n + 1..])
  }

  function Print(creator: int, gameType: string): string {
    "join_" + Format(creator) + "_" + gameType
  }

  /** The creator and game type the handler reads; None for a payload of fewer than three parts. */
  function Parse(payload: string): Option<(int, string)> {
    var parts := Split(payload);
    if |parts| < 3 then None else Some((ParseInt(parts[1]).0, parts[2]))
  }

  lemma PartLengthOf(part: string, rest: string)
    requires '_' !in part
    ensures PartLength(part + "_" + rest) == |part| && PartLength(part) == |part|
  {
    var s := part + "_" + rest;
    assert s[|part|] == '_';
    assert forall i | 0 <= i < |part| :: part[i] in part && s[i] == part[i];
  }

  lemma SplitOff(part: string, rest: string)
    requires '_' !in part
    ensures Split(part + "_" + rest) == [part] + Split(rest)
  {
    PartLengthOf(part, rest);
    var s := part + "_" + rest;
    assert s[..|part|] == part && s[|part| + 1..] == rest;
  }

  // The first part is the whole text exactly when there is no separator.
  lemma FirstPart(s: string)
    ensures Split(s) != [] && (Split(s)[0] == s <==> '_' !in s)
  {
    if '_' !in s {
      PartLengthOf(s, "");
    } else {
      var i :| 0 <= i < |s| && s[i] == '_';
      assert PartLength(s) <= i;
    }
  }

  /** Parsing the printed link gives back the creator, for every 64-bit id, and the type exactly
      when the type holds no separator. */
  lemma RoundTripExactlyWhen(creator: int, gameType: string)
    requires MIN <= creator <= MAX
    ensures Parse(Print(creator, gameType)).Some? && Parse(Print(creator, gameType)).value.0 == creator
    ensures Parse(Print(creator, gameType)).value.1 == gameType <==> '_' !in gameType
  {
    FormatIsPlain(creator, '_');
    ParseFormat(creator);
    assert Print(creator, gameType) == "join" + "_" + (Format(creator) + "_" + gameType);
    SplitOff("join", Format(creator) + "_" + gameType);
    SplitOff(Format(creator), gameType);
    FirstPart(gameType);
  }

  lemma TypeNameIsPlain(game: Game)
    ensures '_' !in TypeName(game)
  {
  }

  lemma TypeNamesDiffer(g: Game, h: Game)
    requires TypeName(g) == TypeName(h)
    ensures g == h
  {
    assert |TypeName(g)| == |TypeName(h)|;
    assert TypeName(g)[5] == TypeName(h)[5];
    assert |TypeName(g)| > 8 ==> TypeName(g)[8] == TypeName(h)[8];
  }

  /** Every registered type survives the round trip. */
  lemma RegisteredTypesRoundTrip(creator: int, game: Game)
    requires MIN <= creator <= MAX
    ensures Parse(Print(creator, TypeName(game))) == Some((creator, TypeName(game)))
  {
    RoundTripExactlyWhen(creator, TypeName(game));
    TypeNameIsPlain(game);
  }

  /** Different invitations have different links. */
  lemma LinksAreDistinct(creator1: int, type1: string, creator2: int, type2: string)
    requires MIN <= creator1 <= MAX && MIN <= creator2 <= MAX && '_' !in type1 && '_' !in type2
    requires Print(creator1, type1) == Print(creator2, type2)
    ensures creator1 == creator2 && type1 == type2
  {
    RoundTripExactlyWhen(creator1, type1);
    RoundTripExactlyWhen(creator2, type2);
  }

  lemma FriendIsSeated(l: Lobby, creator: int, friend: User, name: string)
    requires Inv(l) && friend.id > 0 && friend.id !in l.index && friend.id != creator
    requires RoomOf(l, creator).Some? && RoomOf(l, creator).value.player2.None?
    ensures RoomOf(Step(l, Event.JoinLink(friend, creator, name)), friend.id)
         == Some(RoomOf(l, creator).value.(player2 := Some(friend), name2 := name))
    ensures RoomOf(l, creator).value.player1.id == creator
  {
    RoomOfMember(l, creator);
  }

  /** Following a link seats the friend in the creator's waiting room; the type the handler reads
      from the link is that room's type exactly when the creator has not chosen another game since. */
  lemma LinkMatchesRoomExactlyWhen(l: Lobby, creator: int, game: Game, friend: User, name: string)
    requires Inv(l) && MIN <= creator <= MAX && friend.id > 0 && friend.id !in l.index && friend.id != creator
    requires RoomOf(l, creator).Some? && RoomOf(l, creator).value.player2.None?
    ensures var link := Parse(Print(creator, TypeName(game)));
      link.Some? &&
      var after := RoomOf(Step(l, Event.JoinLink(friend, link.value.0, name)), friend.id);
      && after.Some? && Members(after.value) == {creator, friend.id}
      && (link.value.1 == TypeName(after.value.game) <==> game == RoomOf(l, creator).value.game)
  {
    RegisteredTypesRoundTrip(creator, game);
    FriendIsSeated(l, creator, friend, name);
    if TypeName(game) == TypeName(RoomOf(l, creator).value.game) {
      TypeNamesDiffer(game, RoomOf(l, creator).value.game);
    }
  }

  /** What the links say. */
  lemma LinkText(creator: int, game: Game)
    ensures Print(creator, TypeName(game)) == "join_" + Format(creator) + "_" +
      match game
      case Rps => "gameRPS"
      case WordGuess => "gameWordGuess"
      case Dooz4Normal => "gameDooz4Normal"
      case Dooz4Gravity => "gameDooz4Gravity"
      case DoozClassic => "gameDoozClassic"
      case DareAndTruth => "gameDareAndTruth"
    ensures Format(42) == "42"
  {
    assert Format(42) == Digits(4) + [DigitOf(2)];
  }
}
