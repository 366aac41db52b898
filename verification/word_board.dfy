/** The word-guess duel as the mutable object the handlers update. */
module WordBoard {
  import opened Text
  import opened WordGame

  class GameWordGuess {
    var kind: Kind
    var targetLength: int
    var phase: Phase
    var creatorId: int
    var p1Secret: string
    var p2Secret: string
    var p1Ready: bool
    var p2Ready: bool
    var p1Display: string
    var p2Display: string
    var p1Wrong: seq<string>
    var p2Wrong: seq<string>
    var currentTurn: int
    // The room's end mark, kept here for the duration of one game.
    var over: bool
    // The accepted letters, kept as history for the proofs and never looked at.
    var p1Guessed: set<char>
    var p2Guessed: set<char>

    function View(): Word
      reads this
    {
      Word(kind, targetLength, phase, creatorId,
           Half(p1Secret, p1Ready, p1Display, p1Wrong, p1Guessed),
           Half(p2Secret, p2Ready, p2Display, p2Wrong, p2Guessed), currentTurn, over)
    }

    constructor ()
      ensures View() == Fresh()
    {
      kind, targetLength, phase, creatorId := Unset, 0, ChoosingType, 0;
      p1Secret, p2Secret, p1Ready, p2Ready := "", "", false, false;
      p1Display, p2Display, p1Wrong, p2Wrong := "", "", [], [];
      currentTurn, over, p1Guessed, p2Guessed := 0, false, {}, {};
    }

    // A game stored before.
    constructor Load(w: Word)
      ensures View() == w
    {
      kind, targetLength, phase, creatorId := w.kind, w.length, w.phase, w.creator;
      p1Secret, p2Secret, p1Ready, p2Ready := w.h1.secret, w.h2.secret, w.h1.ready, w.h2.ready;
      p1Display, p2Display, p1Wrong, p2Wrong := w.h1.display, w.h2.display, w.h1.wrong, w.h2.wrong;
      currentTurn, over, p1Guessed, p2Guessed := w.turn, w.over, w.h1.guessed, w.h2.guessed;
    }

    // The room's end mark is not the game's to clear.
    method Reset()
      modifies this
      ensures View() == Fresh().(over := old(over))
    {
      kind, targetLength, phase, creatorId := Unset, 0, ChoosingType, 0;
      p1Secret, p2Secret, p1Ready, p2Ready := "", "", false, false;
      p1Display, p2Display, p1Wrong, p2Wrong := "", "", [], [];
      currentTurn, p1Guessed, p2Guessed := 0, {}, {};
    }

    method PickType(player: int, kind: Kind)
      modifies this
      ensures View() == ChooseType(old(View()), player, kind)
    {
      if over || phase != ChoosingType {
        return;
      }
      this.kind := kind;
      phase := ChoosingLength;
      creatorId := player;
    }

    method PickLength(seats: Seats, player: int, length: int)
      modifies this
      ensures View() == ChooseLength(old(View()), seats, player, length)
    {
      if over || phase != ChoosingLength || player != creatorId {
        return;
      }
      targetLength := length;
      phase := WaitingSecrets;
      currentTurn := seats.player1;
    }

    static method Hidden(secret: string) returns (display: string)
      ensures display == HiddenDisplay(secret)
    {
      var parts: seq<string> := [];
      for i := 0 to |secret|
        invariant parts == Blanks(i)
      {
        parts := parts + ["_"];
      }
      display := JoinBlank(parts);
    }

    method StoreSecret(seats: Seats, player: int, secret: string) returns (stored: bool)
      modifies this
      ensures stored == !Own(old(View()), seats, player).ready
      ensures View() == if !stored then old(View())
        else WithOwn(old(View()), seats, player,
                     Own(old(View()), seats, player).(secret := secret, ready := true))
    {
      if player == seats.player1 {
        if p1Ready {
          return false;
        }
        p1Secret, p1Ready := secret, true;
      } else {
        if p2Ready {
          return false;
        }
        p2Secret, p2Ready := secret, true;
      }
      return true;
    }

    method StartPlay(seats: Seats)
      modifies this
      ensures View() == BeginPlay(old(View()), seats)
    {
      phase := Playing;
      currentTurn := seats.player1;
      p1Display := Hidden(p2Secret);
      p2Display := Hidden(p1Secret);
    }

    method TakeSecret(letters: set<char>, seats: Seats, player: int, secret: string)
      modifies this
      ensures View() == SubmitSecret(old(View()), letters, seats, player, secret)
    {
      if over || phase != WaitingSecrets || !ValidSecret(letters, kind, secret) || |secret| != targetLength {
        return;
      }
      var stored := StoreSecret(seats, player, secret);
      if stored && p1Ready && p2Ready {
        StartPlay(seats);
      }
    }

    static method ContainsLetter(texts: seq<string>, c: string) returns (found: bool)
      ensures found == (c in texts)
    {
      for i := 0 to |texts|
        invariant c !in texts[..i]
      {
        if texts[i] == c {
          return true;
        }
      }
      return false;
    }

    // Turns up every position of c; one slot per letter of the target is what the source relies on.
    static method TurnUp(display: string, target: string, c: string) returns (shown: string, found: bool)
      requires |Fields(display)| == |target|
      ensures shown == JoinBlank(Reveal(Fields(display), target, c))
      ensures found == Occurs(target, c)
    {
      var slots := Fields(display);
      found := false;
      for i := 0 to |target|
        invariant |slots| == |target|
        invariant forall j | 0 <= j < |slots| ::
          slots[j] == if j < i then Reveal(Fields(display), target, c)[j] else Fields(display)[j]
        invariant found <==> exists j | 0 <= j < i :: [target[j]] == c
      {
        if [target[i]] == c {
          slots := slots[i := [target[i]]];
          found := true;
        }
      }
      assert slots == Reveal(Fields(display), target, c);
      shown := JoinBlank(slots);
    }

    method ApplyGuess(seats: Seats, player: int, c: string) returns (found: bool)
      requires |c| == 1
      requires |Fields(Own(View(), seats, player).display)| == |Opponent(View(), seats, player).secret|
      modifies this
      ensures found == Occurs(Opponent(old(View()), seats, player).secret, c)
      ensures View() == WithOwn(old(View()), seats, player,
                Guess(Own(old(View()), seats, player), Opponent(old(View()), seats, player).secret, c))
    {
      if player == seats.player1 {
        p1Display, found := TurnUp(p1Display, p2Secret, c);
        if !found {
          p1Wrong := p1Wrong + [c];
        }
        p1Guessed := p1Guessed + {c[0]};
      } else {
        p2Display, found := TurnUp(p2Display, p1Secret, c);
        if !found {
          p2Wrong := p2Wrong + [c];
        }
        p2Guessed := p2Guessed + {c[0]};
      }
    }

    method AlreadyTried(seats: Seats, player: int, c: string) returns (tried: bool)
      ensures tried == AlreadyGuessed(Own(View(), seats, player), c)
    {
      var display, wrong := p1Display, p1Wrong;
      if player != seats.player1 {
        display, wrong := p2Display, p2Wrong;
      }
      tried := ContainsLetter(Fields(display), c);
      if !tried {
        tried := ContainsLetter(wrong, c);
      }
    }

    method PassTurn(seats: Seats)
      modifies this
      ensures View() == SwitchTurn(old(View()), seats)
    {
      if currentTurn == seats.player1 {
        currentTurn := seats.player2;
      } else {
        currentTurn := seats.player1;
      }
    }

    // The checks in front of a letter.
    method Accepts(letters: set<char>, seats: Seats, player: int, c: string) returns (ok: bool)
      ensures ok == AcceptsLetter(View(), letters, seats, player, c)
    {
      if over || kind == Num || phase != Playing || player != currentTurn
         || |c| != 1 || !ValidSecret(letters, kind, c) {
        return false;
      }
      var tried := AlreadyTried(seats, player, c);
      return !tried;
    }

    method PlayerHasWon(seats: Seats, player: int) returns (won: bool)
      ensures won == HasWon(Own(View(), seats, player))
    {
      won := if player == seats.player1 then '_' !in p1Display else '_' !in p2Display;
    }

    // A letter, pressed or typed.
    method TakeLetter(letters: set<char>, seats: Seats, player: int, c: string) returns (r: Reply)
      requires OneSlotEach(View(), seats, player)
      modifies this
      ensures (View(), r) == GuessLetter(old(View()), letters, seats, player, c)
    {
      var ok := Accepts(letters, seats, player, c);
      if !ok {
        return Refused;
      }
      var found := ApplyGuess(seats, player, c);
      var won := PlayerHasWon(seats, player);
      if won {
        over := true;
        return Won;
      }
      PassTurn(seats);
      return Done;
    }

    // A whole number, typed.
    method TakeNumber(letters: set<char>, seats: Seats, player: int, guess: string) returns (r: Reply)
      modifies this
      ensures (View(), r) == GuessNumber(old(View()), letters, seats, player, guess)
    {
      if over || kind != Num || phase != Playing || player != currentTurn
         || !ValidSecret(letters, Num, guess) || |guess| != targetLength {
        return Refused;
      }
      var target := if player == seats.player1 then p2Secret else p1Secret;
      if guess == target {
        over := true;
        return Won;
      }
      PassTurn(seats);
      return Done;
    }
  }
}
