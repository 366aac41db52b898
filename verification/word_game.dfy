/** The word-guess duel: both players hide a secret, then take turns guessing letters of the
    other's (or, in the number game, the whole number). */
module WordGame {
  import opened Text

  datatype Kind = Fa | En | Num | Unset | OtherKind(text: string)

  datatype Phase = ChoosingType | ChoosingLength | WaitingSecrets | Playing

  // One player's part: the secret they hid, and their progress on the other's secret.
  // guessed is the history of their accepted letters.
  datatype Half = Half(secret: string, ready: bool, display: string, wrong: seq<string>, guessed: set<char>)

  // over: the room was marked as finished, or removed, after a win.
  datatype Word = Word(kind: Kind, length: int, phase: Phase, creator: int, h1: Half, h2: Half,
                       turn: int, over: bool)

  datatype Seats = Seats(player1: int, player2: int)

  datatype Reply = Refused | Done | Won

  const MAX_SECRET := 12

  predicate Between(low: char, c: char, high: char) {
    low <= c <= high
  }

  // The letters a game of this kind accepts; letters is the set Go's unicode.IsLetter accepts.
  function Alphabet(letters: set<char>, kind: Kind): set<char> {
    match kind
    case Fa => set c | c in letters
                && (Between('\U{0600}', c, '\U{06FF}') || Between('\U{0750}', c, '\U{077F}'))
    case En => set c | Between('a', c, 'z')
    case Num => set c | Between('0', c, '9')
    case _ => {}
  }

  predicate ValidSecret(letters: set<char>, kind: Kind, text: string) {
    && 1 <= |text| <= MAX_SECRET
    && forall i | 0 <= i < |text| :: text[i] in Alphabet(letters, kind)
  }

  lemma LettersArePlain(letters: set<char>, kind: Kind, c: char)
    requires c in Alphabet(letters, kind)
    ensures !IsSpace(c) && c != '_'
  {
  }

  // A letter from a to z, a digit, or a letter of the two Arabic blocks.
  predicate Hideable(letters: set<char>, kind: Kind, c: char) {
    || (kind == En && 'a' <= c <= 'z')
    || (kind == Num && '0' <= c <= '9')
    || (kind == Fa && c in letters && ('\U{0600}' <= c <= '\U{06FF}' || '\U{0750}' <= c <= '\U{077F}'))
  }

  /** What can be hidden: one to twelve characters of the game's kind, and nothing in a game of any
      kind other than the three. */
  lemma ValidSecretExactlyWhen(letters: set<char>, kind: Kind, text: string)
    ensures forall c :: c in Alphabet(letters, kind) <==> Hideable(letters, kind, c)
    ensures ValidSecret(letters, kind, text) <==>
      1 <= |text| <= 12 && forall i | 0 <= i < |text| :: Hideable(letters, kind, text[i])
  {
    forall c ensures c in Alphabet(letters, kind) <==> Hideable(letters, kind, c) {
    }
    assert forall i | 0 <= i < |text| :: text[i] in Alphabet(letters, kind) <==> Hideable(letters, kind, text[i]);
  }

  // ----- displays -----

  function Blanks(n: nat): seq<string> {
    seq(n, i => "_")
  }

  function HiddenDisplay(secret: string): string {
    JoinBlank(Blanks(|secret|))
  }

  // Slots with every position of the letter c in target turned up.
  function Reveal(slots: seq<string>, target: string, c: string): seq<string> {
    seq(|slots|, i requires 0 <= i < |slots| => if i < |target| && [target[i]] == c then c else slots[i])
  }

  predicate Occurs(target: string, c: string) {
    exists i | 0 <= i < |target| :: [target[i]] == c
  }

  predicate AlreadyGuessed(h: Half, c: string) {
    c in Fields(h.display) || c in h.wrong
  }

  function Guess(h: Half, target: string, c: string): Half
    requires |c| == 1
  {
    h.(display := JoinBlank(Reveal(Fields(h.display), target, c)),
       wrong := if Occurs(target, c) then h.wrong else h.wrong + [c],
       guessed := h.guessed + {c[0]})
  }

  predicate HasWon(h: Half) {
    '_' !in h.display
  }

  // ----- steps -----

  function Fresh(): Word {
    Word(Unset, 0, ChoosingType, 0, Half("", false, "", [], {}), Half("", false, "", [], {}), 0, false)
  }

  function ChooseType(w: Word, player: int, kind: Kind): Word {
    if w.over || w.phase != ChoosingType then w
    else w.(kind := kind, phase := ChoosingLength, creator := player)
  }

  function ChooseLength(w: Word, seats: Seats, player: int, length: int): Word {
    if w.over || w.phase != ChoosingLength || player != w.creator then w
    else w.(length := length, phase := WaitingSecrets, turn := seats.player1)
  }

  function Own(w: Word, seats: Seats, player: int): Half {
    if player == seats.player1 then w.h1 else w.h2
  }

  function Opponent(w: Word, seats: Seats, player: int): Half {
    if player == seats.player1 then w.h2 else w.h1
  }

  function WithOwn(w: Word, seats: Seats, player: int, h: Half): Word {
    if player == seats.player1 then w.(h1 := h) else w.(h2 := h)
  }

  function SubmitSecret(w: Word, letters: set<char>, seats: Seats, player: int, secret: string): Word {
    var h := Own(w, seats, player);
    if w.over || w.phase != WaitingSecrets || !ValidSecret(letters, w.kind, secret)
       || |secret| != w.length || h.ready
    then w
    else
      var v := WithOwn(w, seats, player, h.(secret := secret, ready := true));
      if v.h1.ready && v.h2.ready then BeginPlay(v, seats) else v
  }

  // Both secrets are in: everything hidden, the first seat to move.
  function BeginPlay(w: Word, seats: Seats): Word {
    w.(phase := Playing, turn := seats.player1,
       h1 := w.h1.(display := HiddenDisplay(w.h2.secret)),
       h2 := w.h2.(display := HiddenDisplay(w.h1.secret)))
  }

  function SwitchTurn(w: Word, seats: Seats): Word {
    w.(turn := if w.turn == seats.player1 then seats.player2 else seats.player1)
  }

  predicate AcceptsLetter(w: Word, letters: set<char>, seats: Seats, player: int, c: string) {
    && !w.over && w.kind != Num && w.phase == Playing && player == w.turn
    && |c| == 1 && ValidSecret(letters, w.kind, c)
    && !AlreadyGuessed(Own(w, seats, player), c)
  }

  function GuessLetter(w: Word, letters: set<char>, seats: Seats, player: int, c: string): (Word, Reply) {
    if !AcceptsLetter(w, letters, seats, player, c) then (w, Refused)
    else
      var h := Guess(Own(w, seats, player), Opponent(w, seats, player).secret, c);
      var v := WithOwn(w, seats, player, h);
      if HasWon(h) then (v.(over := true), Won) else (SwitchTurn(v, seats), Done)
  }

  function GuessNumber(w: Word, letters: set<char>, seats: Seats, player: int, guess: string): (Word, Reply) {
    if w.over || w.kind != Num || w.phase != Playing || player != w.turn
       || !ValidSecret(letters, Num, guess) || |guess| != w.length
    then (w, Refused)
    else if guess == Opponent(w, seats, player).secret then (w.(over := true), Won)
    else (SwitchTurn(w, seats), Done)
  }

  // ----- what the displays mean -----

  // The secret with exactly the guessed letters turned up.
  function Slots(secret: string, guessed: set<char>): seq<string> {
    seq(|secret|, i requires 0 <= i < |secret| => if secret[i] in guessed then [secret[i]] else "_")
  }

  ghost predicate NoRepeats(texts: seq<string>) {
    forall i, j | 0 <= i < j < |texts| :: texts[i] != texts[j]
  }

  /** The half tells the truth about the target: the display shows it with the guessed letters
      turned up, and the wrong list holds the other guessed letters, once each. */
  ghost predicate Truthful(h: Half, target: string) {
    && h.display == JoinBlank(Slots(target, h.guessed))
    && NoRepeats(h.wrong)
    && (forall t | t in h.wrong :: |t| == 1 && t[0] in h.guessed && t[0] !in target)
    && (forall c | c in h.guessed && c !in target :: [c] in h.wrong)
  }

  ghost predicate Revealed(target: string, guessed: set<char>) {
    forall i | 0 <= i < |target| :: target[i] in guessed
  }

  // Positions of the target still hidden.
  ghost function HiddenSlots(target: string, guessed: set<char>): set<int> {
    set i | 0 <= i < |target| && target[i] !in guessed
  }

  function Concat(parts: seq<string>): string {
    if parts == [] then "" else parts[0] + Concat(parts[1..])
  }

  lemma SlotsAreWords(letters: set<char>, kind: Kind, target: string, guessed: set<char>)
    requires ValidSecret(letters, kind, target)
    ensures forall i | 0 <= i < |target| :: IsWord(Slots(target, guessed)[i])
    ensures Fields(JoinBlank(Slots(target, guessed))) == Slots(target, guessed)
  {
    forall i | 0 <= i < |target| ensures IsWord(Slots(target, guessed)[i]) {
      LettersArePlain(letters, kind, target[i]);
    }
    FieldsOfJoin(Slots(target, guessed));
  }

  /** A player has won, by the display, exactly when every letter of the secret was guessed. */
  lemma WonMeansRevealed(letters: set<char>, kind: Kind, h: Half, target: string)
    requires ValidSecret(letters, kind, target) && Truthful(h, target)
    ensures HasWon(h) <==> Revealed(target, h.guessed)
    ensures HasWon(h) <==> Concat(Fields(h.display)) == target
  {
    var slots := Slots(target, h.guessed);
    JoinContains(slots, '_');
    SlotsAreWords(letters, kind, target, h.guessed);
    forall i | 0 <= i < |target| ensures '_' in slots[i] <==> target[i] !in h.guessed {
      LettersArePlain(letters, kind, target[i]);
      assert slots[i] == if target[i] in h.guessed then [target[i]] else ['_'];
    }
    ConcatOfSlots(letters, kind, target, h.guessed);
  }

  lemma {:induction false} ConcatOfSlots(letters: set<char>, kind: Kind, target: string, guessed: set<char>)
    requires forall i | 0 <= i < |target| :: target[i] in Alphabet(letters, kind)
    ensures Concat(Slots(target, guessed)) == target <==> Revealed(target, guessed)
    ensures |Concat(Slots(target, guessed))| == |target|
  {
    if target != "" {
      var t := target[1..];
      ConcatOfSlots(letters, kind, t, guessed);
      assert Slots(target, guessed)[1..] == Slots(t, guessed);
      LettersArePlain(letters, kind, target[0]);
      var all := Concat(Slots(target, guessed));
      assert all[1..] == Concat(Slots(t, guessed)) && (target[0] in guessed <==> all[0] == target[0]);
      assert all == [all[0]] + all[1..] && target == [target[0]] + t;
      assert Revealed(target, guessed) <==> target[0] in guessed && Revealed(t, guessed) by {
        assert forall i | 1 <= i < |target| :: target[i] == t[i - 1];
      }
    }
  }

  /** "Already guessed", as the display and the wrong list tell it, is exactly the history. */
  lemma AlreadyMeansGuessed(letters: set<char>, kind: Kind, h: Half, target: string, c: string)
    requires ValidSecret(letters, kind, target) && Truthful(h, target)
    requires |c| == 1 && ValidSecret(letters, kind, c)
    ensures AlreadyGuessed(h, c) <==> c[0] in h.guessed
  {
    var slots := Slots(target, h.guessed);
    SlotsAreWords(letters, kind, target, h.guessed);
    LettersArePlain(letters, kind, c[0]);
    if c in slots {
      var i :| 0 <= i < |slots| && slots[i] == c;
      assert target[i] in h.guessed;
    }
    if c[0] in h.guessed {
      if c[0] in target {
        var i :| 0 <= i < |target| && target[i] == c[0];
        assert slots[i] == c;
      } else {
        assert c == [c[0]];
      }
    }
  }

  /** An accepted letter keeps the half truthful and makes progress: it turns up a hidden slot, or
      it adds one wrong letter. */
  lemma GuessMakesProgress(letters: set<char>, kind: Kind, h: Half, target: string, c: string)
    requires ValidSecret(letters, kind, target) && Truthful(h, target)
    requires |c| == 1 && ValidSecret(letters, kind, c) && !AlreadyGuessed(h, c)
    ensures var h' := Guess(h, target, c);
      && Truthful(h', target)
      && c[0] !in h.guessed && h'.guessed == h.guessed + {c[0]}
      && (Occurs(target, c) ==>
            h'.wrong == h.wrong && HiddenSlots(target, h'.guessed) < HiddenSlots(target, h.guessed))
      && (!Occurs(target, c) ==>
            |h'.wrong| == |h.wrong| + 1 && HiddenSlots(target, h'.guessed) == HiddenSlots(target, h.guessed))
  {
    AlreadyMeansGuessed(letters, kind, h, target, c);
    SlotsAreWords(letters, kind, target, h.guessed);
    var h' := Guess(h, target, c);
    assert c == [c[0]];
    assert Reveal(Slots(target, h.guessed), target, c) == Slots(target, h'.guessed);
    if Occurs(target, c) {
      var i :| 0 <= i < |target| && [target[i]] == c;
      assert i in HiddenSlots(target, h.guessed) && i !in HiddenSlots(target, h'.guessed);
    } else {
      assert forall i | 0 <= i < |target| :: [target[i]] != c;
    }
  }

  // ----- the state every game keeps -----

  ghost predicate HalfPlaying(letters: set<char>, w: Word, own: Half, other: Half) {
    && own.ready && ValidSecret(letters, w.kind, own.secret) && |own.secret| == w.length
    && (w.kind != Num ==> Truthful(own, other.secret) && own.guessed <= Alphabet(letters, w.kind))
  }

  ghost predicate HalfWaiting(letters: set<char>, w: Word, h: Half) {
    && h.wrong == [] && h.guessed == {}
    && (h.ready ==> w.phase == WaitingSecrets
                    && ValidSecret(letters, w.kind, h.secret) && |h.secret| == w.length)
  }

  predicate ValidSeats(seats: Seats) {
    seats.player1 != 0 && seats.player2 != 0 && seats.player1 != seats.player2
  }

  ghost predicate Inv(letters: set<char>, seats: Seats, w: Word) {
    if w.phase != Playing then
      && !w.over && !(w.h1.ready && w.h2.ready)
      && HalfWaiting(letters, w, w.h1) && HalfWaiting(letters, w, w.h2)
    else
      && HalfPlaying(letters, w, w.h1, w.h2) && HalfPlaying(letters, w, w.h2, w.h1)
      && w.turn in {seats.player1, seats.player2}
      && (w.kind != Num && !w.over ==>
            && !Revealed(w.h2.secret, w.h1.guessed) && !Revealed(w.h1.secret, w.h2.guessed)
            && |w.h1.guessed| - |w.h2.guessed| == (if w.turn == seats.player1 then 0 else 1))
      && (w.kind != Num && w.over ==>
            && Revealed(Opponent(w, seats, w.turn).secret, Own(w, seats, w.turn).guessed)
            && !Revealed(Own(w, seats, w.turn).secret, Opponent(w, seats, w.turn).guessed)
            && |w.h1.guessed| - |w.h2.guessed| == (if w.turn == seats.player1 then 1 else 0))
  }

  // Letters neither player has tried yet, counted for both: the measure of a word game.
  ghost function Untried(letters: set<char>, w: Word): nat {
    |Alphabet(letters, w.kind) - w.h1.guessed| + |Alphabet(letters, w.kind) - w.h2.guessed|
  }

  lemma HiddenIsTruthful(target: string)
    ensures Slots(target, {}) == Blanks(|target|)
    ensures forall h: Half | h.display == HiddenDisplay(target) && h.wrong == [] && h.guessed == {} ::
              Truthful(h, target)
  {
    assert Slots(target, {}) == Blanks(|target|);
  }

  predicate AcceptsSecret(w: Word, letters: set<char>, seats: Seats, player: int, secret: string) {
    && !w.over && w.phase == WaitingSecrets && ValidSecret(letters, w.kind, secret)
    && |secret| == w.length && !Own(w, seats, player).ready
  }

  /** An accepted secret is stored for good, and the second one starts play with everything hidden. */
  lemma SubmitKeepsInv(letters: set<char>, seats: Seats, w: Word, player: int, secret: string)
    requires ValidSeats(seats) && Inv(letters, seats, w) && player in {seats.player1, seats.player2}
    ensures var v := SubmitSecret(w, letters, seats, player, secret);
      && Inv(letters, seats, v)
      && (!AcceptsSecret(w, letters, seats, player, secret) ==> v == w)
      && (AcceptsSecret(w, letters, seats, player, secret) ==>
            && Own(v, seats, player).ready && Own(v, seats, player).secret == secret
            && Opponent(v, seats, player).ready == Opponent(w, seats, player).ready
            && Opponent(v, seats, player).secret == Opponent(w, seats, player).secret
            && (v.phase == Playing <==> Opponent(w, seats, player).ready)
            && (v.phase == Playing ==>
                  && v.turn == seats.player1
                  && v.h1.display == HiddenDisplay(v.h2.secret) && v.h2.display == HiddenDisplay(v.h1.secret)))
  {
    var v := SubmitSecret(w, letters, seats, player, secret);
    if v.phase == Playing && w.phase != Playing {
      HiddenIsTruthful(v.h1.secret);
      HiddenIsTruthful(v.h2.secret);
      assert v.h1.secret[0] !in v.h2.guessed && v.h2.secret[0] !in v.h1.guessed;
    }
  }

  // While letters are guessed, a player's display has one slot per letter of the target.
  predicate OneSlotEach(w: Word, seats: Seats, player: int) {
    w.phase == Playing && w.kind != Num ==>
      |Fields(Own(w, seats, player).display)| == |Opponent(w, seats, player).secret|
  }

  /** What the letter handlers rely on without checking it. */
  lemma InvGivesSlots(letters: set<char>, seats: Seats, w: Word, player: int)
    requires Inv(letters, seats, w)
    ensures OneSlotEach(w, seats, player)
  {
    if w.phase == Playing && w.kind != Num {
      SlotsAreWords(letters, w.kind, Opponent(w, seats, player).secret, Own(w, seats, player).guessed);
    }
  }

  // What an accepted letter does to the mover's half and to the game.
  lemma LetterEffect(letters: set<char>, seats: Seats, w: Word, player: int, c: string)
    requires ValidSeats(seats) && Inv(letters, seats, w) && player in {seats.player1, seats.player2}
    requires AcceptsLetter(w, letters, seats, player, c)
    ensures var (v, r) := GuessLetter(w, letters, seats, player, c);
      var own, target := Own(w, seats, player), Opponent(w, seats, player).secret;
      var h := Guess(own, target, c);
      && v == WithOwn(w, seats, player, h).(turn := v.turn, over := r.Won?)
      && v.turn == (if r.Won? then player
                    else if player == seats.player1 then seats.player2 else seats.player1)
      && c[0] in Alphabet(letters, w.kind) && c[0] !in own.guessed
      && h.guessed == own.guessed + {c[0]} && Truthful(h, target)
      && h.secret == own.secret && h.ready
      && r in {Won, Done} && (r.Won? <==> Revealed(target, h.guessed))
  {
    var own, target := Own(w, seats, player), Opponent(w, seats, player).secret;
    GuessMakesProgress(letters, w.kind, own, target, c);
    WonMeansRevealed(letters, w.kind, Guess(own, target, c), target);
  }

  // The game after the mover's half became h by one new letter.
  lemma NewLetterKeepsInv(letters: set<char>, seats: Seats, w: Word, c: char, h: Half, v: Word)
    requires ValidSeats(seats) && Inv(letters, seats, w) && w.phase == Playing && !w.over && w.kind != Num
    requires v == WithOwn(w, seats, w.turn, h).(turn := v.turn, over := v.over)
    requires c in Alphabet(letters, w.kind) && c !in Own(w, seats, w.turn).guessed
    requires h.guessed == Own(w, seats, w.turn).guessed + {c}
    requires h.secret == Own(w, seats, w.turn).secret && h.ready
    requires Truthful(h, Opponent(w, seats, w.turn).secret)
    requires v.over <==> Revealed(Opponent(w, seats, w.turn).secret, h.guessed)
    requires v.turn == if v.over then w.turn
                       else if w.turn == seats.player1 then seats.player2 else seats.player1
    ensures Inv(letters, seats, v)
  {
    assert |h.guessed| == |Own(w, seats, w.turn).guessed| + 1;
  }

  lemma LetterKeepsInv(letters: set<char>, seats: Seats, w: Word, player: int, c: string)
    requires ValidSeats(seats) && Inv(letters, seats, w) && player in {seats.player1, seats.player2}
    ensures Inv(letters, seats, GuessLetter(w, letters, seats, player, c).0)
  {
    if AcceptsLetter(w, letters, seats, player, c) {
      LetterEffect(letters, seats, w, player, c);
      var h := Guess(Own(w, seats, player), Opponent(w, seats, player).secret, c);
      NewLetterKeepsInv(letters, seats, w, c[0], h, GuessLetter(w, letters, seats, player, c).0);
    }
  }

  lemma UntriedShrinks(letters: set<char>, seats: Seats, w: Word, v: Word, player: int, c: char)
    requires v.kind == w.kind && Opponent(v, seats, player) == Opponent(w, seats, player)
    requires c in Alphabet(letters, w.kind) && c !in Own(w, seats, player).guessed
    requires Own(v, seats, player).guessed == Own(w, seats, player).guessed + {c}
    ensures Untried(letters, v) == Untried(letters, w) - 1
  {
    var a, g := Alphabet(letters, w.kind), Own(w, seats, player).guessed;
    assert a - (g + {c}) == (a - g) - {c};
  }

  /** One letter: refused without effect, or it is new to the player, shrinks what is left to try
      by exactly one, and wins exactly when it completes the opponent's secret. */
  lemma LetterOutcome(letters: set<char>, seats: Seats, w: Word, player: int, c: string)
    requires ValidSeats(seats) && Inv(letters, seats, w) && player in {seats.player1, seats.player2}
    ensures var (v, r) := GuessLetter(w, letters, seats, player, c);
      && (r.Refused? ==> v == w)
      && (!r.Refused? ==>
            var h := Own(v, seats, player);
            && Opponent(v, seats, player) == Opponent(w, seats, player)
            && c[0] in Alphabet(letters, w.kind) && c[0] !in Own(w, seats, player).guessed
            && h.guessed == Own(w, seats, player).guessed + {c[0]}
            && Untried(letters, v) == Untried(letters, w) - 1
            && (r.Won? <==> Revealed(Opponent(w, seats, player).secret, h.guessed))
            && (v.over <==> r.Won?)
            && (r.Done? ==> v.turn != player && v.turn in {seats.player1, seats.player2}))
  {
    if AcceptsLetter(w, letters, seats, player, c) {
      LetterEffect(letters, seats, w, player, c);
      UntriedShrinks(letters, seats, w, GuessLetter(w, letters, seats, player, c).0, player, c[0]);
    }
  }

  lemma NumberKeepsInv(letters: set<char>, seats: Seats, w: Word, player: int, guess: string)
    requires ValidSeats(seats) && Inv(letters, seats, w) && player in {seats.player1, seats.player2}
    ensures var (v, r) := GuessNumber(w, letters, seats, player, guess);
      && Inv(letters, seats, v)
      && (r.Refused? ==> v == w)
      && (!r.Refused? ==> w.turn == player && (r.Won? <==> guess == Opponent(w, seats, player).secret)
                          && (r.Done? ==> v.turn != player) && (v.over <==> r.Won?))
  {
  }

  function Other(seats: Seats, player: int): int {
    if player == seats.player1 then seats.player2 else seats.player1
  }

  /** A letter is accepted exactly from the player to move of a running word game, and exactly when it
      is one letter of the alphabet that this player has not guessed yet. */
  lemma LetterAcceptedExactlyWhen(letters: set<char>, seats: Seats, w: Word, player: int, text: string)
    requires ValidSeats(seats) && Inv(letters, seats, w) && player in {seats.player1, seats.player2}
    ensures GuessLetter(w, letters, seats, player, text).1 != Refused <==>
      && w.phase == Playing && !w.over && w.kind != Num && player == w.turn
      && |text| == 1 && text[0] in Alphabet(letters, w.kind) && text[0] !in Own(w, seats, player).guessed
  {
    if w.phase == Playing && w.kind != Num && |text| == 1 && ValidSecret(letters, w.kind, text) {
      AlreadyMeansGuessed(letters, w.kind, Own(w, seats, player), Opponent(w, seats, player).secret, text);
    }
  }

  // What a new letter does to the mover's half, as the truth about the target tells it.
  lemma GuessIs(letters: set<char>, kind: Kind, h: Half, target: string, c: char)
    requires ValidSecret(letters, kind, target) && Truthful(h, target)
    requires c in Alphabet(letters, kind) && c !in h.guessed
    ensures Guess(h, target, [c]) ==
      if c in target then h.(display := JoinBlank(Slots(target, h.guessed + {c})), guessed := h.guessed + {c})
      else h.(wrong := h.wrong + [[c]], guessed := h.guessed + {c})
    ensures c !in target ==> (Revealed(target, h.guessed + {c}) <==> Revealed(target, h.guessed))
  {
    assert ValidSecret(letters, kind, [c]);
    AlreadyMeansGuessed(letters, kind, h, target, [c]);
    GuessMakesProgress(letters, kind, h, target, [c]);
    if c in target {
      var i :| 0 <= i < |target| && target[i] == c;
      assert [target[i]] == [c];
    } else {
      assert forall i | 0 <= i < |target| :: target[i] in target;
      assert Slots(target, h.guessed + {c}) == Slots(target, h.guessed);
    }
  }

  lemma AcceptedLetterIs(letters: set<char>, seats: Seats, w: Word, c: char, h: Half, won: bool)
    requires AcceptsLetter(w, letters, seats, w.turn, [c])
    requires h == Guess(Own(w, seats, w.turn), Opponent(w, seats, w.turn).secret, [c]) && (HasWon(h) <==> won)
    ensures GuessLetter(w, letters, seats, w.turn, [c]).1 == if won then Won else Done
    ensures Step(letters, seats, w, Letter(w.turn, [c])) ==
      WithOwn(w, seats, w.turn, h).(turn := if won then w.turn else Other(seats, w.turn), over := won)
  {
  }

  // What lets the mover's next letter be accepted, and what makes it win.
  lemma NewLetterFits(letters: set<char>, seats: Seats, w: Word, c: char)
    requires ValidSeats(seats) && Inv(letters, seats, w) && w.phase == Playing && !w.over && w.kind != Num
    requires c in Alphabet(letters, w.kind) && c !in Own(w, seats, w.turn).guessed
    ensures var own, target := Own(w, seats, w.turn), Opponent(w, seats, w.turn).secret;
      && AcceptsLetter(w, letters, seats, w.turn, [c])
      && ValidSecret(letters, w.kind, target) && Truthful(own, target) && !Revealed(target, own.guessed)
      && (HasWon(Guess(own, target, [c])) <==> Revealed(target, own.guessed + {c}))
  {
    LetterAcceptedExactlyWhen(letters, seats, w, w.turn, [c]);
    LetterEffect(letters, seats, w, w.turn, [c]);
    WonMeansRevealed(letters, w.kind, Guess(Own(w, seats, w.turn), Opponent(w, seats, w.turn).secret, [c]),
                     Opponent(w, seats, w.turn).secret);
  }

  /** A new letter is never refused. If the secret does not hold it, it is written down as wrong, nothing
      else of the mover's changes and the turn passes; if it does, it is shown wherever it stands, and
      the mover wins with the last one or passes the turn. */
  lemma NewLetterIs(letters: set<char>, seats: Seats, w: Word, c: char)
    requires ValidSeats(seats) && Inv(letters, seats, w) && w.phase == Playing && !w.over && w.kind != Num
    requires c in Alphabet(letters, w.kind) && c !in Own(w, seats, w.turn).guessed
    ensures var own, target := Own(w, seats, w.turn), Opponent(w, seats, w.turn).secret;
      var won := c in target && Revealed(target, own.guessed + {c});
      && GuessLetter(w, letters, seats, w.turn, [c]).1 == (if won then Won else Done)
      && Step(letters, seats, w, Letter(w.turn, [c])) ==
           WithOwn(w, seats, w.turn,
                   if c in target
                   then own.(display := JoinBlank(Slots(target, own.guessed + {c})), guessed := own.guessed + {c})
                   else own.(wrong := own.wrong + [[c]], guessed := own.guessed + {c}))
             .(turn := if won then w.turn else Other(seats, w.turn), over := won)
  {
    var own, target := Own(w, seats, w.turn), Opponent(w, seats, w.turn).secret;
    NewLetterFits(letters, seats, w, c);
    GuessIs(letters, w.kind, own, target, c);
    AcceptedLetterIs(letters, seats, w, c, Guess(own, target, [c]), c in target && Revealed(target, own.guessed + {c}));
  }

  /** A number is accepted exactly from the player to move of a running number game, and exactly when it
      has the right count of digits; it wins when it is the opponent's and passes the turn otherwise. */
  lemma NumberAcceptedExactlyWhen(letters: set<char>, seats: Seats, w: Word, player: int, guess: string)
    requires ValidSeats(seats) && Inv(letters, seats, w) && player in {seats.player1, seats.player2}
    ensures var (v, r) := GuessNumber(w, letters, seats, player, guess);
      && v == Step(letters, seats, w, Number(player, guess))
      && (r != Refused <==>
            && w.phase == Playing && !w.over && w.kind == Num && player == w.turn
            && |guess| == w.length && forall i | 0 <= i < |guess| :: '0' <= guess[i] <= '9')
      && (r == Won ==> v == w.(over := true))
      && (r == Done ==> v == w.(turn := Other(seats, player)))
  {
    ValidSecretExactlyWhen(letters, Num, guess);
    assert forall i | 0 <= i < |guess| :: Hideable(letters, Num, guess[i]) <==> '0' <= guess[i] <= '9';
  }

  /** The type is stored for the first who chooses it, the length for that player alone; any other
      choice changes nothing. */
  lemma ChoicesAreStored(letters: set<char>, seats: Seats, w: Word, player: int, kind: Kind, length: int)
    ensures Step(letters, seats, w, PickType(player, kind)) ==
      if w.phase == ChoosingType && !w.over then w.(kind := kind, phase := ChoosingLength, creator := player) else w
    ensures Step(letters, seats, w, PickLength(player, length)) ==
      if w.phase == ChoosingLength && !w.over && player == w.creator
      then w.(length := length, phase := WaitingSecrets, turn := seats.player1) else w
  {
  }

  /** While a game runs, the player to move has a letter, or a number, that is accepted. */
  lemma MoverIsNeverStuck(letters: set<char>, seats: Seats, w: Word) returns (text: string)
    requires ValidSeats(seats) && Inv(letters, seats, w) && w.phase == Playing && !w.over
    ensures w.kind != Num ==> AcceptsLetter(w, letters, seats, w.turn, text)
    ensures w.kind == Num ==> !GuessNumber(w, letters, seats, w.turn, text).1.Refused?
  {
    var own, target := Own(w, seats, w.turn), Opponent(w, seats, w.turn).secret;
    if w.kind == Num {
      text := target;
    } else {
      var i :| 0 <= i < |target| && target[i] !in own.guessed;
      text := [target[i]];
      AlreadyMeansGuessed(letters, w.kind, own, target, text);
    }
  }

  // ----- whole games -----

  datatype Action =
    | PickType(player: int, kind: Kind)
    | PickLength(player: int, length: int)
    | Secret(player: int, text: string)
    | Letter(player: int, text: string)
    | Number(player: int, text: string)

  function Step(letters: set<char>, seats: Seats, w: Word, a: Action): Word {
    match a
    case PickType(p, k) => ChooseType(w, p, k)
    case PickLength(p, n) => ChooseLength(w, seats, p, n)
    case Secret(p, t) => SubmitSecret(w, letters, seats, p, t)
    case Letter(p, t) => GuessLetter(w, letters, seats, p, t).0
    case Number(p, t) => GuessNumber(w, letters, seats, p, t).0
  }

  // 1 if the action is an accepted letter.
  function Tries(letters: set<char>, seats: Seats, w: Word, a: Action): nat {
    if a.Letter? && AcceptsLetter(w, letters, seats, a.player, a.text) then 1 else 0
  }

  // The last state and the number of accepted letters.
  ghost function Play(letters: set<char>, seats: Seats, actions: seq<Action>): (Word, nat) {
    if actions == [] then (Fresh(), 0)
    else
      var (w, n) := Play(letters, seats, actions[..|actions| - 1]);
      var a := actions[|actions| - 1];
      (Step(letters, seats, w, a), n + Tries(letters, seats, w, a))
  }

  predicate Seated(seats: Seats, actions: seq<Action>) {
    forall i | 0 <= i < |actions| :: actions[i].player in {seats.player1, seats.player2}
  }

  // The balance between letters accepted so far and letters untried.
  ghost predicate Balanced(letters: set<char>, w: Word, n: nat) {
    && (w.phase != Playing ==> n == 0)
    && (w.phase == Playing && w.kind != Num ==>
          n + Untried(letters, w) == 2 * |Alphabet(letters, w.kind)|)
  }

  lemma SubmitBalances(letters: set<char>, seats: Seats, w: Word, player: int, secret: string)
    requires Inv(letters, seats, w) && Balanced(letters, w, 0) && w.phase != Playing
    ensures Balanced(letters, SubmitSecret(w, letters, seats, player, secret), 0)
  {
    var v := SubmitSecret(w, letters, seats, player, secret);
    assert Alphabet(letters, w.kind) - {} == Alphabet(letters, w.kind);
    assert v.h1.guessed == {} && v.h2.guessed == {};
  }

  lemma LetterBalances(letters: set<char>, seats: Seats, w: Word, n: nat, player: int, c: string)
    requires ValidSeats(seats) && player in {seats.player1, seats.player2}
    requires Inv(letters, seats, w) && Balanced(letters, w, n)
    ensures Balanced(letters, GuessLetter(w, letters, seats, player, c).0,
                     if AcceptsLetter(w, letters, seats, player, c) then n + 1 else n)
  {
    LetterOutcome(letters, seats, w, player, c);
  }

  lemma StepKeepsInv(letters: set<char>, seats: Seats, w: Word, a: Action)
    requires ValidSeats(seats) && a.player in {seats.player1, seats.player2}
    requires Inv(letters, seats, w)
    ensures Inv(letters, seats, Step(letters, seats, w, a))
  {
    match a
    case PickType(p, k) =>
    case PickLength(p, l) =>
    case Secret(p, t) => SubmitKeepsInv(letters, seats, w, p, t);
    case Letter(p, t) => LetterKeepsInv(letters, seats, w, p, t);
    case Number(p, t) => NumberKeepsInv(letters, seats, w, p, t);
  }

  lemma StepBalances(letters: set<char>, seats: Seats, w: Word, n: nat, a: Action)
    requires ValidSeats(seats) && a.player in {seats.player1, seats.player2}
    requires Inv(letters, seats, w) && Balanced(letters, w, n)
    ensures Balanced(letters, Step(letters, seats, w, a), n + Tries(letters, seats, w, a))
  {
    match a
    case PickType(p, k) =>
    case PickLength(p, l) =>
    case Secret(p, t) =>
      if w.phase != Playing {
        SubmitBalances(letters, seats, w, p, t);
      }
    case Letter(p, t) => LetterBalances(letters, seats, w, n, p, t);
    case Number(p, t) =>
  }

  /** Over every game: the displays and wrong lists are truthful, turns alternate, and the letters
      accepted so far plus those untried are always twice the alphabet, so play cannot go on
      forever. */
  lemma {:induction false} GamesEnd(letters: set<char>, seats: Seats, actions: seq<Action>)
    requires ValidSeats(seats) && Seated(seats, actions)
    ensures var (w, n) := Play(letters, seats, actions);
      Inv(letters, seats, w) && Balanced(letters, w, n)
  {
    if actions != [] {
      var rest := actions[..|actions| - 1];
      GamesEnd(letters, seats, rest);
      var (w, n) := Play(letters, seats, rest);
      StepKeepsInv(letters, seats, w, actions[|actions| - 1]);
      StepBalances(letters, seats, w, n, actions[|actions| - 1]);
    }
  }

  /** Any two secrets of one kind and length start a game: after the four choices in order it is
      running, everything is hidden, and the first seat is to move. */
  lemma GameStarts(letters: set<char>, seats: Seats, kind: Kind, creator: int, s1: string, s2: string)
    requires ValidSeats(seats) && creator in {seats.player1, seats.player2} && |s1| == |s2|
    requires ValidSecret(letters, kind, s1) && ValidSecret(letters, kind, s2)
    ensures var w := Play(letters, seats, [PickType(creator, kind), PickLength(creator, |s1|),
                                           Secret(seats.player1, s1), Secret(seats.player2, s2)]).0;
      && w.kind == kind && w.length == |s1| && w.phase == Playing && w.turn == seats.player1 && !w.over
      && w.h1 == Half(s1, true, HiddenDisplay(s2), [], {}) && w.h2 == Half(s2, true, HiddenDisplay(s1), [], {})
  {
    var a, b := PickType(creator, kind), PickLength(creator, |s1|);
    var c, d := Secret(seats.player1, s1), Secret(seats.player2, s2);
    assert [a, b, c, d][..3] == [a, b, c] && [a, b, c][..2] == [a, b] && [a, b][..1] == [a] && [a][..0] == [];
    var w1 := Play(letters, seats, [a]).0;
    assert Play(letters, seats, []).0 == Fresh();
    assert w1 == Step(letters, seats, Fresh(), a);
    var w2 := Play(letters, seats, [a, b]).0;
    assert w2 == Step(letters, seats, w1, b);
    var w3 := Play(letters, seats, [a, b, c]).0;
    assert w3 == Step(letters, seats, w2, c);
    assert w3.h1.ready && !w3.h2.ready && w3.phase == WaitingSecrets;
  }

  // A kind and length some secret fits.
  predicate Playable(letters: set<char>, kind: Kind, length: int) {
    1 <= length <= MAX_SECRET && Alphabet(letters, kind) != {}
  }

  /** A game waiting for secrets can go on exactly when its kind has letters and its length is
      between 1 and 12; with any other choice, which the buttons' handlers do not refuse, every
      secret is refused. */
  lemma SecretsPossibleExactlyWhen(letters: set<char>, seats: Seats, w: Word, player: int)
    requires w.phase == WaitingSecrets && !w.over && !Own(w, seats, player).ready
    ensures (exists s :: SubmitSecret(w, letters, seats, player, s) != w)
       <==> Playable(letters, w.kind, w.length)
  {
    if Playable(letters, w.kind, w.length) {
      var c :| c in Alphabet(letters, w.kind);
      var s := seq(w.length, i => c);
      assert ValidSecret(letters, w.kind, s);
      var v := SubmitSecret(w, letters, seats, player, s);
      assert Own(v, seats, player).ready;
    }
    if s :| SubmitSecret(w, letters, seats, player, s) != w {
      assert s[0] in Alphabet(letters, w.kind);
    }
  }

  // A game set to English words of thirteen letters.
  ghost function TooLong(letters: set<char>, seats: Seats): Word {
    Play(letters, seats, [PickType(seats.player1, En), PickLength(seats.player1, 13)]).0
  }

  /** It is stuck: every secret of either player is refused. */
  lemma NoSecretFits(letters: set<char>, seats: Seats, player: int, secret: string)
    requires ValidSeats(seats) && player in {seats.player1, seats.player2}
    ensures TooLong(letters, seats).phase == WaitingSecrets
    ensures SubmitSecret(TooLong(letters, seats), letters, seats, player, secret) == TooLong(letters, seats)
  {
    var kind, length := PickType(seats.player1, En), PickLength(seats.player1, 13);
    assert [kind, length][..1] == [kind];
    assert Play(letters, seats, [kind]).0 == ChooseType(Fresh(), seats.player1, En);
    SecretsPossibleExactlyWhen(letters, seats, TooLong(letters, seats), player);
  }
}
