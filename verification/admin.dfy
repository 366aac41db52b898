/** The admin commands that wait for a confirmation: a command with its input is remembered for the
    admin who gave it and carried out only when that admin confirms. */
module Admin {
  import opened Decimal
  import opened Text

  const BROADCAST := "broadcast"
  const GIVE_COINS_ALL := "give_coins_all"
  const GIVE_COINS_POOR := "give_coins_poor"
  const BAN := "ban"
  const UNBAN := "unban"

  const MAX_AMOUNT := 1_000_000
  const MAX_BROADCAST := 4000

  datatype Pending = Pending(command: string, payload: string, awaitingConfirmation: bool)

  type Table = map<int, Pending>

  // What each event asks of the bot; known holds the user ids that can be found at that moment.
  datatype Event =
    | Begin(admin: int, command: string, payload: string, known: set<string>)
    | Say(admin: int, text: string, known: set<string>)
    | Confirm(admin: int)
    | Cancel(admin: int)

  datatype Effect =
    | Broadcast(text: string)
    | GiveAll(amount: int)
    | GivePoor(amount: int)
    | SetBanned(reference: string, banned: bool)
    | InvalidCommand

  datatype Outcome =
    | AskInput(command: string)
    | Prompt(command: string, payload: string)
    | Refused
    | Execute(command: string, payload: string, effect: Effect)
    | Cancelled
    | NoPending
    | AlreadyWaiting
    | NotHandled

  predicate ValidCommand(command: string) {
    command in {BROADCAST, GIVE_COINS_ALL, GIVE_COINS_POOR, BAN, UNBAN}
  }

  predicate GivesCoins(command: string) {
    command == GIVE_COINS_ALL || command == GIVE_COINS_POOR
  }

  /** The amount of a coin command; the flag is the parser's success. */
  function ParseAmount(payload: string): (int, bool) {
    var text := Trim(payload);
    if text == "" then (0, false)
    else
      var (amount, ok) := ParseInt(text);
      if !ok || amount <= 0 || amount > MAX_AMOUNT then (-1, false) else (amount, true)
  }

  predicate ValidPayload(command: string, payload: string, known: set<string>) {
    var text := Trim(payload);
    match command
    case "broadcast" => text != "" && |text| <= MAX_BROADCAST
    case "give_coins_all" => ParseAmount(text).1
    case "give_coins_poor" => ParseAmount(text).1
    case "ban" => ValidReference(text, known)
    case "unban" => ValidReference(text, known)
    case _ => true
  }

  predicate ValidReference(text: string, known: set<string>) {
    var id := Trim(TrimPrefix(text, "/user_"));
    id != "" && ' ' !in id && id in known
  }

  // Carries out a record; the parser's success is not looked at.
  function EffectOf(p: Pending): Effect {
    match p.command
    case "broadcast" => Broadcast(p.payload)
    case "give_coins_all" => GiveAll(ParseAmount(p.payload).0)
    case "give_coins_poor" => GivePoor(ParseAmount(p.payload).0)
    case "ban" => SetBanned(p.payload, true)
    case "unban" => SetBanned(p.payload, false)
    case _ => InvalidCommand
  }

  function Step(t: Table, admins: set<int>, e: Event): (Table, Outcome) {
    if e.admin !in admins then (t, NotHandled)
    else match e
      case Begin(a, command, payload, known) =>
        var text := Trim(payload);
        if !ValidCommand(command) then (t, Refused)
        else if text == "" then (t[a := Pending(command, "", false)], AskInput(command))
        else if !ValidPayload(command, text, known) then (t, Refused)
        else (t[a := Pending(command, text, true)], Prompt(command, text))
      case Say(a, text, known) =>
        if a !in t then (t, NotHandled)
        else if t[a].awaitingConfirmation then (t, AlreadyWaiting)
        else if !ValidPayload(t[a].command, Trim(text), known) then (t, Refused)
        else (t[a := Pending(t[a].command, Trim(text), true)], Prompt(t[a].command, Trim(text)))
      case Confirm(a) =>
        if a !in t || !t[a].awaitingConfirmation then (t, NoPending)
        else (t - {a}, Execute(t[a].command, t[a].payload, EffectOf(t[a])))
      case Cancel(a) => (t - {a}, Cancelled)
  }

  // The outcomes that change what is remembered for the admin.
  predicate Settles(o: Outcome) {
    o.AskInput? || o.Prompt? || o.Execute? || o.Cancelled?
  }

  // ----- answers -----

  /** What each event is answered: input is asked for or a prompt is given for every known command, a
      prompt exactly with valid input; a text answers a command that waits for input; a confirmation
      carries out exactly a prompted action and forgets it; and cancelling forgets whatever there was. */
  lemma AnswersExactlyWhen(t: Table, admins: set<int>, e: Event)
    requires e.admin in admins
    ensures var (u, o) := Step(t, admins, e);
      match e
      case Begin(a, command, payload, known) =>
        if ValidCommand(command) && Trim(payload) == ""
        then o == AskInput(command) && u == t[a := Pending(command, "", false)]
        else if ValidCommand(command) && ValidPayload(command, Trim(payload), known)
        then o == Prompt(command, Trim(payload)) && u == t[a := Pending(command, Trim(payload), true)]
        else o == Refused && u == t
      case Say(a, text, known) =>
        if a in t && !t[a].awaitingConfirmation && ValidPayload(t[a].command, Trim(text), known)
        then o == Prompt(t[a].command, Trim(text)) && u == t[a := Pending(t[a].command, Trim(text), true)]
        else u == t && !Settles(o)
      case Confirm(a) =>
        if a in t && t[a].awaitingConfirmation
        then u == t - {a} && o.Execute? && o.command == t[a].command && o.payload == t[a].payload
        else o == NoPending && u == t
      case Cancel(a) => o == Cancelled && u == t - {a}
  {
  }

  /** Nobody but an admin gets any answer. */
  lemma OnlyAdminsAreAnswered(t: Table, admins: set<int>, e: Event)
    requires e.admin !in admins
    ensures Step(t, admins, e) == (t, NotHandled)
  {
  }

  /** What is valid: a broadcast of 1 to 4000 characters after trimming, an amount from 1 to 1,000,000,
      and a user that can be found, with or without the prefix of a public reference. */
  lemma ValidPayloadExactlyWhen(text: string, known: set<string>, id: string)
    requires text == Trim(text)
    ensures ValidPayload(BROADCAST, text, known) <==> 1 <= |text| <= 4000
    ensures ValidPayload(GIVE_COINS_ALL, text, known) <==> ValidPayload(GIVE_COINS_POOR, text, known)
    ensures ValidPayload(GIVE_COINS_ALL, text, known) <==> ParseInt(text).1 && 1 <= ParseInt(text).0 <= 1_000_000
    ensures ValidPayload(BAN, text, known) <==> ValidPayload(UNBAN, text, known)
    ensures IsWord(id) && text == "/user_" + id ==> (ValidPayload(BAN, text, known) <==> id in known)
    ensures IsWord(id) && text == id && !("/user_" <= id) ==> (ValidPayload(BAN, text, known) <==> id in known)
  {
    if IsWord(id) {
      WordIsTrimmed(id);
      assert ("/user_" + id)[6..] == id;
      assert ' ' !in id;
    }
  }

  lemma WordIsTrimmed(id: string)
    requires IsWord(id)
    ensures Trim(id) == id
  {
  }

  // ----- runs -----

  function Run(admins: set<int>, events: seq<Event>): Table {
    if events == [] then map[]
    else Step(Run(admins, events[..|events| - 1]), admins, events[|events| - 1]).0
  }

  /** What happened at the i-th event. */
  function At(admins: set<int>, events: seq<Event>, i: int): Outcome
    requires 0 <= i < |events|
  {
    Step(Run(admins, events[..i]), admins, events[i]).1
  }

  /** Nothing settled this admin's record strictly between the two events. */
  predicate Untouched(admins: set<int>, events: seq<Event>, admin: int, i: int, j: int)
    requires -1 <= i && j <= |events|
  {
    forall k | i < k < j :: events[k].admin == admin ==> !Settles(At(admins, events, k))
  }

  /** The j-th event put this record in place for the admin, and nothing has settled it since. */
  predicate Stands(admins: set<int>, events: seq<Event>, admin: int, j: int, o: Outcome, until: int)
    requires 0 <= j < until <= |events|
  {
    events[j].admin == admin && At(admins, events, j) == o && Untouched(admins, events, admin, j, until)
  }

  lemma AtFront(admins: set<int>, events: seq<Event>, n: int, i: int)
    requires 0 <= i < n <= |events|
    ensures At(admins, events[..n], i) == At(admins, events, i)
  {
    assert events[..n][..i] == events[..i];
  }

  // What stood at the end of a prefix stands in the whole run up to there.
  lemma StandsInWhole(admins: set<int>, events: seq<Event>, n: int, admin: int, j: int, o: Outcome)
    requires 0 <= j < n <= |events| && Stands(admins, events[..n], admin, j, o, n)
    ensures Stands(admins, events, admin, j, o, n)
  {
    AtFront(admins, events, n, j);
    forall k | j < k < n && events[k].admin == admin ensures !Settles(At(admins, events, k)) {
      AtFront(admins, events, n, k);
      assert events[..n][k] == events[k];
    }
  }

  lemma UnsettledStays(t: Table, admins: set<int>, e: Event, admin: int)
    requires e.admin != admin || !Settles(Step(t, admins, e).1)
    ensures admin in Step(t, admins, e).0 <==> admin in t
    ensures admin in t ==> Step(t, admins, e).0[admin] == t[admin]
  {
  }

  // The outcome a record was made by.
  function MadeBy(p: Pending): Outcome {
    if p.awaitingConfirmation then Prompt(p.command, p.payload) else AskInput(p.command)
  }

  lemma SettledMakes(t: Table, admins: set<int>, e: Event)
    requires Settles(Step(t, admins, e).1) && e.admin in Step(t, admins, e).0
    ensures Step(t, admins, e).1 == MadeBy(Step(t, admins, e).0[e.admin])
    ensures !ValidCommand(Step(t, admins, e).0[e.admin].command) ==>
      e.admin in t && t[e.admin].command == Step(t, admins, e).0[e.admin].command
  {
  }

  /** Whatever is remembered for an admin is the latest thing that admin settled: a command that
      waits for input, or a prompt with exactly that command and input. */
  lemma {:induction false} RecordStands(admins: set<int>, events: seq<Event>, admin: int) returns (j: int)
    requires admin in Run(admins, events)
    ensures 0 <= j < |events|
    ensures Stands(admins, events, admin, j, MadeBy(Run(admins, events)[admin]), |events|)
    ensures ValidCommand(Run(admins, events)[admin].command)
  {
    var n := |events| - 1;
    var before, e := Run(admins, events[..n]), events[n];
    if e.admin == admin && Settles(Step(before, admins, e).1) {
      j := n;
      SettledMakes(before, admins, e);
      if admin in before {
        var k := RecordStands(admins, events[..n], admin);
      }
    } else {
      UnsettledStays(before, admins, e, admin);
      j := RecordStands(admins, events[..n], admin);
      StandsInWhole(admins, events, n, admin, j, MadeBy(before[admin]));
    }
  }

  /** What each command does when it is carried out. */
  ghost predicate DoesItsCommand(o: Outcome)
    requires o.Execute?
  {
    && (o.command == BROADCAST ==> o.effect == Broadcast(o.payload))
    && (o.command == GIVE_COINS_ALL ==> o.effect.GiveAll?)
    && (o.command == GIVE_COINS_POOR ==> o.effect.GivePoor?)
    && (o.command == BAN ==> o.effect == SetBanned(o.payload, true))
    && (o.command == UNBAN ==> o.effect == SetBanned(o.payload, false))
    && o.effect != InvalidCommand
  }

  /** An action is carried out only if the latest thing its admin settled was the prompt for exactly
      that command and input, and it is the action of that command. */
  lemma ExecutesStandingPrompt(admins: set<int>, events: seq<Event>, i: int) returns (j: int)
    requires 0 <= i < |events| && At(admins, events, i).Execute?
    ensures 0 <= j < i && events[i].Confirm? && DoesItsCommand(At(admins, events, i))
    ensures var o := At(admins, events, i);
      Stands(admins, events, events[i].admin, j, Prompt(o.command, o.payload), i)
  {
    j := RecordStands(admins, events[..i], events[i].admin);
    var o := At(admins, events, i);
    StandsInWhole(admins, events, i, events[i].admin, j, Prompt(o.command, o.payload));
  }

  /** A prompt is executed at most once. */
  lemma PromptExecutesOnce(admins: set<int>, events: seq<Event>, j: int, i1: int, i2: int, o: Outcome)
    requires 0 <= j < i1 < |events| && j < i2 < |events| && o.Prompt?
    requires events[i1].admin == events[i2].admin == events[j].admin
    requires At(admins, events, i1).Execute? && At(admins, events, i2).Execute?
    requires Stands(admins, events, events[j].admin, j, o, i1) && Stands(admins, events, events[j].admin, j, o, i2)
    ensures i1 == i2
  {
  }

  /** Prompts come only from input that passed validation, and one given as a text answers the
      latest command of the same admin. */
  lemma PromptIsValidated(admins: set<int>, events: seq<Event>, j: int)
    requires 0 <= j < |events| && At(admins, events, j).Prompt?
    ensures events[j].Begin? || events[j].Say?
    ensures var o, e := At(admins, events, j), events[j];
      && ValidCommand(o.command) && ValidPayload(o.command, o.payload, e.known)
      && o.payload != "" && o.payload == Trim(if e.Begin? then e.payload else e.text)
      && (e.Begin? ==> o.command == e.command)
      && (o.command == BROADCAST ==> |o.payload| <= MAX_BROADCAST)
      && (o.command in {BAN, UNBAN} ==> Trim(TrimPrefix(o.payload, "/user_")) in e.known)
      && (e.Say? ==> exists k | 0 <= k < j :: Stands(admins, events, e.admin, k, AskInput(o.command), j))
  {
    var o, e := At(admins, events, j), events[j];
    TrimTwice(if e.Begin? then e.payload else e.text);
    if e.Say? {
      var k := RecordStands(admins, events[..j], e.admin);
      StandsInWhole(admins, events, j, e.admin, k, AskInput(Run(admins, events[..j])[e.admin].command));
    }
  }

  /** A written amount is accepted exactly from 1 to 1,000,000, and read as what was written. */
  lemma AmountAcceptedExactlyWhen(amount: int)
    requires MIN <= amount <= MAX
    ensures ParseAmount(Format(amount)) == if 1 <= amount <= 1_000_000 then (amount, true) else (-1, false)
  {
    FormatIsTrimmed(amount);
    ParseFormat(amount);
  }

  lemma FormatIsTrimmed(amount: int)
    ensures Format(amount) != "" && Trim(Format(amount)) == Format(amount)
  {
    DigitsValue(if amount < 0 then -amount else amount);
    var text := Format(amount);
    assert forall i | 0 <= i < |text| :: IsDigit(text[i]) || text[i] == '-';
  }

  lemma ValidAmount(command: string, payload: string, known: set<string>)
    requires GivesCoins(command) && ValidPayload(command, payload, known) && payload == Trim(payload)
    ensures ParseAmount(payload).1 && 1 <= ParseAmount(payload).0 <= MAX_AMOUNT
  {
  }

  /** Coins are only ever given in amounts the parser accepted, from 1 to 1,000,000: the parse error
      the execution ignores never occurs. */
  lemma ExecutedAmounts(admins: set<int>, events: seq<Event>, i: int)
    requires 0 <= i < |events| && At(admins, events, i).Execute? && GivesCoins(At(admins, events, i).command)
    ensures var o := At(admins, events, i);
      && (o.effect.GiveAll? || o.effect.GivePoor?)
      && ParseAmount(o.payload) == (o.effect.amount, true) && 1 <= o.effect.amount <= 1_000_000
  {
    var j := ExecutesStandingPrompt(admins, events, i);
    var o := At(admins, events, i);
    PromptIsValidated(admins, events, j);
    var e := events[j];
    TrimTwice(if e.Begin? then e.payload else e.text);
    ValidAmount(o.command, o.payload, e.known);
  }

  /** A new command given while a prompt stands leaves the older action to the next confirmation
      exactly when its name is unknown, its input is invalid, or it asks for the same again; without
      input, or with valid input of its own, it takes the older prompt's place. */
  lemma OldPromptSurvivesExactlyWhen(t: Table, admins: set<int>, e: Event)
    requires e.Begin? && e.admin in admins && e.admin in t && t[e.admin].awaitingConfirmation
    ensures var p, text := t[e.admin], Trim(e.payload);
      Step(Step(t, admins, e).0, admins, Confirm(e.admin)).1 == Execute(p.command, p.payload, EffectOf(p))
      <==> || !ValidCommand(e.command)
           || (text != ""
               && (!ValidPayload(e.command, text, e.known) || (e.command == p.command && text == p.payload)))
  {
    var p, u := t[e.admin], Step(t, admins, e).0;
    if e.admin in u && u[e.admin].awaitingConfirmation {
      assert p == Pending(p.command, p.payload, true);
    }
  }

  // A coin command with the input abc: the broadcast before it is what a confirmation sends.
  lemma BadAmountLeavesBroadcast(t: Table, admins: set<int>, admin: int, text: string)
    requires admin in admins && admin in t && t[admin] == Pending(BROADCAST, text, true)
    ensures var u := Step(t, admins, Begin(admin, GIVE_COINS_ALL, "abc", {})).0;
      Step(u, admins, Confirm(admin)).1 == Execute(BROADCAST, text, Broadcast(text))
  {
    assert Trim("abc") == "abc";
    assert !IsDigit(Unsigned("abc")[0]);
  }

  /** Other admins never change what is remembered for an admin. */
  lemma OthersDoNotMatter(t: Table, admins: set<int>, e: Event, admin: int)
    requires e.admin != admin
    ensures admin in Step(t, admins, e).0 <==> admin in t
    ensures admin in t ==> Step(t, admins, e).0[admin] == t[admin]
  {
  }

  // ----- the handlers -----

  class Handler {
    const admins: set<int>
    var adminPending: Table

    constructor (admins: set<int>)
      ensures adminPending == Run(admins, []) && this.admins == admins
    {
      this.admins := admins;
      adminPending := map[];
    }

    method BeginAction(admin: int, command: string, payload: string, known: set<string>) returns (o: Outcome)
      modifies this
      ensures (adminPending, o) == Step(old(adminPending), admins, Begin(admin, command, payload, known))
    {
      if admin !in admins {
        return NotHandled;
      }
      if !ValidCommand(command) {
        return Refused;
      }
      var text := Trim(payload);
      if text == "" {
        adminPending := adminPending[admin := Pending(command, "", false)];
        return AskInput(command);
      }
      if !ValidPayload(command, text, known) {
        return Refused;
      }
      adminPending := adminPending[admin := Pending(command, text, true)];
      return Prompt(command, text);
    }

    method HandleText(admin: int, text: string, known: set<string>) returns (o: Outcome)
      modifies this
      ensures (adminPending, o) == Step(old(adminPending), admins, Say(admin, text, known))
    {
      if admin !in admins || admin !in adminPending {
        return NotHandled;
      }
      var pending := adminPending[admin];
      if pending.awaitingConfirmation {
        return AlreadyWaiting;
      }
      var trimmed := Trim(text);
      if !ValidPayload(pending.command, trimmed, known) {
        return Refused;
      }
      pending := pending.(payload := trimmed, awaitingConfirmation := true);
      adminPending := adminPending[admin := pending];
      return Prompt(pending.command, trimmed);
    }

    method ConfirmAction(admin: int) returns (o: Outcome)
      modifies this
      ensures (adminPending, o) == Step(old(adminPending), admins, Confirm(admin))
    {
      if admin !in admins {
        return NotHandled;
      }
      if admin !in adminPending || !adminPending[admin].awaitingConfirmation {
        return NoPending;
      }
      var pending := adminPending[admin];
      adminPending := adminPending - {admin};
      return Execute(pending.command, pending.payload, EffectOf(pending));
    }

    method CancelAction(admin: int) returns (o: Outcome)
      modifies this
      ensures (adminPending, o) == Step(old(adminPending), admins, Cancel(admin))
    {
      if admin !in admins {
        return NotHandled;
      }
      adminPending := adminPending - {admin};
      return Cancelled;
    }
  }
}
