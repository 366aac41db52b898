/** Whole runs of the chat service: buttons pressed, worker ticks and chat endings in any order. */
module ChatRuns {
  import opened ChatStore
  import opened ChatSteps
  import opened MatchWorker

  // ----- what a button asks for -----

  datatype NearbyButton = Near | Anywhere | NearMan | NearWoman | Unknown

  datatype Decision = Refuse | Search(filter: Label, cost: int)

  function ConnectType(s: Store, user: UserId, data: Label): Decision {
    if Partner(s, user) != 0 then Refuse
    else match data
      case Random => Search(Random, 0)
      case Male => if Balance(s, user) < GENDER_COST then Refuse else Search(Male, GENDER_COST)
      case Female => if Balance(s, user) < GENDER_COST then Refuse else Search(Female, GENDER_COST)
      case _ => Refuse
  }

  function NearbyType(s: Store, user: UserId, button: NearbyButton, located: bool): Decision {
    match button
    case Near => if located then Search(Nearby, 0) else Refuse
    case Anywhere => Search(Random, 0)
    case NearMan => if Balance(s, user) < NEARBY_COST then Refuse else Search(NearbyMale, NEARBY_COST)
    case NearWoman => if Balance(s, user) < NEARBY_COST then Refuse else Search(NearbyFemale, NEARBY_COST)
    case Unknown => Refuse
  }

  function SearchAgain(s: Store, user: UserId, data: Label): Decision {
    var filter := if data == Blank then Random else data;
    var cost := CostForFilter(filter);
    if cost > 0 && Balance(s, user) < cost then Refuse else Search(filter, cost)
  }

  /** All three ways into the queue charge the same price for the same filter, and searching again
      with the filter of an expired entry charges what that entry was refunded. */
  lemma PricesAgree(s: Store, user: UserId, data: Label, button: NearbyButton, located: bool)
    ensures forall d | d in {ConnectType(s, user, data), NearbyType(s, user, button, located),
                             SearchAgain(s, user, data)} && d.Search? ::
              d.cost == CostForFilter(d.filter) && d.filter != Blank
    ensures forall e: QueueEntry | QueueInv(s) && Listed(s, e.filter, e) ::
              SearchAgain(s, user, e.filter) in {Refuse, Search(e.filter, e.cost)}
  {
  }

  // ----- runs -----

  datatype Event =
    | Register(user: UserId, coins: nat)
    | Connect(user: UserId, gender: Label, data: Label, now: int)
    | NearbyPress(user: UserId, gender: Label, button: NearbyButton, located: bool, now: int)
    | Again(user: UserId, gender: Label, data: Label, now: int)
    | WorkerTick(keys: seq<Label>, now: int)
    | End(user: UserId)

  function Pursue(s: Store, user: UserId, gender: Label, d: Decision, now: int): Store {
    if user in s.coins && d.Search? then Join(s, user, gender, d.filter, d.cost, now) else s
  }

  function Step(s: Store, e: Event): Store {
    match e
    case Register(u, c) => if u in s.coins then s else s.(coins := s.coins[u := c])
    case Connect(u, g, data, now) => Pursue(s, u, g, ConnectType(s, u, data), now)
    case NearbyPress(u, g, button, located, now) => Pursue(s, u, g, NearbyType(s, u, button, located), now)
    case Again(u, g, data, now) => Pursue(s, u, g, SearchAgain(s, u, data), now)
    case WorkerTick(keys, now) => Tick(s, keys, now)
    case End(u) => EndChat(s, u)
  }

  // The event a press of a search button is, and the filter it asks for.
  predicate AsksFor(e: Event, filter: Label) {
    match e
    case Connect(_, _, data, _) => data == filter && filter in {Random, Male, Female}
    case NearbyPress(_, _, button, located, _) =>
      || (button == Near && located && filter == Nearby) || (button == Anywhere && filter == Random)
      || (button == NearMan && filter == NearbyMale) || (button == NearWoman && filter == NearbyFemale)
    case Again(_, _, data, _) => if data == Blank then filter == Random else filter == data
    case _ => false
  }

  function PriceOf(filter: Label): int {
    if filter in {Male, Female} then 2 else if filter in {NearbyMale, NearbyFemale} then 4 else 0
  }

  // Whatever the button checks first, joining the queue checks again.
  lemma ButtonsJoin(s: Store, e: Event, filter: Label)
    requires AsksFor(e, filter) && e.user in s.coins
    ensures Step(s, e) == Join(s, e.user, e.gender, filter, PriceOf(filter), e.now)
  {
  }

  /** A press of a search button puts the presser, with his gender and the time, at the end of the list
      of the filter on the button and takes its price, exactly when he neither waits nor chats and has
      the coins; otherwise it changes nothing. */
  lemma ButtonSearchesExactlyWhen(s: Store, e: Event, filter: Label)
    requires Good(s) && AsksFor(e, filter) && filter != Blank && e.user in s.coins
    ensures var price, t := PriceOf(filter), Step(s, e);
      if e.user !in s.waiting && e.user !in s.chats && s.coins[e.user] >= price
      then Queue(t, filter) == Queue(s, filter) + [QueueEntry(e.user, e.gender, filter, e.now, price)]
           && t.waiting == s.waiting[e.user := filter]
           && t.coins == s.coins[e.user := s.coins[e.user] - price]
      else t == s
  {
    ButtonsJoin(s, e, filter);
    JoinedExactlyWhen(s, e.user, e.gender, filter, e.now);
  }

  /** A press that asks for no filter changes nothing. */
  lemma OtherButtonsDoNothing(s: Store, e: Event)
    requires e.Connect? || e.NearbyPress?
    requires forall filter :: !AsksFor(e, filter)
    ensures Step(s, e) == s
  {
    if e.Connect? {
      assert !AsksFor(e, e.data);
    } else {
      assert !AsksFor(e, Nearby) && !AsksFor(e, Random) && !AsksFor(e, NearbyMale) && !AsksFor(e, NearbyFemale);
    }
  }

  /** A worker tick, for a waiting user whose list it reads: after two minutes the price is paid back and
      the search is over; before that no coin moves, and the user waits on or is in a new chat. */
  lemma WorkerTickForOneUser(s: Store, keys: seq<Label>, now: int, e: QueueEntry)
    requires Good(s) && e.filter in keys && Listed(s, e.filter, e)
    ensures var t := Step(s, WorkerTick(keys, now));
      if now - e.joinedAt >= 120
      then e.user !in t.waiting && e.user !in t.chats && Balance(t, e.user) == Balance(s, e.user) + PriceOf(e.filter)
      else Balance(t, e.user) == Balance(s, e.user) && (e.user in t.waiting <==> e.user !in t.chats)
  {
    TickForOneUser(s, keys, now, e);
    HeldBy(s, e);
  }

  /** Ending a chat takes it from both members and changes nothing else; without one nothing happens. */
  lemma EndIs(s: Store, u: UserId)
    requires Good(s)
    ensures Step(s, End(u)) == if u in s.chats then s.(chats := s.chats - {u, Partner(s, u)}) else s
  {
    EndChatKeeps(s, u);
  }

  function Run(s: Store, events: seq<Event>): Store
    decreases |events|
  {
    if events == [] then s else Run(Step(s, events[0]), events[1..])
  }

  function Start(): Store {
    Store(map[], map[], map[], {}, map[], [])
  }

  // Everyone known keeps their wealth.
  ghost predicate Carries(s: Store, t: Store) {
    Good(t) && s.coins.Keys <= t.coins.Keys && forall u | u in s.coins :: Wealth(t, u) == Wealth(s, u)
  }

  lemma RegisterCarries(s: Store, user: UserId, coins: nat)
    requires Good(s)
    ensures Carries(s, Step(s, Register(user, coins)))
  {
    var t := Step(s, Register(user, coins));
    SameListsKeep(s, t);
    SameListsHeld(s, t);
  }

  lemma PursueCarries(s: Store, user: UserId, gender: Label, d: Decision, now: int)
    requires Good(s) && (d.Search? ==> d.cost == CostForFilter(d.filter) && d.filter != Blank)
    ensures Carries(s, Pursue(s, user, gender, d, now))
  {
    if user in s.coins && d.Search? {
      JoinKeeps(s, user, gender, d.filter, now);
    }
  }

  lemma StepCarries(s: Store, e: Event)
    requires Good(s)
    ensures Carries(s, Step(s, e))
  {
    match e
    case Register(u, c) => RegisterCarries(s, u, c);
    case Connect(u, g, data, now) => PursueCarries(s, u, g, ConnectType(s, u, data), now);
    case NearbyPress(u, g, button, located, now) =>
      PursueCarries(s, u, g, NearbyType(s, u, button, located), now);
    case Again(u, g, data, now) => PursueCarries(s, u, g, SearchAgain(s, u, data), now);
    case WorkerTick(keys, now) => TickKeeps(s, keys, now);
    case End(u) => EndChatKeeps(s, u);
  }

  /** Coin escrow over whole runs. From any consistent state, whatever happens: the stores stay in
      step, balances stay non-negative, the history stays well bracketed, and nobody's coins in
      hand plus held by a search plus spent on matches ever change. */
  lemma {:induction false} RunConservesCoins(s: Store, events: seq<Event>)
    requires Good(s)
    ensures Carries(s, Run(s, events))
    decreases |events|
  {
    if events != [] {
      StepCarries(s, events[0]);
      RunConservesCoins(Step(s, events[0]), events[1..]);
    }
  }

  lemma StartIsGood()
    ensures Good(Start())
  {
    assert forall f :: Queue(Start(), f) == [];
  }

  /** What every reachable state looks like to one user. */
  lemma ReachableState(events: seq<Event>, u: UserId)
    ensures var s := Run(Start(), events);
      && Balance(s, u) >= 0
      && (forall f :: Occurs(Queue(s, f), u) == if u in s.waiting && s.waiting[u] == f then 1 else 0)
      && (u in s.waiting <==> u in s.inQueue)
      && (u in s.inQueue ==> Partner(s, u) == 0)
      && (u in s.waiting ==> Held(s, u) == CostForFilter(s.waiting[u]))
      && (u in s.chats ==>
            && Partner(s, u) != u && Partner(s, u) in s.chats
            && s.chats[Partner(s, u)] == s.chats[u]
            && Partner(s, Partner(s, u)) == u)
      && SearchOf(s.log, u) != Broken
  {
    var s := Run(Start(), events);
    StartIsGood();
    RunConservesCoins(Start(), events);
    if u in s.waiting {
      var q := Queue(s, s.waiting[u]);
      assert Occurs(q, u) == 1;
      var e := EntryOf(q, u);
      assert Listed(s, s.waiting[u], e);
      HeldBy(s, e);
    }
  }

  lemma {:induction false} EntryOf(q: seq<QueueEntry>, u: UserId) returns (e: QueueEntry)
    requires Occurs(q, u) > 0
    ensures e in q && e.user == u
  {
    if q[0].user == u {
      e := q[0];
    } else {
      e := EntryOf(q[1..], u);
    }
  }
}
