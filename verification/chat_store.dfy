/** The stores behind anonymous chats: balances, waiting lists, waiting keys, queue flags
    and active chats, with the operations that move users and coins between them. */
module ChatStore {

  type UserId = i: int | 0 < i witness 1

  // Filter and gender texts, which the source compares with each other. Blank is the empty
  // text, Other any text the source gives no meaning to.
  datatype Label =
    | Blank | Random | Male | Female | Nearby | NearbyMale | NearbyFemale
    | Other(text: string)

  datatype QueueEntry = QueueEntry(user: UserId, gender: Label, filter: Label, joinedAt: int, cost: int)

  datatype ChatSession = ChatSession(user1: UserId, user2: UserId, coins1: int, coins2: int, startedAt: int)

  // What happened to a search. The source keeps no such list; it is the history the
  // accounting below refers to.
  datatype Record =
    | Charged(user: UserId, coins: int)
    | Refunded(user: UserId, coins: int)
    | Matched(user: UserId, coins: int)

  datatype Store = Store(
    coins: map<UserId, int>,
    queues: map<Label, seq<QueueEntry>>,
    waiting: map<UserId, Label>,
    inQueue: set<UserId>,
    chats: map<UserId, ChatSession>,
    log: seq<Record>)

  const GENDER_COST := 2
  const NEARBY_COST := 4

  // How long a search may wait, in seconds.
  const SEARCH_TIMEOUT := 120

  function CostForFilter(filter: Label): int {
    match filter
    case Male => GENDER_COST
    case Female => GENDER_COST
    case NearbyMale => NEARBY_COST
    case NearbyFemale => NEARBY_COST
    case _ => 0
  }

  // A missing list reads as the empty one.
  function Queue(s: Store, filter: Label): seq<QueueEntry> {
    if filter in s.queues then s.queues[filter] else []
  }

  predicate Listed(s: Store, filter: Label, e: QueueEntry) {
    e in Queue(s, filter)
  }

  function RemoveFirst(q: seq<QueueEntry>, user: UserId): seq<QueueEntry> {
    if q == [] then []
    else if q[0].user == user then q[1..]
    else [q[0]] + RemoveFirst(q[1..], user)
  }

  // ----- store operations -----

  function EnqueueChat(s: Store, e: QueueEntry): Store {
    s.(queues := s.queues[e.filter := Queue(s, e.filter) + [e]],
       waiting := s.waiting[e.user := e.filter])
  }

  function RemoveFromQueue(s: Store, user: UserId, filter: Label): Store {
    s.(queues := if filter in s.queues
                 then s.queues[filter := RemoveFirst(s.queues[filter], user)] else s.queues,
       waiting := s.waiting - {user})
  }

  // The worker's clean-up: out of the list, the waiting key and the flag.
  function Dequeue(s: Store, user: UserId): Store {
    var t := if user in s.waiting && s.waiting[user] != Blank
             then RemoveFromQueue(s, user, s.waiting[user]) else s;
    t.(waiting := t.waiting - {user}, inQueue := t.inQueue - {user})
  }

  function SetActiveChat(s: Store, c: ChatSession): Store {
    s.(chats := s.chats[c.user1 := c][c.user2 := c])
  }

  function DeleteActiveChat(s: Store, user: UserId): Store {
    s.(chats := s.chats - if user in s.chats
                          then {s.chats[user].user1, s.chats[user].user2} else {user})
  }

  // The other member of user's chat, 0 if there is no chat.
  function Partner(s: Store, user: UserId): int {
    if user !in s.chats then 0
    else if s.chats[user].user1 == user then s.chats[user].user2
    else s.chats[user].user1
  }

  function Award(s: Store, user: UserId, amount: int): Store {
    if user in s.coins then s.(coins := s.coins[user := s.coins[user] + amount]) else s
  }

  predicate CanPay(s: Store, user: UserId, amount: int) {
    user in s.coins && s.coins[user] >= amount
  }

  function Note(s: Store, records: seq<Record>): Store {
    s.(log := s.log + records)
  }

  // ----- steps -----

  // Charge the search and put the user in line, unless already queued, chatting or too poor.
  function Join(s: Store, user: UserId, gender: Label, filter: Label, cost: int, now: int): Store {
    if user in s.inQueue || Partner(s, user) != 0 || (cost > 0 && !CanPay(s, user, cost)) then s
    else
      var paid := if cost > 0 then Award(s, user, -cost) else s;
      var queued := EnqueueChat(paid, QueueEntry(user, gender, filter, now, cost));
      Note(queued.(inQueue := queued.inQueue + {user}), [Charged(user, cost)])
  }

  // A search that waited too long: out of the queue, coins back.
  function Expire(s: Store, e: QueueEntry): Store {
    var t := Dequeue(s, e.user);
    Note(if e.cost > 0 then Award(t, e.user, e.cost) else t, [Refunded(e.user, e.cost)])
  }

  // Two searches that found each other: one chat under both users, both out of the queue.
  function Match(s: Store, a: QueueEntry, b: QueueEntry, now: int): Store {
    var t := SetActiveChat(s, ChatSession(a.user, b.user, a.cost, b.cost, now));
    Note(Dequeue(Dequeue(t, a.user), b.user), [Matched(a.user, a.cost), Matched(b.user, b.cost)])
  }

  function EndChat(s: Store, user: UserId): Store {
    if user in s.chats then DeleteActiveChat(s, user) else s
  }

  // ----- consistency -----

  // How many entries of user one list holds.
  function Occurs(q: seq<QueueEntry>, user: UserId): nat {
    if q == [] then 0
    else (if q[0].user == user then 1 else 0) + Occurs(q[1..], user)
  }

  // A user is in one list only, once, and it is the list the waiting key names.
  ghost predicate PlacedOnce(s: Store) {
    forall f, u: UserId ::
      Occurs(Queue(s, f), u) == if u in s.waiting && s.waiting[u] == f then 1 else 0
  }

  // Entries are filed under their own filter, at its price.
  ghost predicate FiledRight(s: Store) {
    forall f, e | Listed(s, f, e) :: e.filter == f && f != Blank && e.cost == CostForFilter(f)
  }

  ghost predicate QueueInv(s: Store) {
    && PlacedOnce(s)
    && FiledRight(s)
    && s.inQueue == s.waiting.Keys
    && s.waiting.Keys <= s.coins.Keys
    && (forall u | u in s.coins :: s.coins[u] >= 0)
  }

  ghost predicate ChatInv(s: Store) {
    forall u | u in s.chats ::
      var c := s.chats[u];
      && c.user1 != c.user2 && u in {c.user1, c.user2}
      && c.user1 in s.chats && c.user2 in s.chats
      && s.chats[c.user1] == c && s.chats[c.user2] == c
  }

  /** The four stores are in step. */
  ghost predicate Inv(s: Store) {
    QueueInv(s) && ChatInv(s) && s.waiting.Keys !! s.chats.Keys
  }

  // ----- accounting -----

  // Coins of all of user's entries in one list.
  function CostIn(q: seq<QueueEntry>, user: UserId): int {
    if q == [] then 0
    else (if q[0].user == user then q[0].cost else 0) + CostIn(q[1..], user)
  }

  function Held(s: Store, user: UserId): int {
    if user in s.waiting then CostIn(Queue(s, s.waiting[user]), user) else 0
  }

  function Balance(s: Store, user: UserId): int {
    if user in s.coins then s.coins[user] else 0
  }

  function Spent(log: seq<Record>, user: UserId): int {
    if log == [] then 0
    else
      var r := log[|log| - 1];
      Spent(log[..|log| - 1], user) + if r.Matched? && r.user == user then r.coins else 0
  }

  /** What a user owns: coins in hand, coins held by a waiting search, coins spent on matches. */
  function Wealth(s: Store, user: UserId): int {
    Balance(s, user) + Held(s, user) + Spent(s.log, user)
  }

  // One user's searches as the history tells them.
  datatype Search = Idle | Open(cost: int) | Broken

  function After(search: Search, r: Record): Search {
    match r
    case Charged(_, c) => if search.Idle? then Open(c) else Broken
    case Refunded(_, c) => if search == Open(c) then Idle else Broken
    case Matched(_, c) => if search == Open(c) then Idle else Broken
  }

  function SearchOf(log: seq<Record>, user: UserId): Search {
    if log == [] then Idle
    else
      var before := SearchOf(log[..|log| - 1], user);
      if log[|log| - 1].user == user then After(before, log[|log| - 1]) else before
  }

  /** The history is well bracketed: every charge is closed at most once, by one refund or
      one match of the same amount, before the next charge; an open one is what the queue holds. */
  ghost predicate Accounted(s: Store) {
    forall u: UserId :: SearchOf(s.log, u) == if u in s.waiting then Open(Held(s, u)) else Idle
  }

  // ----- one list -----

  lemma {:induction false} RemoveFirstAt(q: seq<QueueEntry>, user: UserId, i: nat)
    requires i <= |q| && forall j | 0 <= j < i :: q[j].user != user
    requires i < |q| ==> q[i].user == user
    ensures RemoveFirst(q, user) == if i < |q| then q[..i] + q[i + 1..] else q
  {
    if i > 0 {
      RemoveFirstAt(q[1..], user, i - 1);
      assert q == [q[0]] + q[1..];
      assert i < |q| ==> q[..i] + q[i + 1..] == [q[0]] + (q[1..][..i - 1] + q[1..][i..]);
    }
  }

  lemma {:induction false} RemoveFirstCounts(q: seq<QueueEntry>, user: UserId, u: UserId)
    ensures Occurs(q, user) > 0 ==>
      Occurs(RemoveFirst(q, user), u) == Occurs(q, u) - if u == user then 1 else 0
    ensures Occurs(q, user) == 0 ==> RemoveFirst(q, user) == q
    ensures u != user ==> CostIn(RemoveFirst(q, user), u) == CostIn(q, u)
  {
    if q != [] {
      RemoveFirstCounts(q[1..], user, u);
      assert ([q[0]] + RemoveFirst(q[1..], user))[1..] == RemoveFirst(q[1..], user);
      assert q == [q[0]] + q[1..];
    }
  }

  lemma {:induction false} RemoveFirstLeaves(q: seq<QueueEntry>, user: UserId, e: QueueEntry)
    ensures e in RemoveFirst(q, user) ==> e in q
    ensures e in q && e.user != user ==> e in RemoveFirst(q, user)
  {
    if q != [] {
      RemoveFirstLeaves(q[1..], user, e);
      assert q == [q[0]] + q[1..];
    }
  }

  lemma {:induction false} MemberOccurs(q: seq<QueueEntry>, e: QueueEntry)
    requires e in q
    ensures Occurs(q, e.user) >= 1
    ensures Occurs(q, e.user) == 1 ==> CostIn(q, e.user) == e.cost
  {
    assert q == [q[0]] + q[1..];
    if q[0] == e {
      AbsentCostsNothing(q[1..], e.user);
    } else {
      MemberOccurs(q[1..], e);
    }
  }

  lemma {:induction false} AbsentCostsNothing(q: seq<QueueEntry>, user: UserId)
    ensures Occurs(q, user) == 0 ==> CostIn(q, user) == 0
  {
    if q != [] {
      AbsentCostsNothing(q[1..], user);
    }
  }

  lemma {:induction false} AppendCounts(q: seq<QueueEntry>, e: QueueEntry, u: UserId)
    ensures Occurs(q + [e], u) == Occurs(q, u) + if e.user == u then 1 else 0
    ensures CostIn(q + [e], u) == CostIn(q, u) + if e.user == u then e.cost else 0
  {
    if q == [] {
      assert q + [e] == [e];
    } else {
      AppendCounts(q[1..], e, u);
      assert (q + [e])[1..] == q[1..] + [e];
    }
  }

  // An entry tells the whole story of its user.
  lemma HeldBy(s: Store, e: QueueEntry)
    requires QueueInv(s) && Listed(s, e.filter, e)
    ensures e.user in s.waiting && s.waiting[e.user] == e.filter && e.user in s.coins
    ensures Held(s, e.user) == e.cost == CostForFilter(e.filter)
  {
    MemberOccurs(Queue(s, e.filter), e);
  }
}
