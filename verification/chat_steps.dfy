/** What every step on the chat stores keeps: the stores stay in step, no user's wealth
    changes, and the search history stays well bracketed. */
module ChatSteps {
  import opened ChatStore

  ghost predicate SameWealth(s: Store, t: Store) {
    forall u: UserId :: Wealth(t, u) == Wealth(s, u)
  }

  ghost predicate Good(s: Store) {
    Inv(s) && Accounted(s)
  }

  ghost predicate Keeps(s: Store, t: Store) {
    Good(t) && SameWealth(s, t) && t.coins.Keys == s.coins.Keys
  }

  lemma NoteOne(log: seq<Record>, r: Record, u: UserId)
    ensures Spent(log + [r], u) == Spent(log, u) + if r.Matched? && r.user == u then r.coins else 0
    ensures SearchOf(log + [r], u) == if r.user == u then After(SearchOf(log, u), r) else SearchOf(log, u)
  {
    assert (log + [r])[..|log|] == log;
  }

  // Balances and history do not enter the queue facts.
  ghost predicate SameLists(s: Store, t: Store) {
    t.queues == s.queues && t.waiting == s.waiting && t.inQueue == s.inQueue
  }

  lemma SameListsKeep(s: Store, t: Store)
    requires QueueInv(s) && SameLists(s, t)
    requires s.coins.Keys <= t.coins.Keys && forall u | u in t.coins :: t.coins[u] >= 0
    ensures QueueInv(t)
  {
    assert forall f :: Queue(t, f) == Queue(s, f);
    assert forall f, e :: Listed(t, f, e) == Listed(s, f, e);
  }

  lemma SameListsHeld(s: Store, t: Store)
    requires SameLists(s, t)
    ensures forall u :: Held(t, u) == Held(s, u)
    ensures forall f, e :: Listed(t, f, e) == Listed(s, f, e)
  {
    assert forall f :: Queue(t, f) == Queue(s, f);
  }

  // ----- joining -----

  // t is s with e appended to the list of its filter.
  ghost predicate Appended(s: Store, t: Store, e: QueueEntry) {
    && t.waiting == s.waiting[e.user := e.filter]
    && t.inQueue == s.inQueue + {e.user}
    && forall f :: Queue(t, f) == if f == e.filter then Queue(s, f) + [e] else Queue(s, f)
  }

  lemma AppendedKeeps(s: Store, t: Store, e: QueueEntry)
    requires QueueInv(s) && Appended(s, t, e) && t.coins == s.coins
    requires e.user !in s.waiting && e.user in s.coins
    requires e.filter != Blank && e.cost == CostForFilter(e.filter)
    ensures QueueInv(t)
  {
    forall f, u: UserId
      ensures Occurs(Queue(t, f), u) == if u in t.waiting && t.waiting[u] == f then 1 else 0
    {
      AppendCounts(Queue(s, f), e, u);
    }
    forall f, x | Listed(t, f, x)
      ensures x.filter == f && f != Blank && x.cost == CostForFilter(f)
    {
      if !Listed(s, f, x) {
        assert Queue(t, f) == Queue(s, f) + [e];
        assert x == e;
      }
    }
  }

  lemma AppendedHeld(s: Store, t: Store, e: QueueEntry, u: UserId)
    requires QueueInv(s) && Appended(s, t, e) && e.user !in s.waiting
    ensures Held(t, u) == if u == e.user then e.cost else Held(s, u)
  {
    AppendCounts(Queue(s, e.filter), e, u);
    AbsentCostsNothing(Queue(s, e.filter), e.user);
  }

  predicate Admits(s: Store, user: UserId, cost: int) {
    user !in s.inQueue && Partner(s, user) == 0 && (cost > 0 ==> CanPay(s, user, cost))
  }

  // What an admitted search changes.
  lemma JoinShape(s: Store, user: UserId, gender: Label, filter: Label, now: int)
    requires QueueInv(s) && user in s.coins && filter != Blank && Admits(s, user, CostForFilter(filter))
    ensures var cost := CostForFilter(filter); var t := Join(s, user, gender, filter, cost, now);
      && QueueInv(t)
      && t.waiting == s.waiting[user := filter] && t.chats == s.chats
      && t.coins == s.coins[user := s.coins[user] - cost]
      && t.log == s.log + [Charged(user, cost)]
      && (forall u: UserId :: Held(t, u) == if u == user then cost else Held(s, u))
      && (forall f :: Queue(t, f) ==
            if f == filter then Queue(s, f) + [QueueEntry(user, gender, filter, now, cost)] else Queue(s, f))
  {
    var cost := CostForFilter(filter);
    var paid := if cost > 0 then Award(s, user, -cost) else s;
    var e := QueueEntry(user, gender, filter, now, cost);
    var t := Join(s, user, gender, filter, cost, now);
    SameListsKeep(s, paid);
    SameListsHeld(s, paid);
    assert Appended(paid, t, e);
    AppendedKeeps(paid, t, e);
    forall u: UserId ensures Held(t, u) == if u == user then cost else Held(s, u) {
      AppendedHeld(paid, t, e, u);
    }
  }

  /** A search is admitted exactly when the user neither waits nor chats and can pay for it; otherwise
      nothing changes. */
  lemma JoinedExactlyWhen(s: Store, user: UserId, gender: Label, filter: Label, now: int)
    requires Inv(s) && user in s.coins && filter != Blank
    ensures var cost := CostForFilter(filter); var t := Join(s, user, gender, filter, cost, now);
      if user !in s.waiting && user !in s.chats && s.coins[user] >= cost
      then Queue(t, filter) == Queue(s, filter) + [QueueEntry(user, gender, filter, now, cost)]
           && t.waiting == s.waiting[user := filter] && t.coins == s.coins[user := s.coins[user] - cost]
      else t == s
  {
    if user !in s.waiting && user !in s.chats && s.coins[user] >= CostForFilter(filter) {
      JoinShape(s, user, gender, filter, now);
    } else if user in s.chats {
      assert Partner(s, user) != 0;
    }
  }

  // ----- leaving -----

  // t is s with user out of every list, the waiting keys and the flags.
  ghost predicate TookOut(s: Store, t: Store, user: UserId) {
    && t.waiting == s.waiting - {user} && t.inQueue == s.inQueue - {user}
    && forall f :: Queue(t, f)
         == if user in s.waiting && s.waiting[user] == f then RemoveFirst(Queue(s, f), user) else Queue(s, f)
  }

  lemma DequeueTakesOut(s: Store, user: UserId)
    requires QueueInv(s) && user in s.waiting
    ensures TookOut(s, Dequeue(s, user), user)
  {
    var f := s.waiting[user];
    assert Occurs(Queue(s, f), user) == 1;
    assert Listed(s, f, Queue(s, f)[0]);
    assert Dequeue(s, user).waiting == s.waiting - {user};
  }

  lemma TookOutKeeps(s: Store, t: Store, user: UserId)
    requires QueueInv(s) && TookOut(s, t, user) && t.coins == s.coins
    ensures QueueInv(t)
  {
    forall f, u: UserId
      ensures Occurs(Queue(t, f), u) == if u in t.waiting && t.waiting[u] == f then 1 else 0
    {
      assert Occurs(Queue(s, f), u) == if u in s.waiting && s.waiting[u] == f then 1 else 0;
      assert Occurs(Queue(s, f), user) == if user in s.waiting && s.waiting[user] == f then 1 else 0;
      RemoveFirstCounts(Queue(s, f), user, u);
    }
    forall f, e | Listed(t, f, e)
      ensures e.filter == f && f != Blank && e.cost == CostForFilter(f)
    {
      RemoveFirstLeaves(Queue(s, f), user, e);
      assert Listed(s, f, e);
    }
  }

  // The others are where they were.
  ghost predicate Without(s: Store, t: Store, users: set<UserId>) {
    && (forall f, e | Listed(s, f, e) && e.user !in users :: Listed(t, f, e))
    && (forall u: UserId :: Held(t, u) == if u in users then 0 else Held(s, u))
  }

  lemma TookOutIsWithout(s: Store, t: Store, user: UserId)
    requires TookOut(s, t, user)
    ensures Without(s, t, {user})
  {
    forall f, e | Listed(s, f, e) && e.user != user ensures Listed(t, f, e) {
      RemoveFirstLeaves(Queue(s, f), user, e);
    }
    forall u: UserId ensures Held(t, u) == if u == user then 0 else Held(s, u) {
      if u in s.waiting {
        RemoveFirstCounts(Queue(s, s.waiting[u]), user, u);
      }
    }
  }

  lemma DequeueShape(s: Store, user: UserId)
    requires QueueInv(s) && user in s.waiting
    ensures var t := Dequeue(s, user);
      && QueueInv(t) && Without(s, t, {user})
      && t.waiting == s.waiting - {user}
      && t.coins == s.coins && t.chats == s.chats && t.log == s.log
  {
    DequeueTakesOut(s, user);
    TookOutKeeps(s, Dequeue(s, user), user);
    TookOutIsWithout(s, Dequeue(s, user), user);
  }

  // What refunding a waiting search changes.
  lemma ExpireShape(s: Store, e: QueueEntry)
    requires QueueInv(s) && Listed(s, e.filter, e)
    ensures e.user in s.coins
    ensures var t := Expire(s, e);
      && QueueInv(t) && Without(s, t, {e.user})
      && t.waiting == s.waiting - {e.user} && t.chats == s.chats
      && t.coins == s.coins[e.user := s.coins[e.user] + e.cost]
      && t.log == s.log + [Refunded(e.user, e.cost)]
  {
    HeldBy(s, e);
    var q := Dequeue(s, e.user);
    DequeueShape(s, e.user);
    SameListsKeep(q, Expire(s, e));
    SameListsHeld(q, Expire(s, e));
  }

  // What a match changes.
  lemma MatchShape(s: Store, a: QueueEntry, b: QueueEntry, now: int)
    requires QueueInv(s) && Listed(s, a.filter, a) && Listed(s, b.filter, b) && a.user != b.user
    ensures var t := Match(s, a, b, now); var c := ChatSession(a.user, b.user, a.cost, b.cost, now);
      && QueueInv(t) && Without(s, t, {a.user, b.user})
      && t.waiting == s.waiting - {a.user, b.user} && t.chats == s.chats[a.user := c][b.user := c]
      && t.coins == s.coins
      && t.log == s.log + [Matched(a.user, a.cost)] + [Matched(b.user, b.cost)]
  {
    HeldBy(s, a);
    HeldBy(s, b);
    var c := SetActiveChat(s, ChatSession(a.user, b.user, a.cost, b.cost, now));
    SameListsKeep(s, c);
    SameListsHeld(s, c);
    var q := Dequeue(c, a.user);
    DequeueShape(c, a.user);
    var q' := Dequeue(q, b.user);
    DequeueShape(q, b.user);
    SameListsKeep(q', Match(s, a, b, now));
    SameListsHeld(q', Match(s, a, b, now));
  }

  lemma DequeueApart(s: Store, chats: map<UserId, ChatSession>, user: UserId)
    ensures Dequeue(s.(chats := chats), user) == Dequeue(s, user).(chats := chats)
  {
  }

  // Refunds leave the lists as taking the user out left them.
  lemma ExpireKeepsOrder(s: Store, e: QueueEntry)
    ensures Expire(s, e).queues == Dequeue(s, e.user).queues
  {
  }

  // So do new chats.
  lemma MatchKeepsOrder(s: Store, a: QueueEntry, b: QueueEntry, now: int)
    ensures Match(s, a, b, now).queues == Dequeue(Dequeue(s, a.user), b.user).queues
  {
    var chats := SetActiveChat(s, ChatSession(a.user, b.user, a.cost, b.cost, now)).chats;
    DequeueApart(s, chats, a.user);
    DequeueApart(Dequeue(s, a.user), chats, b.user);
  }

  // ----- what each step keeps -----

  // One user's part of the accounts.
  ghost predicate Settled(s: Store, t: Store, u: UserId) {
    && Wealth(t, u) == Wealth(s, u)
    && SearchOf(t.log, u) == if u in t.waiting then Open(Held(t, u)) else Idle
  }

  lemma JoinSettles(s: Store, user: UserId, gender: Label, filter: Label, now: int, u: UserId)
    requires Good(s) && user in s.coins && filter != Blank && Admits(s, user, CostForFilter(filter))
    ensures Settled(s, Join(s, user, gender, filter, CostForFilter(filter), now), u)
  {
    JoinShape(s, user, gender, filter, now);
    NoteOne(s.log, Charged(user, CostForFilter(filter)), u);
  }

  lemma ExpireSettles(s: Store, e: QueueEntry, u: UserId)
    requires Good(s) && Listed(s, e.filter, e)
    ensures Settled(s, Expire(s, e), u)
  {
    HeldBy(s, e);
    ExpireShape(s, e);
    NoteOne(s.log, Refunded(e.user, e.cost), u);
  }

  lemma MatchSettles(s: Store, a: QueueEntry, b: QueueEntry, now: int, u: UserId)
    requires Good(s) && Listed(s, a.filter, a) && Listed(s, b.filter, b) && a.user != b.user
    ensures Settled(s, Match(s, a, b, now), u)
  {
    HeldBy(s, a);
    HeldBy(s, b);
    MatchShape(s, a, b, now);
    NoteOne(s.log, Matched(a.user, a.cost), u);
    NoteOne(s.log + [Matched(a.user, a.cost)], Matched(b.user, b.cost), u);
  }

  lemma SettledKeeps(s: Store, t: Store)
    requires Inv(t) && t.coins.Keys == s.coins.Keys
    requires forall u: UserId :: Settled(s, t, u)
    ensures Keeps(s, t)
  {
    forall u: UserId
      ensures Wealth(t, u) == Wealth(s, u)
      ensures SearchOf(t.log, u) == if u in t.waiting then Open(Held(t, u)) else Idle
    {
      assert Settled(s, t, u);
    }
  }

  /** A request to search, admitted or not. */
  lemma JoinKeeps(s: Store, user: UserId, gender: Label, filter: Label, now: int)
    requires Good(s) && user in s.coins && filter != Blank
    ensures Keeps(s, Join(s, user, gender, filter, CostForFilter(filter), now))
  {
    var t := Join(s, user, gender, filter, CostForFilter(filter), now);
    if Admits(s, user, CostForFilter(filter)) {
      JoinShape(s, user, gender, filter, now);
      forall u: UserId ensures Settled(s, t, u) {
        JoinSettles(s, user, gender, filter, now, u);
      }
      SettledKeeps(s, t);
    }
  }

  /** A waiting search that timed out. */
  lemma ExpireKeeps(s: Store, e: QueueEntry)
    requires Good(s) && Listed(s, e.filter, e)
    ensures Keeps(s, Expire(s, e)) && Without(s, Expire(s, e), {e.user})
  {
    HeldBy(s, e);
    ExpireShape(s, e);
    forall u: UserId ensures Settled(s, Expire(s, e), u) {
      ExpireSettles(s, e, u);
    }
    SettledKeeps(s, Expire(s, e));
  }

  /** Two waiting searches that were paired. */
  lemma MatchKeeps(s: Store, a: QueueEntry, b: QueueEntry, now: int)
    requires Good(s) && Listed(s, a.filter, a) && Listed(s, b.filter, b) && a.user != b.user
    ensures Keeps(s, Match(s, a, b, now)) && Without(s, Match(s, a, b, now), {a.user, b.user})
  {
    HeldBy(s, a);
    HeldBy(s, b);
    MatchShape(s, a, b, now);
    forall u: UserId ensures Settled(s, Match(s, a, b, now), u) {
      MatchSettles(s, a, b, now, u);
    }
    SettledKeeps(s, Match(s, a, b, now));
  }

  /** The end of a chat, or a request to end one that is already over. */
  lemma EndChatKeeps(s: Store, user: UserId)
    requires Good(s)
    ensures Keeps(s, EndChat(s, user))
    ensures user in s.chats ==> EndChat(s, user).chats == s.chats - {user, Partner(s, user)}
  {
    SameListsKeep(s, EndChat(s, user));
    SameListsHeld(s, EndChat(s, user));
  }

  // ----- the failing branch -----

  // Opening the chat failed: both are refunded, but neither leaves the queue.
  function FailMatch(s: Store, a: QueueEntry, b: QueueEntry): Store {
    var t := if a.cost > 0 then Award(s, a.user, a.cost) else s;
    if b.cost > 0 then Award(t, b.user, b.cost) else t
  }

  /** When the chat store refuses, coins appear from nowhere, unless both searches were free. */
  lemma FailMatchOverpays(s: Store, a: QueueEntry, b: QueueEntry)
    requires Good(s) && Listed(s, a.filter, a) && Listed(s, b.filter, b) && a.user != b.user
    ensures Wealth(FailMatch(s, a, b), a.user) == Wealth(s, a.user) + a.cost
    ensures Wealth(FailMatch(s, a, b), b.user) == Wealth(s, b.user) + b.cost
    ensures SameWealth(s, FailMatch(s, a, b)) <==> a.cost == 0 && b.cost == 0
  {
    HeldBy(s, a);
    HeldBy(s, b);
    SameListsHeld(s, FailMatch(s, a, b));
  }

  /** The entries stay queued, so timing out pays the same cost a second time. */
  lemma FailMatchRefundsTwice(s: Store, a: QueueEntry, b: QueueEntry)
    requires Good(s) && Listed(s, a.filter, a) && Listed(s, b.filter, b) && a.user != b.user
    ensures Listed(FailMatch(s, a, b), a.filter, a) && Listed(FailMatch(s, a, b), b.filter, b)
    ensures Balance(Expire(FailMatch(s, a, b), a), a.user) == Balance(s, a.user) + 2 * a.cost
    ensures Balance(Expire(FailMatch(s, a, b), b), b.user) == Balance(s, b.user) + 2 * b.cost
  {
    HeldBy(s, a);
    HeldBy(s, b);
  }
}
