/** The chat service as an object that updates its stores step by step, each method proved
    against the step it performs. */
module ChatServer {
  import opened ChatStore
  import opened ChatSteps
  import opened MatchWorker

  class Server {
    var coins: map<UserId, int>
    var queues: map<Label, seq<QueueEntry>>
    var waiting: map<UserId, Label>
    var inQueue: set<UserId>
    var chats: map<UserId, ChatSession>
    ghost var log: seq<Record>

    ghost function View(): Store
      reads this
    {
      Store(coins, queues, waiting, inQueue, chats, log)
    }

    constructor ()
      ensures View() == Store(map[], map[], map[], {}, map[], [])
    {
      coins, queues, waiting, inQueue, chats, log := map[], map[], map[], {}, map[], [];
    }

    // ----- store calls -----

    method EnqueueChat(e: QueueEntry)
      modifies this
      ensures View() == ChatStore.EnqueueChat(old(View()), e)
    {
      var list := if e.filter in queues then queues[e.filter] else [];
      queues := queues[e.filter := list + [e]];
      waiting := waiting[e.user := e.filter];
    }

    // The scan for the user's first item.
    method FirstOf(items: seq<QueueEntry>, user: UserId) returns (i: nat)
      ensures i <= |items|
      ensures RemoveFirst(items, user) == if i < |items| then items[..i] + items[i + 1..] else items
    {
      i := 0;
      while i < |items| && items[i].user != user
        invariant 0 <= i <= |items|
        invariant forall j | 0 <= j < i :: items[j].user != user
      {
        i := i + 1;
      }
      RemoveFirstAt(items, user, i);
    }

    method RemoveFromQueue(user: UserId, filter: Label)
      modifies this
      ensures View() == ChatStore.RemoveFromQueue(old(View()), user, filter)
    {
      var items := if filter in queues then queues[filter] else [];
      var i := FirstOf(items, user);
      if i < |items| {
        queues := queues[filter := items[..i] + items[i + 1..]];
      }
      waiting := waiting - {user};
    }

    method SetActiveChat(c: ChatSession)
      modifies this
      ensures View() == ChatStore.SetActiveChat(old(View()), c)
    {
      chats := chats[c.user1 := c];
      chats := chats[c.user2 := c];
    }

    method DeleteActiveChat(user: UserId)
      modifies this
      ensures View() == ChatStore.DeleteActiveChat(old(View()), user)
    {
      if user !in chats {
        chats := chats - {user};
      } else {
        var c := chats[user];
        chats := chats - {c.user1};
        chats := chats - {c.user2};
        assert chats == old(chats) - {c.user1, c.user2};
      }
    }

    method HasActiveChat(user: UserId) returns (active: bool)
      ensures active == (Partner(View(), user) != 0)
    {
      if user !in chats {
        return false;
      }
      var c := chats[user];
      var partner: int := if c.user1 == user then c.user2 else c.user1;
      return partner != 0;
    }

    method DeductCoins(user: UserId, amount: int) returns (ok: bool)
      modifies this
      ensures ok == CanPay(old(View()), user, amount)
      ensures View() == if ok then Award(old(View()), user, -amount) else old(View())
    {
      if user !in coins || coins[user] < amount {
        return false;
      }
      coins := coins[user := coins[user] - amount];
      return true;
    }

    method AwardCoins(user: UserId, amount: int)
      modifies this
      ensures View() == Award(old(View()), user, amount)
    {
      if user in coins {
        coins := coins[user := coins[user] + amount];
      }
    }

    // ----- joining and ending -----

    method JoinQueue(user: UserId, gender: Label, filter: Label, cost: int, now: int) returns (joined: bool)
      modifies this
      ensures joined == Admits(old(View()), user, cost)
      ensures View() == Join(old(View()), user, gender, filter, cost, now)
    {
      if user in inQueue {
        return false;
      }
      var active := HasActiveChat(user);
      if active {
        return false;
      }
      if cost > 0 {
        var paid := DeductCoins(user, cost);
        if !paid {
          return false;
        }
      }
      EnqueueChat(QueueEntry(user, gender, filter, now, cost));
      inQueue := inQueue + {user};
      log := log + [Charged(user, cost)];
      return true;
    }

    method ConfirmEndChat(user: UserId) returns (ended: bool)
      modifies this
      ensures ended == (user in old(chats))
      ensures View() == EndChat(old(View()), user)
    {
      if user !in chats {
        return false;
      }
      DeleteActiveChat(user);
      return true;
    }

    // ----- the worker -----

    method LeaveLine(user: UserId)
      modifies this
      ensures View() == Dequeue(old(View()), user)
    {
      if user in waiting && waiting[user] != Blank {
        RemoveFromQueue(user, waiting[user]);
      }
      waiting := waiting - {user};
      inQueue := inQueue - {user};
    }

    method GetAllQueueEntries(keys: seq<Label>) returns (entries: seq<QueueEntry>)
      ensures entries == Snapshot(View(), keys)
    {
      entries := [];
      var seen: set<UserId> := {};
      for k := 0 to |keys|
        invariant entries + Dedup(All(View(), keys[k..]), seen) == Snapshot(View(), keys)
      {
        var items := if keys[k] in queues then queues[keys[k]] else [];
        var rest := All(View(), keys[k + 1..]);
        assert All(View(), keys[k..]) == items[0..] + rest;
        for i := 0 to |items|
          invariant entries + Dedup(items[i..] + rest, seen) == Snapshot(View(), keys)
        {
          assert (items[i..] + rest)[1..] == items[i + 1..] + rest;
          if items[i].user !in seen {
            seen := seen + {items[i].user};
            entries := entries + [items[i]];
          }
        }
        assert items[|items|..] + rest == rest;
      }
    }

    method ExpireEntry(e: QueueEntry)
      modifies this
      ensures View() == Expire(old(View()), e)
    {
      LeaveLine(e.user);
      if e.cost > 0 {
        AwardCoins(e.user, e.cost);
      }
      log := log + [Refunded(e.user, e.cost)];
    }

    // The stale entries leave and are refunded; the others move to the front of the same array.
    method ExpireStaleEntries(entries: array<QueueEntry>, now: int) returns (k: nat)
      modifies this, entries
      ensures k <= entries.Length && entries[..k] == Fresh(old(entries[..]), now)
      ensures View() == ExpireAll(old(View()), old(entries[..]), now)
    {
      k := 0;
      ghost var all := entries[..];
      assert all[0..] == all;
      for i := 0 to entries.Length
        invariant k <= i && entries[i..] == all[i..]
        invariant entries[..k] + Fresh(all[i..], now) == Fresh(all, now)
        invariant ExpireAll(View(), all[i..], now) == ExpireAll(old(View()), all, now)
      {
        var entry := entries[i];
        assert entry == all[i] && all[i..][1..] == all[i + 1..];
        if now - entry.joinedAt < SEARCH_TIMEOUT {
          entries[k] := entry;
          k := k + 1;
        } else {
          ExpireEntry(entry);
        }
      }
    }

    method CreateMatch(a: QueueEntry, b: QueueEntry, now: int)
      modifies this
      ensures View() == Match(old(View()), a, b, now)
    {
      SetActiveChat(ChatSession(a.user, b.user, a.cost, b.cost, now));
      LeaveLine(a.user);
      LeaveLine(b.user);
      log := log + [Matched(a.user, a.cost), Matched(b.user, b.cost)];
    }

    // The path taken when the chat store refuses the chat.
    method RefundMatch(a: QueueEntry, b: QueueEntry)
      modifies this
      ensures View() == FailMatch(old(View()), a, b)
    {
      if a.cost > 0 {
        AwardCoins(a.user, a.cost);
      }
      if b.cost > 0 {
        AwardCoins(b.user, b.cost);
      }
    }

    // The inner scan: the first free entry after i that i is compatible with.
    method FindPartner(entries: seq<QueueEntry>, matched: set<UserId>, i: nat) returns (j: nat)
      requires i < |entries|
      ensures j == Successor(entries, matched, i, i + 1)
    {
      j := i + 1;
      while j < |entries| && (entries[j].user in matched || !Compatible(entries[i], entries[j]))
        invariant i < j <= |entries|
        invariant Successor(entries, matched, i, j) == Successor(entries, matched, i, i + 1)
      {
        j := j + 1;
      }
    }

    // The outer scan over the entries that are still fresh.
    method PairUp(entries: seq<QueueEntry>, now: int)
      modifies this
      ensures View() == MatchAll(old(View()), entries, Greedy(entries, {}, 0), now)
    {
      var matched: set<UserId> := {};
      for i := 0 to |entries|
        invariant MatchAll(View(), entries, Greedy(entries, matched, i), now)
               == MatchAll(old(View()), entries, Greedy(entries, {}, 0), now)
      {
        if entries[i].user !in matched {
          var j := FindPartner(entries, matched, i);
          if j < |entries| {
            ghost var ps := Greedy(entries, matched, i);
            CreateMatch(entries[i], entries[j], now);
            matched := matched + {entries[i].user, entries[j].user};
            assert ps[1..] == Greedy(entries, matched, i + 1);
          }
        }
      }
    }

    method ProcessMatches(keys: seq<Label>, now: int)
      modifies this
      ensures View() == Tick(old(View()), keys, now)
    {
      var all := GetAllQueueEntries(keys);
      var entries := new QueueEntry[|all|](i requires 0 <= i < |all| => all[i]);
      assert entries[..] == all;
      var k := ExpireStaleEntries(entries, now);
      var kept := entries[..k];
      if |kept| >= 2 {
        PairUp(kept, now);
      }
    }
  }
}
