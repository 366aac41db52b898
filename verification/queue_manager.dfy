/** The matching queue as it is kept: four maps changed in place, proved against QueueIndex. Where
    the source visits a map, the order of the visit is left open. */
module QueueManagers {
  import opened QueueIndex

  class QueueManager {
    var entries: map<string, Entry>
    var byGender: Index
    var byProvince: Index
    var byFilter: Index
    const timeout: int
    const maxQueueSize: int

    function View(): State reads this {
      State(entries, byGender, byProvince, byFilter)
    }

    constructor (timeout: int, maxSize: int)
      ensures View() == Run([], maxSize) && this.timeout == timeout && maxQueueSize == maxSize
    {
      entries, byGender, byProvince, byFilter := map[], map[], map[], map[];
      this.timeout, maxQueueSize := timeout, maxSize;
    }

    static method Append(index: Index, key: string, e: Entry) returns (t: Index)
      ensures t == index[key := ListOf(index, key) + [e]]
    {
      t := index;
      if key !in t {
        t := t[key := []];
      }
      t := t[key := t[key] + [e]];
    }

    method Enqueue(entry: Entry, now: int) returns (ok: bool)
      modifies this
      ensures ok == (|old(entries)| < maxQueueSize)
      ensures View() ==
        QueueIndex.Enqueue(old(View()), entry.(joinedAt := now, expiresAt := now + timeout), maxQueueSize)
    {
      if |entries| >= maxQueueSize {
        return false;
      }
      var e := entry.(joinedAt := now, expiresAt := now + timeout);
      entries := entries[e.user := e];
      byGender := Append(byGender, e.gender, e);
      if e.province != "" {
        byProvince := Append(byProvince, e.province, e);
      }
      byFilter := Append(byFilter, e.filter, e);
      return true;
    }

    static method RemoveEntry(list: seq<Entry>, user: string) returns (kept: seq<Entry>)
      ensures kept == Drop(list, {user})
    {
      kept := [];
      for i := 0 to |list|
        invariant kept == Drop(list[..i], {user})
      {
        assert list[..i + 1][..i] == list[..i];
        if list[i].user != user {
          kept := kept + [list[i]];
        }
      }
      assert list[..|list|] == list;
    }

    // What dequeuing and cleaning both do with one entry.
    method Remove(e: Entry)
      modifies this
      ensures View() == RemoveOne(old(View()), e)
    {
      entries := entries - {e.user};
      if e.gender in byGender {
        var kept := RemoveEntry(byGender[e.gender], e.user);
        byGender := byGender[e.gender := kept];
      }
      if e.province != "" && e.province in byProvince {
        var kept := RemoveEntry(byProvince[e.province], e.user);
        byProvince := byProvince[e.province := kept];
      }
      if e.filter in byFilter {
        var kept := RemoveEntry(byFilter[e.filter], e.user);
        byFilter := byFilter[e.filter := kept];
      }
    }

    method Dequeue(user: string) returns (ok: bool)
      modifies this
      ensures ok == (user in old(entries))
      ensures View() == QueueIndex.Dequeue(old(View()), user)
    {
      if user !in entries {
        return false;
      }
      Remove(entries[user]);
      return true;
    }

    static method Offered(list: seq<Entry>, e: Entry, now: int) returns (cs: seq<Entry>)
      ensures cs == OfferedFrom(list, e, now)
    {
      cs := [];
      for i := 0 to |list|
        invariant cs == OfferedFrom(list[..i], e, now)
      {
        assert list[..i + 1][..i] == list[..i];
        if list[i].user != e.user && !(list[i].expiresAt < now) {
          cs := cs + [list[i]];
        }
      }
      assert list[..|list|] == list;
    }

    /** Whatever the indexes hold, the candidates are the offers of the one list the filter names; with
        exact indexes they are exactly those a scan of all entries finds, each once. */
    method GetCandidatesByFilter(e: Entry, now: int) returns (cs: seq<Entry>)
      ensures e.filter in {"male", "female"} ==> cs == OfferedFrom(ListOf(byGender, Opposite(e.gender)), e, now)
      ensures e.filter == "nearby" ==>
        cs == if e.province == "" then [] else OfferedFrom(ListOf(byProvince, e.province), e, now)
      ensures e.filter !in {"random", "male", "female", "nearby"} ==> cs == []
      ensures e.filter == "random" && Keyed(entries) ==>
        Distinct(cs) && forall c :: c in cs <==> Entered(entries, c) && Candidate(e, c, now)
      ensures Inv(View()) ==> Distinct(cs) && forall c :: c in cs <==> Entered(entries, c) && Candidate(e, c, now)
    {
      cs := [];
      OfferedMembers(ListOf(byGender, Opposite(e.gender)), e, now);
      OfferedMembers(ListOf(byProvince, e.province), e, now);
      match e.filter {
        case "random" => cs := Everyone(e, now);
        case "male" => cs := Offered(ListOf(byGender, Opposite(e.gender)), e, now);
        case "female" => cs := Offered(ListOf(byGender, Opposite(e.gender)), e, now);
        case "nearby" =>
          if e.province != "" {
            cs := Offered(ListOf(byProvince, e.province), e, now);
          }
        case _ =>
      }
    }

    method Everyone(e: Entry, now: int) returns (cs: seq<Entry>)
      ensures Keyed(entries) ==>
        && Distinct(cs)
        && forall c :: c in cs <==> Entered(entries, c) && c.user != e.user && !(c.expiresAt < now)
    {
      cs := [];
      var left := entries.Keys;
      while left != {}
        invariant left <= entries.Keys
        invariant Keyed(entries) ==>
          && Distinct(cs)
          && forall c :: c in cs <==>
               Entered(entries, c) && c.user !in left && c.user != e.user && !(c.expiresAt < now)
        decreases |left|
      {
        var u :| u in left;
        var c := entries[u];
        if c.user != e.user && !(c.expiresAt < now) {
          cs := cs + [c];
        }
        left := left - {u};
      }
    }

    method GetQueueSize() returns (size: nat)
      ensures size == |entries|
    {
      size := |entries|;
    }

    method GetQueueStats() returns (total: nat, counts: map<string, nat>)
      ensures total == |entries| && counts == map f | f in byFilter :: |byFilter[f]|
    {
      total := |entries|;
      counts := map[];
      var left := byFilter.Keys;
      while left != {}
        invariant left <= byFilter.Keys
        invariant counts == map f | f in byFilter && f !in left :: |byFilter[f]|
        decreases |left|
      {
        var f :| f in left;
        counts := counts[f := |byFilter[f]|];
        left := left - {f};
      }
    }

    method FindExpired(now: int) returns (expired: seq<Entry>)
      ensures Keyed(entries) ==>
        Distinct(expired) && forall e :: e in expired <==> Entered(entries, e) && e.expiresAt < now
    {
      expired := [];
      var left := entries.Keys;
      while left != {}
        invariant left <= entries.Keys
        invariant Keyed(entries) ==>
          && Distinct(expired)
          && forall e :: e in expired <==> Entered(entries, e) && e.user !in left && e.expiresAt < now
        decreases |left|
      {
        var u :| u in left;
        if entries[u].expiresAt < now {
          expired := expired + [entries[u]];
        }
        left := left - {u};
      }
    }

    /** Cleaning removes the expired entries one by one, each from the map and its own lists; with
        exact indexes that removes exactly the expired users, from the map and from every list. */
    method CleanupExpired(now: int) returns (ghost expired: seq<Entry>)
      modifies this
      ensures View() == RemoveAll(old(View()), expired)
      ensures Keyed(old(entries)) ==>
        Distinct(expired) && forall e :: e in expired <==> Entered(old(entries), e) && e.expiresAt < now
      ensures Inv(old(View())) ==> View() == Without(old(View()), Expired(old(entries), now)) && Inv(View())
    {
      var found := FindExpired(now);
      expired := found;
      ghost var was := View();
      for i := 0 to |found|
        invariant View() == RemoveAll(was, expired[..i])
      {
        Remove(found[i]);
        assert expired[..i + 1][..i] == expired[..i];
      }
      assert expired[..|expired|] == expired;
      if Inv(was) {
        RemoveAllIsWithout(was, expired);
        UsersAreExpired(was.entries, expired, now);
        WithoutKeeps(was, Expired(was.entries, now));
      }
    }
  }
}
