/** The indexed matching queue: one map of waiting users and three indexes that must answer exactly
    as a scan of that map would. Times are integers. */
module QueueIndex {

  datatype Entry = Entry(user: string, gender: string, province: string, filter: string, joinedAt: int, expiresAt: int)

  type Index = map<string, seq<Entry>>

  datatype Kind = ByGender | ByProvince | ByFilter

  datatype State = State(entries: map<string, Entry>, byGender: Index, byProvince: Index, byFilter: Index)

  function IndexOf(s: State, k: Kind): Index {
    match k case ByGender => s.byGender case ByProvince => s.byProvince case ByFilter => s.byFilter
  }

  // The list an entry belongs to in an index; entries without a province are in no province list.
  function KeyOf(k: Kind, e: Entry): string {
    match k case ByGender => e.gender case ByProvince => e.province case ByFilter => e.filter
  }

  predicate Indexed(k: Kind, e: Entry) {
    k.ByProvince? ==> e.province != ""
  }

  function ListOf(index: Index, key: string): seq<Entry> {
    if key in index then index[key] else []
  }

  function File(k: Kind, index: Index, e: Entry): Index {
    if Indexed(k, e) then index[KeyOf(k, e) := ListOf(index, KeyOf(k, e)) + [e]] else index
  }

  function Drop(list: seq<Entry>, users: set<string>): seq<Entry> {
    if list == [] then []
    else
      var last := list[|list| - 1];
      Drop(list[..|list| - 1], users) + if last.user in users then [] else [last]
  }

  // The source removes an entry from the one list it was filed under.
  function Unfile(k: Kind, index: Index, e: Entry): Index {
    if Indexed(k, e) && KeyOf(k, e) in index then index[KeyOf(k, e) := Drop(index[KeyOf(k, e)], {e.user})] else index
  }

  function DropAll(index: Index, users: set<string>): Index {
    map key | key in index :: Drop(index[key], users)
  }

  // ----- operations -----

  function Enqueue(s: State, e: Entry, maxSize: int): State {
    if |s.entries| >= maxSize then s
    else State(s.entries[e.user := e], File(ByGender, s.byGender, e), File(ByProvince, s.byProvince, e),
               File(ByFilter, s.byFilter, e))
  }

  function RemoveOne(s: State, e: Entry): State {
    State(s.entries - {e.user}, Unfile(ByGender, s.byGender, e), Unfile(ByProvince, s.byProvince, e),
          Unfile(ByFilter, s.byFilter, e))
  }

  function RemoveAll(s: State, list: seq<Entry>): State {
    if list == [] then s else RemoveOne(RemoveAll(s, list[..|list| - 1]), list[|list| - 1])
  }

  function Dequeue(s: State, user: string): State {
    if user !in s.entries then s else RemoveOne(s, s.entries[user])
  }

  function Expired(entries: map<string, Entry>, now: int): set<string> {
    set u | u in entries && entries[u].expiresAt < now
  }

  /** The queue without some users: the map and every list filtered. */
  function Without(s: State, users: set<string>): State {
    State(s.entries - users, DropAll(s.byGender, users), DropAll(s.byProvince, users), DropAll(s.byFilter, users))
  }

  function Opposite(gender: string): string {
    if gender == "male" then "female" else "male"
  }

  predicate Wants(e: Entry, c: Entry) {
    match e.filter
    case "random" => true
    case "male" => c.gender == Opposite(e.gender)
    case "female" => c.gender == Opposite(e.gender)
    case "nearby" => e.province != "" && c.province == e.province
    case _ => false
  }

  predicate Candidate(e: Entry, c: Entry, now: int) {
    Wants(e, c) && c.user != e.user && !(c.expiresAt < now)
  }

  // The candidates one list offers, in its order.
  function OfferedFrom(list: seq<Entry>, e: Entry, now: int): seq<Entry> {
    if list == [] then []
    else
      var last := list[|list| - 1];
      OfferedFrom(list[..|list| - 1], e, now)
      + if last.user != e.user && !(last.expiresAt < now) then [last] else []
  }

  // ----- the invariant -----

  predicate Distinct(list: seq<Entry>) {
    forall i, j | 0 <= i < j < |list| :: list[i].user != list[j].user
  }

  predicate Entered(entries: map<string, Entry>, e: Entry) {
    e.user in entries && entries[e.user] == e
  }

  /** The index holds exactly the matching entries of the map, each once. */
  predicate IndexOk(k: Kind, entries: map<string, Entry>, index: Index) {
    && (forall key | key in index ::
          Distinct(index[key])
          && forall e <- index[key] :: Entered(entries, e) && Indexed(k, e) && KeyOf(k, e) == key)
    && (forall u | u in entries && Indexed(k, entries[u]) :: entries[u] in ListOf(index, KeyOf(k, entries[u])))
  }

  predicate Keyed(entries: map<string, Entry>) {
    forall u | u in entries :: entries[u].user == u
  }

  predicate Inv(s: State) {
    && Keyed(s.entries)
    && IndexOk(ByGender, s.entries, s.byGender)
    && IndexOk(ByProvince, s.entries, s.byProvince)
    && IndexOk(ByFilter, s.entries, s.byFilter)
  }

  // ----- lists -----

  lemma {:induction false} DropMembers(list: seq<Entry>, users: set<string>)
    ensures forall e :: e in Drop(list, users) <==> e in list && e.user !in users
  {
    if list != [] {
      var rest, last := list[..|list| - 1], list[|list| - 1];
      DropMembers(rest, users);
      assert list == rest + [last];
    }
  }

  lemma {:induction false} DropDistinct(list: seq<Entry>, users: set<string>)
    requires Distinct(list)
    ensures Distinct(Drop(list, users))
  {
    if list != [] {
      var rest, last := list[..|list| - 1], list[|list| - 1];
      DropDistinct(rest, users);
      var kept := Drop(rest, users);
      forall i | 0 <= i < |kept| ensures kept[i].user != last.user {
        DropMembers(rest, users);
        assert kept[i] in rest;
      }
    }
  }

  lemma {:induction false} DropNobody(list: seq<Entry>, users: set<string>)
    requires forall e <- list :: e.user !in users
    ensures Drop(list, users) == list
  {
    if list != [] {
      var rest, last := list[..|list| - 1], list[|list| - 1];
      assert list == rest + [last] && last in list;
      forall e <- rest ensures e.user !in users {
        assert e in list;
      }
      DropNobody(rest, users);
    }
  }

  lemma {:induction false} DropTwice(list: seq<Entry>, first: set<string>, second: set<string>)
    ensures Drop(Drop(list, first), second) == Drop(list, first + second)
  {
    if list != [] {
      var rest, last := list[..|list| - 1], list[|list| - 1];
      DropTwice(rest, first, second);
      var kept := Drop(rest, first);
      if last.user in first {
        assert Drop(list, first) == kept;
      } else {
        assert Drop(list, first) == kept + [last];
        assert (kept + [last])[..|kept|] == kept;
      }
    }
  }

  // ----- filing -----

  lemma FileKeeps(k: Kind, entries: map<string, Entry>, index: Index, e: Entry)
    requires IndexOk(k, entries, index) && e.user !in entries
    ensures IndexOk(k, entries[e.user := e], File(k, index, e))
  {
    var t := File(k, index, e);
    forall key | key in t
      ensures Distinct(t[key])
      ensures forall x <- t[key] :: Entered(entries[e.user := e], x) && Indexed(k, x) && KeyOf(k, x) == key
    {
      var was := ListOf(index, key);
      forall i | 0 <= i < |was| ensures was[i].user != e.user {
        assert was[i] in was;
      }
    }
  }

  // A second entry for a user who is already queued leaves the first one in the gender index.
  lemma RefileBreaks(entries: map<string, Entry>, index: Index, e: Entry)
    requires IndexOk(ByGender, entries, index) && e.user in entries && entries[e.user].user == e.user
    ensures !IndexOk(ByGender, entries[e.user := e], File(ByGender, index, e))
  {
    var was := entries[e.user];
    var t: Index := File(ByGender, index, e);
    assert was in ListOf(index, was.gender);
    if was.gender == e.gender {
      var i :| 0 <= i < |index[e.gender]| && index[e.gender][i] == was;
      assert t[e.gender][i].user == t[e.gender][|index[e.gender]|].user;
    } else {
      assert was in t[was.gender] && !Entered(entries[e.user := e], was);
    }
  }

  lemma UnfiledElsewhere(k: Kind, entries: map<string, Entry>, index: Index, e: Entry, key: string)
    requires IndexOk(k, entries, index) && Entered(entries, e) && key in index
    requires !(Indexed(k, e) && key == KeyOf(k, e))
    ensures Drop(index[key], {e.user}) == index[key]
  {
    forall x <- index[key] ensures x.user !in {e.user} {
      assert Entered(entries, x);
    }
    DropNobody(index[key], {e.user});
  }

  lemma UnfileIsDrop(k: Kind, entries: map<string, Entry>, index: Index, e: Entry)
    requires IndexOk(k, entries, index) && Entered(entries, e)
    ensures Unfile(k, index, e) == DropAll(index, {e.user})
  {
    forall key | key in index && !(Indexed(k, e) && key == KeyOf(k, e))
      ensures Drop(index[key], {e.user}) == index[key]
    {
      UnfiledElsewhere(k, entries, index, e, key);
    }
    OneListIsAll(k, index, e);
  }

  lemma OneListIsAll(k: Kind, index: Index, e: Entry)
    requires forall key | key in index && !(Indexed(k, e) && key == KeyOf(k, e)) ::
      Drop(index[key], {e.user}) == index[key]
    ensures Unfile(k, index, e) == DropAll(index, {e.user})
  {
  }

  lemma DropAllKeeps(k: Kind, entries: map<string, Entry>, index: Index, users: set<string>)
    requires IndexOk(k, entries, index) && Keyed(entries)
    ensures IndexOk(k, entries - users, DropAll(index, users))
  {
    forall key | key in index
      ensures Distinct(Drop(index[key], users))
      ensures forall e :: e in Drop(index[key], users) <==> e in index[key] && e.user !in users
    {
      DropMembers(index[key], users);
      DropDistinct(index[key], users);
    }
    forall u | u in entries - users && Indexed(k, entries[u])
      ensures entries[u] in ListOf(DropAll(index, users), KeyOf(k, entries[u]))
    {
      assert entries[u] in index[KeyOf(k, entries[u])];
      assert Entered(entries, entries[u]);
    }
  }

  // ----- operations keep the indexes -----

  lemma NewUserKeeps(s: State, e: Entry, maxSize: int)
    requires Inv(s) && |s.entries| < maxSize && e.user !in s.entries
    ensures Inv(Enqueue(s, e, maxSize))
  {
    FileKeeps(ByGender, s.entries, s.byGender, e);
    FileKeeps(ByProvince, s.entries, s.byProvince, e);
    FileKeeps(ByFilter, s.entries, s.byFilter, e);
  }

  /** With room left, adding a user keeps the indexes exactly when that user was not queued yet. */
  lemma EnqueueKeepsExactlyWhen(s: State, e: Entry, maxSize: int)
    requires Inv(s) && |s.entries| < maxSize
    ensures Inv(Enqueue(s, e, maxSize)) <==> e.user !in s.entries
  {
    if e.user in s.entries {
      RefileBreaks(s.entries, s.byGender, e);
    } else {
      NewUserKeeps(s, e, maxSize);
    }
  }

  lemma WithoutKeeps(s: State, users: set<string>)
    requires Inv(s)
    ensures Inv(Without(s, users))
  {
    DropAllKeeps(ByGender, s.entries, s.byGender, users);
    DropAllKeeps(ByProvince, s.entries, s.byProvince, users);
    DropAllKeeps(ByFilter, s.entries, s.byFilter, users);
  }

  /** Touching one list per index removes the user as thoroughly as filtering every list. */
  lemma DequeueIsRemoval(s: State, user: string)
    requires Inv(s)
    ensures user in s.entries ==> Dequeue(s, user) == Without(s, {user})
    ensures Inv(Dequeue(s, user))
  {
    if user in s.entries {
      UnfileIsDrop(ByGender, s.entries, s.byGender, s.entries[user]);
      UnfileIsDrop(ByProvince, s.entries, s.byProvince, s.entries[user]);
      UnfileIsDrop(ByFilter, s.entries, s.byFilter, s.entries[user]);
      WithoutKeeps(s, {user});
    }
  }

  lemma DropAllTwice(index: Index, first: set<string>, second: set<string>)
    ensures DropAll(DropAll(index, first), second) == DropAll(index, first + second)
  {
    forall key | key in index ensures Drop(Drop(index[key], first), second) == Drop(index[key], first + second) {
      DropTwice(index[key], first, second);
    }
  }

  /** Removing users in several goes is removing them at once. */
  lemma WithoutTwice(s: State, first: set<string>, second: set<string>)
    ensures Without(Without(s, first), second) == Without(s, first + second)
  {
    DropAllTwice(s.byGender, first, second);
    DropAllTwice(s.byProvince, first, second);
    DropAllTwice(s.byFilter, first, second);
    assert s.entries - first - second == s.entries - (first + second);
  }

  lemma WithoutNobody(s: State)
    ensures Without(s, {}) == s
  {
    forall k: Kind, key | key in IndexOf(s, k) ensures Drop(IndexOf(s, k)[key], {}) == IndexOf(s, k)[key] {
      DropNobody(IndexOf(s, k)[key], {});
    }
    assert DropAll(IndexOf(s, ByGender), {}) == s.byGender;
    assert DropAll(IndexOf(s, ByProvince), {}) == s.byProvince;
    assert DropAll(IndexOf(s, ByFilter), {}) == s.byFilter;
  }

  /** Removing one more entry found in the queue as it was. */
  lemma RemoveNext(s: State, gone: set<string>, e: Entry)
    requires Inv(s) && Entered(s.entries, e) && e.user !in gone
    ensures RemoveOne(Without(s, gone), e) == Without(s, gone + {e.user})
  {
    WithoutKeeps(s, gone);
    DequeueIsRemoval(Without(s, gone), e.user);
    WithoutTwice(s, gone, {e.user});
  }

  // ----- the index answers what a scan answers -----

  /** A list of an index holds exactly the queued users with that key. */
  lemma ListIsScan(s: State, k: Kind, key: string, c: Entry)
    requires Inv(s)
    ensures c in ListOf(IndexOf(s, k), key) <==> Entered(s.entries, c) && Indexed(k, c) && KeyOf(k, c) == key
  {
    assert IndexOk(k, s.entries, IndexOf(s, k));
  }

  /** A search for one gender yields only that gender exactly when a man asks for women or someone
      else asks for men: the lookup uses the searcher's own gender, not the requested one. */
  lemma CandidatesHaveRequestedGenderExactlyWhen(e: Entry)
    requires e.filter in {"male", "female"}
    ensures (forall c: Entry :: Wants(e, c) ==> c.gender == e.filter)
       <==> (e.filter == "female" <==> e.gender == "male")
  {
    var other := Entry("", Opposite(e.gender), "", "", 0, 0);
    assert Wants(e, other);
  }

  lemma {:induction false} OfferedMembers(list: seq<Entry>, e: Entry, now: int)
    ensures forall c :: c in OfferedFrom(list, e, now) <==> c in list && c.user != e.user && !(c.expiresAt < now)
    ensures Distinct(list) ==> Distinct(OfferedFrom(list, e, now))
  {
    if list != [] {
      var rest, last := list[..|list| - 1], list[|list| - 1];
      OfferedMembers(rest, e, now);
      assert list == rest + [last];
      var offered := OfferedFrom(rest, e, now);
      assert forall i | 0 <= i < |offered| :: offered[i] in rest;
      if Distinct(list) {
        assert forall i | 0 <= i < |rest| :: list[i].user != list[|rest|].user;
        assert Distinct(rest);
      }
    }
  }

  // ----- statistics -----

  function SumOver(index: Index, keys: seq<string>): nat
    requires forall key <- keys :: key in index
  {
    if keys == [] then 0 else SumOver(index, keys[..|keys| - 1]) + |index[keys[|keys| - 1]]|
  }

  function WithFilter(entries: map<string, Entry>, filters: seq<string>): set<string> {
    set u | u in entries && entries[u].filter in filters
  }

  function UsersOf(list: seq<Entry>): set<string> {
    set e | e in list :: e.user
  }

  lemma {:induction false} DistinctSize(list: seq<Entry>)
    requires Distinct(list)
    ensures |UsersOf(list)| == |list|
  {
    if list == [] {
      assert UsersOf(list) == {};
    } else {
      var rest, last := list[..|list| - 1], list[|list| - 1];
      DistinctSize(rest);
      assert list == rest + [last];
      assert UsersOf(list) == UsersOf(rest) + {last.user};
    }
  }

  lemma OneFilter(s: State, f: string)
    requires Inv(s) && f in s.byFilter
    ensures |s.byFilter[f]| == |WithFilter(s.entries, [f])|
  {
    var list := s.byFilter[f];
    DistinctSize(list);
    forall u | u in WithFilter(s.entries, [f]) ensures u in UsersOf(list) {
      ListIsScan(s, ByFilter, f, s.entries[u]);
    }
    assert UsersOf(list) == WithFilter(s.entries, [f]);
  }

  lemma {:induction false} FilterSums(entries: map<string, Entry>, index: Index, keys: seq<string>)
    requires forall key <- keys :: key in index && |index[key]| == |WithFilter(entries, [key])|
    requires forall i, j | 0 <= i < j < |keys| :: keys[i] != keys[j]
    ensures SumOver(index, keys) == |WithFilter(entries, keys)|
  {
    if keys == [] {
      assert WithFilter(entries, keys) == {};
    } else {
      var rest, last := keys[..|keys| - 1], keys[|keys| - 1];
      FilterSums(entries, index, rest);
      assert keys == rest + [last] && last !in rest;
      assert WithFilter(entries, keys) == WithFilter(entries, rest) + WithFilter(entries, [last]);
      assert WithFilter(entries, rest) !! WithFilter(entries, [last]);
    }
  }

  /** In whatever order the filters are visited, their counts add up to the number of users. */
  lemma StatsAddUp(s: State, keys: seq<string>)
    requires Inv(s) && forall key :: key in keys <==> key in s.byFilter
    requires forall i, j | 0 <= i < j < |keys| :: keys[i] != keys[j]
    ensures SumOver(s.byFilter, keys) == |s.entries|
  {
    forall key <- keys ensures |s.byFilter[key]| == |WithFilter(s.entries, [key])| {
      OneFilter(s, key);
    }
    FilterSums(s.entries, s.byFilter, keys);
    EveryFilterListed(s, keys);
  }

  lemma EveryFilterListed(s: State, keys: seq<string>)
    requires Inv(s) && forall key :: key in keys <==> key in s.byFilter
    ensures |WithFilter(s.entries, keys)| == |s.entries|
  {
    forall u | u in s.entries ensures s.entries[u].filter in s.byFilter {
      ListIsScan(s, ByFilter, s.entries[u].filter, s.entries[u]);
    }
    assert WithFilter(s.entries, keys) == s.entries.Keys;
    assert |s.entries.Keys| == |s.entries|;
  }

  /** Removing entries one by one removes their users everywhere. */
  lemma {:induction false} RemoveAllIsWithout(s: State, list: seq<Entry>)
    requires Inv(s) && Distinct(list) && forall e <- list :: Entered(s.entries, e)
    ensures RemoveAll(s, list) == Without(s, UsersOf(list))
  {
    if list == [] {
      WithoutNobody(s);
      assert UsersOf(list) == {};
    } else {
      var rest, last := list[..|list| - 1], list[|list| - 1];
      RemoveAllIsWithout(s, rest);
      assert list == rest + [last];
      assert UsersOf(list) == UsersOf(rest) + {last.user};
      RemoveNext(s, UsersOf(rest), last);
    }
  }

  lemma UsersAreExpired(entries: map<string, Entry>, list: seq<Entry>, now: int)
    requires Keyed(entries) && forall e :: e in list <==> Entered(entries, e) && e.expiresAt < now
    ensures UsersOf(list) == Expired(entries, now)
  {
    forall u | u in Expired(entries, now) ensures u in UsersOf(list) {
      assert Entered(entries, entries[u]);
    }
  }

  // ----- runs -----

  datatype Event = Join(entry: Entry) | Leave(user: string) | Clean(now: int)

  function Step(s: State, ev: Event, maxSize: int): State {
    match ev
    case Join(e) => Enqueue(s, e, maxSize)
    case Leave(u) => Dequeue(s, u)
    case Clean(now) => Without(s, Expired(s.entries, now))
  }

  function Run(events: seq<Event>, maxSize: int): State {
    if events == [] then State(map[], map[], map[], map[])
    else Step(Run(events[..|events| - 1], maxSize), events[|events| - 1], maxSize)
  }

  // Nobody joins who is already queued.
  predicate FreshJoins(events: seq<Event>, maxSize: int) {
    forall i | 0 <= i < |events| && events[i].Join? :: events[i].entry.user !in Run(events[..i], maxSize).entries
  }

  lemma StepSize(s: State, ev: Event, maxSize: int)
    ensures |Step(s, ev, maxSize).entries| <= |s.entries| || |Step(s, ev, maxSize).entries| <= maxSize
  {
    var t := Step(s, ev, maxSize).entries;
    if ev.Join? {
      if |s.entries| < maxSize {
        assert t.Keys == s.entries.Keys + {ev.entry.user};
        assert |t.Keys| <= |s.entries.Keys| + 1;
        assert |t.Keys| == |t| && |s.entries.Keys| == |s.entries|;
      }
    } else {
      SmallerSet(t.Keys, s.entries.Keys);
      assert |t.Keys| == |t| && |s.entries.Keys| == |s.entries|;
    }
  }

  lemma {:induction false} SmallerSet(a: set<string>, b: set<string>)
    requires a <= b
    ensures |a| <= |b|
  {
    assert b == a + (b - a);
  }

  /** Over every run in which nobody joins twice at once, the indexes agree with the map and the
      queue never holds more than its limit. */
  lemma {:induction false} RunKeepsIndexes(events: seq<Event>, maxSize: int)
    requires FreshJoins(events, maxSize)
    ensures Inv(Run(events, maxSize))
    ensures |Run(events, maxSize).entries| <= if maxSize < 0 then 0 else maxSize
  {
    if events != [] {
      var before, ev := events[..|events| - 1], events[|events| - 1];
      forall i | 0 <= i < |before| ensures before[..i] == events[..i] && before[i] == events[i] {
      }
      RunKeepsIndexes(before, maxSize);
      var s := Run(before, maxSize);
      StepSize(s, ev, maxSize);
      match ev
      case Join(e) =>
        if |s.entries| < maxSize { EnqueueKeepsExactlyWhen(s, e, maxSize); }
      case Leave(u) => DequeueIsRemoval(s, u);
      case Clean(now) => WithoutKeeps(s, Expired(s.entries, now));
    }
  }

  // ----- what each operation does -----

  /** With room left, the entry is stored under its user and put at the end of its list in each index;
      a full queue takes nothing. */
  lemma EnqueueStores(s: State, e: Entry, maxSize: int)
    ensures |s.entries| >= maxSize ==> Enqueue(s, e, maxSize) == s
    ensures |s.entries| < maxSize ==>
      var t := Enqueue(s, e, maxSize);
      && t.entries == s.entries[e.user := e]
      && (forall k: Kind, key :: ListOf(IndexOf(t, k), key) ==
            if key == KeyOf(k, e) && (k == ByProvince ==> key != "") then ListOf(IndexOf(s, k), key) + [e]
            else ListOf(IndexOf(s, k), key))
  {
  }

  /** Who is offered: anyone to a random search, the opposite of one's own gender to a search for either
      gender, people of one's own province to a nearby search, and nobody to any other. */
  lemma WantsExactlyWhen(e: Entry, c: Entry)
    ensures Wants(e, c) <==>
      || e.filter == "random"
      || (e.filter in {"male", "female"} && c.gender == if e.gender == "male" then "female" else "male")
      || (e.filter == "nearby" && e.province != "" && c.province == e.province)
  {
  }

  /** Lists are filtered piece by piece, so what is left keeps its order. */
  lemma {:induction false} DroppingKeepsOrder(a: seq<Entry>, b: seq<Entry>, users: set<string>)
    ensures Drop(a + b, users) == Drop(a, users) + Drop(b, users)
  {
    if b == [] {
      assert a + b == a;
    } else {
      DroppingKeepsOrder(a, b[..|b| - 1], users);
      assert (a + b)[..|a + b| - 1] == a + b[..|b| - 1];
    }
  }

  /** So are the offers of a list. */
  lemma {:induction false} OfferingKeepsOrder(a: seq<Entry>, b: seq<Entry>, e: Entry, now: int)
    ensures OfferedFrom(a + b, e, now) == OfferedFrom(a, e, now) + OfferedFrom(b, e, now)
  {
    if b == [] {
      assert a + b == a;
    } else {
      OfferingKeepsOrder(a, b[..|b| - 1], e, now);
      assert (a + b)[..|a + b| - 1] == a + b[..|b| - 1];
    }
  }

  /** In a run: a newcomer is queued while there is room, whoever leaves is gone and nobody else, and
      cleaning removes exactly those whose time is over. */
  lemma StepIs(s: State, ev: Event, maxSize: int)
    requires Inv(s)
    ensures var t := Step(s, ev, maxSize).entries;
      match ev
      case Join(e) => t == if |s.entries| < maxSize then s.entries[e.user := e] else s.entries
      case Leave(u) => t == s.entries - {u}
      case Clean(now) => forall u :: u in t <==> u in s.entries && s.entries[u].expiresAt >= now
  {
  }
}
