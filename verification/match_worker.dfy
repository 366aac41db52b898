/** One tick of the match worker: read the waiting lists, refund what waited too long, pair
    the rest greedily in queue order, and open the chats. */
module MatchWorker {
  import opened ChatStore
  import opened ChatSteps

  // ----- compatibility -----

  // Whether two filters, neither of them Random, ask for each other. The order matters.
  predicate Complementary(f: Label, g: Label) {
    match f
    case Male => g == Female
    case Female => g == Male
    case Nearby => g == NearbyMale || g == NearbyFemale
    case NearbyMale => g == NearbyFemale
    case NearbyFemale => g == NearbyMale
    case _ => false
  }

  predicate Compatible(a: QueueEntry, b: QueueEntry) {
    if a.user == b.user then false
    else if a.filter == Random && b.filter == Random then true
    else if a.filter == Random then a.gender == b.filter
    else if b.filter == Random then b.gender == a.filter
    else Complementary(a.filter, b.filter)
  }

  /** Who is paired: two random searches; a random search with a search for the random searcher's
      gender; and man with woman, near or far, and nearby followed by either nearby gender. */
  lemma CompatibleExactlyWhen(a: QueueEntry, b: QueueEntry)
    ensures Compatible(a, b) <==>
      && a.user != b.user
      && (|| (a.filter == Random && b.filter == Random)
          || (a.filter == Random && b.filter == a.gender)
          || (b.filter == Random && a.filter == b.gender)
          || (a.filter, b.filter) in {(Male, Female), (Female, Male), (NearbyMale, NearbyFemale),
                                      (NearbyFemale, NearbyMale), (Nearby, NearbyMale), (Nearby, NearbyFemale)})
  {
  }

  // Two searches that suit each other whichever is read first.
  predicate Suit(a: QueueEntry, b: QueueEntry) {
    || (a.filter == Random && b.filter in {Random, a.gender})
    || (b.filter == Random && a.filter == b.gender)
    || (a.filter, b.filter) in {(Male, Female), (Female, Male), (NearbyMale, NearbyFemale), (NearbyFemale, NearbyMale)}
  }

  /** The order of two searches matters only between Nearby and a nearby search for a gender. */
  lemma CompatibleIsSymmetricExcept(a: QueueEntry, b: QueueEntry)
    ensures Compatible(a, b) != Compatible(b, a)
       <==> a.user != b.user
            && ((a.filter == Nearby && b.filter in {NearbyMale, NearbyFemale})
                || (b.filter == Nearby && a.filter in {NearbyMale, NearbyFemale}))
  {
  }

  // So a nearby search is paired only with a nearby search for a gender that was read after it, and
  // two nearby searches never meet.
  lemma NearbyMeetsExactlyWhen(a: QueueEntry, b: QueueEntry)
    requires a.filter == Nearby && a.user != b.user && Nearby !in {a.gender, b.gender}
    ensures Compatible(a, b) <==> b.filter in {NearbyMale, NearbyFemale}
    ensures !Compatible(b, a)
  {
  }

  // The genders a profile can have.
  predicate IsGender(g: Label) {
    g in {Blank, Male, Female}
  }

  // What a search for one gender, near or far, asks of the partner.
  predicate Wants(a: QueueEntry, b: QueueEntry) {
    match a.filter
    case Male => b.gender == Male
    case NearbyMale => b.gender == Male
    case Female => b.gender == Female
    case NearbyFemale => b.gender == Female
    case _ => true
  }

  // Every pair the worker makes of these two filters gives both members what they asked for.
  ghost predicate WishesMet(f: Label, g: Label) {
    forall a: QueueEntry, b: QueueEntry
      | a.filter == f && b.filter == g && IsGender(a.gender) && IsGender(b.gender) && Compatible(a, b) ::
      Wants(a, b) && Wants(b, a)
  }

  /** Two filters always give both searchers what they asked for exactly when one of them is random
      or they are not complementary: complementary filters are paired without looking at genders. */
  lemma GenderFiltersRespectedExactlyWhen(f: Label, g: Label)
    ensures WishesMet(f, g) <==> f == Random || g == Random || !Complementary(f, g)
  {
    if f != Random && g != Random && Complementary(f, g) {
      var a, b := QueueEntry(1, Blank, f, 0, 0), QueueEntry(2, Blank, g, 0, 0);
      assert Compatible(a, b) && !(Wants(a, b) && Wants(b, a));
    }
  }

  // Two men, one asking for a man and one for a woman, are paired.
  lemma GenderFilterIgnored() returns (a: QueueEntry, b: QueueEntry)
    ensures Compatible(a, b) && a.filter == Female && b.gender != Female
  {
    a := QueueEntry(1, Male, Female, 0, 2);
    b := QueueEntry(2, Male, Male, 0, 2);
  }

  // So are two women who asked for a man and for a woman nearby, at the higher price.
  lemma NearbyGenderFilterIgnored() returns (a: QueueEntry, b: QueueEntry)
    ensures Compatible(a, b) && a.filter == NearbyMale && b.gender != Male && a.cost == NEARBY_COST
  {
    a := QueueEntry(1, Female, NearbyMale, 0, 4);
    b := QueueEntry(2, Female, NearbyFemale, 0, 4);
  }

  // ----- reading the queue -----

  function All(s: Store, keys: seq<Label>): seq<QueueEntry> {
    if keys == [] then [] else Queue(s, keys[0]) + All(s, keys[1..])
  }

  function Users(es: seq<QueueEntry>): set<UserId> {
    if es == [] then {} else {es[0].user} + Users(es[1..])
  }

  // The first entry of every user not seen before.
  function Dedup(es: seq<QueueEntry>, seen: set<UserId>): seq<QueueEntry> {
    if es == [] then []
    else if es[0].user in seen then Dedup(es[1..], seen)
    else [es[0]] + Dedup(es[1..], seen + {es[0].user})
  }

  // The entries one tick works on; keys is the order in which the lists are read.
  function Snapshot(s: Store, keys: seq<Label>): seq<QueueEntry> {
    Dedup(All(s, keys), {})
  }

  ghost predicate Unrepeated(es: seq<QueueEntry>) {
    forall i, j | 0 <= i < j < |es| :: es[i].user != es[j].user
  }

  // Different users, all still waiting.
  ghost predicate Queued(s: Store, es: seq<QueueEntry>) {
    Unrepeated(es) && forall i | 0 <= i < |es| :: Listed(s, es[i].filter, es[i])
  }

  lemma {:induction false} UsersOf(es: seq<QueueEntry>, u: UserId)
    ensures u in Users(es) <==> exists i :: 0 <= i < |es| && es[i].user == u
  {
    if es != [] {
      UsersOf(es[1..], u);
      if u in Users(es[1..]) {
        var i :| 0 <= i < |es[1..]| && es[1..][i].user == u;
        assert es[i + 1].user == u;
      }
    }
  }

  lemma {:induction false} DedupUsers(es: seq<QueueEntry>, seen: set<UserId>)
    ensures Users(Dedup(es, seen)) == Users(es) - seen
  {
    if es != [] {
      if es[0].user in seen {
        DedupUsers(es[1..], seen);
      } else {
        DedupUsers(es[1..], seen + {es[0].user});
        assert Dedup(es, seen)[1..] == Dedup(es[1..], seen + {es[0].user});
      }
    }
  }

  lemma {:induction false} DedupOnePerUser(es: seq<QueueEntry>, seen: set<UserId>)
    ensures Unrepeated(Dedup(es, seen))
    ensures forall i | 0 <= i < |Dedup(es, seen)| :: Dedup(es, seen)[i].user !in seen
  {
    if es != [] {
      DedupOnePerUser(es[1..], if es[0].user in seen then seen else seen + {es[0].user});
    }
  }

  lemma {:induction false} DedupInvents(es: seq<QueueEntry>, seen: set<UserId>, e: QueueEntry)
    requires e in Dedup(es, seen)
    ensures e in es
  {
    if es[0].user in seen {
      DedupInvents(es[1..], seen, e);
    } else if e != es[0] {
      assert e in Dedup(es[1..], seen + {es[0].user});
      DedupInvents(es[1..], seen + {es[0].user}, e);
    }
  }

  lemma {:induction false} AllReadsQueues(s: Store, keys: seq<Label>, e: QueueEntry)
    ensures e in All(s, keys) <==> exists f :: f in keys && Listed(s, f, e)
  {
    if keys != [] {
      AllReadsQueues(s, keys[1..], e);
      if e in Queue(s, keys[0]) {
        assert Listed(s, keys[0], e);
      } else if e in All(s, keys[1..]) {
        var f :| f in keys[1..] && Listed(s, f, e);
        assert f in keys;
      }
      if f :| f in keys && Listed(s, f, e) {
        assert f == keys[0] || f in keys[1..];
      }
    }
  }

  /** The snapshot holds only waiting entries, one per user. */
  lemma SnapshotIsQueued(s: Store, keys: seq<Label>)
    requires QueueInv(s)
    ensures Queued(s, Snapshot(s, keys))
  {
    var es := Snapshot(s, keys);
    DedupOnePerUser(All(s, keys), {});
    forall i | 0 <= i < |es| ensures Listed(s, es[i].filter, es[i]) {
      DedupInvents(All(s, keys), {}, es[i]);
      AllReadsQueues(s, keys, es[i]);
    }
  }

  /** It misses nobody waiting in a list that was read. */
  lemma SnapshotIsComplete(s: Store, keys: seq<Label>, e: QueueEntry)
    requires QueueInv(s) && e.filter in keys && Listed(s, e.filter, e)
    ensures e in Snapshot(s, keys)
  {
    var es := Snapshot(s, keys);
    AllReadsQueues(s, keys, e);
    UsersOf(All(s, keys), e.user);
    DedupUsers(All(s, keys), {});
    UsersOf(es, e.user);
    var i :| 0 <= i < |es| && es[i].user == e.user;
    SnapshotIsQueued(s, keys);
    SameUserSameEntry(s, es[i], e);
  }

  lemma SameUserSameEntry(s: Store, d: QueueEntry, e: QueueEntry)
    requires QueueInv(s) && Listed(s, d.filter, d) && Listed(s, e.filter, e) && d.user == e.user
    ensures d == e
  {
    HeldBy(s, d);
    HeldBy(s, e);
    OnceIsUnique(Queue(s, d.filter), d, e);
  }

  lemma {:induction false} OnceIsUnique(q: seq<QueueEntry>, d: QueueEntry, e: QueueEntry)
    requires d in q && e in q && d.user == e.user && Occurs(q, d.user) == 1
    ensures d == e
  {
    assert q == [q[0]] + q[1..];
    if q[0] == d && e in q[1..] {
      MemberOccurs(q[1..], e);
    } else if q[0] == e && d in q[1..] {
      MemberOccurs(q[1..], d);
    } else if q[0] != d && q[0] != e {
      if q[0].user == d.user {
        MemberOccurs(q[1..], d);
      } else {
        OnceIsUnique(q[1..], d, e);
      }
    }
  }

  // ----- expiring -----

  predicate Stale(e: QueueEntry, now: int) {
    now - e.joinedAt >= SEARCH_TIMEOUT
  }

  function Fresh(es: seq<QueueEntry>, now: int): seq<QueueEntry> {
    if es == [] then []
    else if Stale(es[0], now) then Fresh(es[1..], now)
    else [es[0]] + Fresh(es[1..], now)
  }

  function ExpireAll(s: Store, es: seq<QueueEntry>, now: int): Store
    decreases |es|
  {
    if es == [] then s
    else ExpireAll(if Stale(es[0], now) then Expire(s, es[0]) else s, es[1..], now)
  }

  lemma {:induction false} FreshMembers(es: seq<QueueEntry>, now: int)
    ensures forall e :: e in Fresh(es, now) <==> e in es && !Stale(e, now)
    ensures Unrepeated(es) ==> Unrepeated(Fresh(es, now))
  {
    if es != [] {
      FreshMembers(es[1..], now);
      assert es == [es[0]] + es[1..];
      var r := Fresh(es[1..], now);
      assert forall i | 0 <= i < |r| :: r[i] in r;
    }
  }

  // The positions, from this one on, of the entries still in time.
  function Places(es: seq<QueueEntry>, now: int, from: nat): (at: seq<nat>)
    requires from <= |es|
    ensures forall i | 0 <= i < |at| :: from <= at[i] < |es|
    decreases |es| - from
  {
    if from == |es| then []
    else (if Stale(es[from], now) then [] else [from]) + Places(es, now, from + 1)
  }

  predicate Increasing(at: seq<nat>) {
    forall i, j | 0 <= i < j < |at| :: at[i] < at[j]
  }

  lemma IncreasingFrom(first: nat, rest: seq<nat>)
    requires Increasing(rest) && forall i | 0 <= i < |rest| :: first < rest[i]
    ensures Increasing([first] + rest)
  {
  }

  lemma {:induction false} PlacesInOrder(es: seq<QueueEntry>, now: int, from: nat)
    requires from <= |es|
    ensures forall c :: c in Places(es, now, from) <==> from <= c < |es| && !Stale(es[c], now)
    ensures Increasing(Places(es, now, from))
    decreases |es| - from
  {
    if from < |es| {
      PlacesInOrder(es, now, from + 1);
      IncreasingFrom(from, Places(es, now, from + 1));
      assert Stale(es[from], now) ==> Places(es, now, from) == Places(es, now, from + 1);
    }
  }

  lemma FreshFrom(es: seq<QueueEntry>, now: int, from: nat)
    requires from < |es|
    ensures Fresh(es[from..], now) == (if Stale(es[from], now) then [] else [es[from]]) + Fresh(es[from + 1..], now)
  {
    assert es[from..][0] == es[from] && es[from..][1..] == es[from + 1..];
  }

  lemma {:induction false} FreshAtPlaces(es: seq<QueueEntry>, now: int, from: nat)
    requires from <= |es|
    ensures |Fresh(es[from..], now)| == |Places(es, now, from)|
    ensures var at := Places(es, now, from);
      forall i | 0 <= i < |at| :: Fresh(es[from..], now)[i] == es[at[i]]
    decreases |es| - from
  {
    if from < |es| {
      FreshAtPlaces(es, now, from + 1);
      FreshFrom(es, now, from);
    }
  }

  /** What is kept is the snapshot without its stale entries, each in its place in the old order. */
  lemma FreshKeepsOrder(es: seq<QueueEntry>, now: int) returns (at: seq<nat>)
    ensures |at| == |Fresh(es, now)| && Increasing(at)
    ensures forall i | 0 <= i < |at| :: at[i] < |es| && Fresh(es, now)[i] == es[at[i]]
    ensures forall c: nat | c < |es| :: c in at <==> !Stale(es[c], now)
  {
    at := Places(es, now, 0);
    PlacesInOrder(es, now, 0);
    FreshAtPlaces(es, now, 0);
    assert es[0..] == es;
  }

  lemma {:induction false} ExpireAllKeeps(s: Store, es: seq<QueueEntry>, now: int)
    requires Good(s) && Queued(s, es)
    ensures Keeps(s, ExpireAll(s, es, now))
    ensures forall x: QueueEntry | Listed(s, x.filter, x) && (x.user !in Users(es) || !Stale(x, now)) ::
              Listed(ExpireAll(s, es, now), x.filter, x)
    decreases |es|
  {
    if es != [] {
      var e := es[0];
      var t := if Stale(e, now) then Expire(s, e) else s;
      if Stale(e, now) {
        ExpireKeeps(s, e);
      }
      forall i | 0 <= i < |es[1..]| ensures Listed(t, es[1..][i].filter, es[1..][i]) {
        assert Listed(s, es[i + 1].filter, es[i + 1]);
      }
      ExpireAllKeeps(t, es[1..], now);
      forall x: QueueEntry | Listed(s, x.filter, x) && (x.user !in Users(es) || !Stale(x, now))
        ensures Listed(ExpireAll(s, es, now), x.filter, x)
      {
        if x.user == e.user {
          SameUserSameEntry(s, x, e);
        }
        assert Listed(t, x.filter, x);
        assert x.user !in Users(es) ==> x.user !in Users(es[1..]);
      }
    }
  }

  // ----- pairing -----

  // The first free successor of i that i is compatible with, |es| if there is none.
  function Successor(es: seq<QueueEntry>, taken: set<UserId>, i: nat, j: nat): (r: nat)
    requires i < j <= |es|
    ensures j <= r <= |es|
    decreases |es| - j
  {
    if j == |es| then j
    else if es[j].user !in taken && Compatible(es[i], es[j]) then j
    else Successor(es, taken, i, j + 1)
  }

  // The pairs of one scan from position i on, users in taken being spoken for.
  function Greedy(es: seq<QueueEntry>, taken: set<UserId>, i: nat): (ps: seq<(nat, nat)>)
    requires i <= |es|
    ensures forall t | 0 <= t < |ps| :: i <= ps[t].0 < ps[t].1 < |es|
    decreases |es| - i
  {
    if i == |es| then []
    else if es[i].user in taken then Greedy(es, taken, i + 1)
    else
      var j := Successor(es, taken, i, i + 1);
      if j < |es| then
        var rest := Greedy(es, taken + {es[i].user, es[j].user}, i + 1);
        [(i, j)] + rest
      else Greedy(es, taken, i + 1)
  }

  predicate InPair(p: (nat, nat), c: nat) {
    p.0 == c || p.1 == c
  }

  // Position c belongs to one of the first t pairs.
  ghost predicate PairedBefore(ps: seq<(nat, nat)>, t: nat, c: nat)
    requires t <= |ps|
  {
    exists u | 0 <= u < t :: InPair(ps[u], c)
  }

  // Each pair stands in queue order and is compatible.
  ghost predicate PairsFit(es: seq<QueueEntry>, ps: seq<(nat, nat)>) {
    forall t | 0 <= t < |ps| :: ps[t].0 < ps[t].1 < |es| && Compatible(es[ps[t].0], es[ps[t].1])
  }

  ghost predicate PairsDisjoint(ps: seq<(nat, nat)>) {
    forall t, u, c: nat | 0 <= t < u < |ps| :: !(InPair(ps[t], c) && InPair(ps[u], c))
  }

  // Between the members of pair t, everyone the first could have had was taken earlier.
  ghost predicate PairsEarliest(es: seq<QueueEntry>, taken: set<UserId>, ps: seq<(nat, nat)>)
    requires PairsFit(es, ps)
  {
    forall t, c | 0 <= t < |ps| && ps[t].0 < c < ps[t].1 && Compatible(es[ps[t].0], es[c]) ::
      es[c].user in taken || PairedBefore(ps, t, c)
  }

  // No compatible pair of positions from i on is left over.
  ghost predicate PairsMaximal(es: seq<QueueEntry>, taken: set<UserId>, ps: seq<(nat, nat)>, i: nat) {
    forall c, d | i <= c < d < |es| && Compatible(es[c], es[d]) ::
      || es[c].user in taken || es[d].user in taken
      || PairedBefore(ps, |ps|, c) || PairedBefore(ps, |ps|, d)
  }

  lemma {:induction false} SuccessorIsFirst(es: seq<QueueEntry>, taken: set<UserId>, i: nat, j: nat)
    requires i < j <= |es|
    ensures var r := Successor(es, taken, i, j);
      && j <= r <= |es|
      && (r < |es| ==> es[r].user !in taken && Compatible(es[i], es[r]))
      && (forall c | j <= c < r :: es[c].user in taken || !Compatible(es[i], es[c]))
    decreases |es| - j
  {
    if j < |es| && !(es[j].user !in taken && Compatible(es[i], es[j])) {
      SuccessorIsFirst(es, taken, i, j + 1);
    }
  }

  lemma {:induction false} GreedyFits(es: seq<QueueEntry>, taken: set<UserId>, i: nat)
    requires i <= |es|
    ensures PairsFit(es, Greedy(es, taken, i))
    decreases |es| - i
  {
    if i < |es| {
      if es[i].user in taken {
        GreedyFits(es, taken, i + 1);
      } else {
        var j := Successor(es, taken, i, i + 1);
        SuccessorIsFirst(es, taken, i, i + 1);
        GreedyFits(es, if j < |es| then taken + {es[i].user, es[j].user} else taken, i + 1);
      }
    }
  }

  lemma {:induction false} GreedyUsesFree(es: seq<QueueEntry>, taken: set<UserId>, i: nat, t: nat, c: nat)
    requires i <= |es| && t < |Greedy(es, taken, i)| && InPair(Greedy(es, taken, i)[t], c)
    ensures i <= c < |es| && es[c].user !in taken
    decreases |es| - i
  {
    if es[i].user in taken {
      GreedyUsesFree(es, taken, i + 1, t, c);
    } else {
      var j := Successor(es, taken, i, i + 1);
      SuccessorIsFirst(es, taken, i, i + 1);
      if j < |es| {
        if t > 0 {
          GreedyUsesFree(es, taken + {es[i].user, es[j].user}, i + 1, t - 1, c);
        }
      } else {
        GreedyUsesFree(es, taken, i + 1, t, c);
      }
    }
  }

  lemma {:induction false} GreedyIsDisjoint(es: seq<QueueEntry>, taken: set<UserId>, i: nat)
    requires i <= |es|
    ensures PairsDisjoint(Greedy(es, taken, i))
    decreases |es| - i
  {
    if i < |es| {
      if es[i].user in taken {
        GreedyIsDisjoint(es, taken, i + 1);
      } else {
        var j := Successor(es, taken, i, i + 1);
        SuccessorIsFirst(es, taken, i, i + 1);
        if j < |es| {
          var taken' := taken + {es[i].user, es[j].user};
          var rest := Greedy(es, taken', i + 1);
          GreedyIsDisjoint(es, taken', i + 1);
          forall u, c: nat | 0 <= u < |rest| && InPair(rest[u], c) ensures !InPair((i, j), c) {
            GreedyUsesFree(es, taken', i + 1, u, c);
          }
        } else {
          GreedyIsDisjoint(es, taken, i + 1);
        }
      }
    }
  }

  lemma EarliestPair(es: seq<QueueEntry>, taken: set<UserId>, i: nat, j: nat, rest: seq<(nat, nat)>,
                     t: nat, c: nat)
    requires i < j < |es| && Unrepeated(es)
    requires forall c | i < c < j :: es[c].user in taken || !Compatible(es[i], es[c])
    requires PairsFit(es, rest) && PairsFit(es, [(i, j)] + rest)
    requires PairsEarliest(es, taken + {es[i].user, es[j].user}, rest)
    requires t <= |rest|
    requires var p := ([(i, j)] + rest)[t]; p.0 < c < p.1 && Compatible(es[p.0], es[c])
    ensures es[c].user in taken || PairedBefore([(i, j)] + rest, t, c)
  {
    var ps := [(i, j)] + rest;
    if t > 0 && es[c].user !in taken {
      assert rest[t - 1] == ps[t];
      if PairedBefore(rest, t - 1, c) {
        var u :| 0 <= u < t - 1 && InPair(rest[u], c);
        assert InPair(ps[u + 1], c);
      } else {
        assert InPair(ps[0], c);
      }
    }
  }

  lemma {:induction false} GreedyIsEarliest(es: seq<QueueEntry>, taken: set<UserId>, i: nat)
    requires i <= |es| && Unrepeated(es)
    ensures PairsFit(es, Greedy(es, taken, i)) && PairsEarliest(es, taken, Greedy(es, taken, i))
    decreases |es| - i
  {
    GreedyFits(es, taken, i);
    if i < |es| {
      if es[i].user in taken {
        GreedyIsEarliest(es, taken, i + 1);
      } else {
        var j := Successor(es, taken, i, i + 1);
        SuccessorIsFirst(es, taken, i, i + 1);
        if j < |es| {
          var taken' := taken + {es[i].user, es[j].user};
          var rest := Greedy(es, taken', i + 1);
          GreedyIsEarliest(es, taken', i + 1);
          var ps := [(i, j)] + rest;
          forall t, c | 0 <= t < |ps| && ps[t].0 < c < ps[t].1 && Compatible(es[ps[t].0], es[c])
            ensures es[c].user in taken || PairedBefore(ps, t, c)
          {
            EarliestPair(es, taken, i, j, rest, t, c);
          }
        } else {
          GreedyIsEarliest(es, taken, i + 1);
        }
      }
    }
  }

  // The rest of the scan was maximal without i and j; with their pair the whole is.
  lemma MaximalPair(es: seq<QueueEntry>, taken: set<UserId>, i: nat, j: nat, rest: seq<(nat, nat)>)
    requires i < j < |es| && Unrepeated(es)
    requires PairsMaximal(es, taken + {es[i].user, es[j].user}, rest, i + 1)
    ensures PairsMaximal(es, taken, [(i, j)] + rest, i)
  {
    var ps := [(i, j)] + rest;
    assert InPair(ps[0], i) && InPair(ps[0], j);
    forall c | PairedBefore(rest, |rest|, c) ensures PairedBefore(ps, |ps|, c) {
      var u :| 0 <= u < |rest| && InPair(rest[u], c);
      assert InPair(ps[u + 1], c);
    }
  }

  lemma {:induction false} GreedyIsMaximal(es: seq<QueueEntry>, taken: set<UserId>, i: nat)
    requires i <= |es| && Unrepeated(es)
    ensures PairsMaximal(es, taken, Greedy(es, taken, i), i)
    decreases |es| - i
  {
    if i < |es| {
      if es[i].user in taken {
        GreedyIsMaximal(es, taken, i + 1);
      } else {
        var j := Successor(es, taken, i, i + 1);
        SuccessorIsFirst(es, taken, i, i + 1);
        if j < |es| {
          var taken' := taken + {es[i].user, es[j].user};
          GreedyIsMaximal(es, taken', i + 1);
          MaximalPair(es, taken, i, j, Greedy(es, taken', i + 1));
        } else {
          GreedyIsMaximal(es, taken, i + 1);
        }
      }
    }
  }

  /** One scan over different users: disjoint compatible pairs in queue order, each first member
      with its earliest free compatible successor, and nothing compatible left over. */
  lemma GreedyPairs(es: seq<QueueEntry>)
    requires Unrepeated(es)
    ensures var ps := Greedy(es, {}, 0);
      && PairsFit(es, ps) && PairsDisjoint(ps)
      && PairsEarliest(es, {}, ps) && PairsMaximal(es, {}, ps, 0)
  {
    GreedyFits(es, {}, 0);
    GreedyIsDisjoint(es, {}, 0);
    GreedyIsEarliest(es, {}, 0);
    GreedyIsMaximal(es, {}, 0);
  }

  // ----- matching -----

  function MatchAll(s: Store, es: seq<QueueEntry>, ps: seq<(nat, nat)>, now: int): Store
    requires forall t | 0 <= t < |ps| :: ps[t].0 < |es| && ps[t].1 < |es|
    decreases |ps|
  {
    if ps == [] then s
    else MatchAll(Match(s, es[ps[0].0], es[ps[0].1], now), es, ps[1..], now)
  }

  // Users of the pairs still to come are waiting.
  ghost predicate PairsQueued(s: Store, es: seq<QueueEntry>, ps: seq<(nat, nat)>) {
    forall t, c: nat | 0 <= t < |ps| && InPair(ps[t], c) :: c < |es| && Listed(s, es[c].filter, es[c])
  }

  lemma MatchLeavesRest(s: Store, es: seq<QueueEntry>, ps: seq<(nat, nat)>, t: Store)
    requires Unrepeated(es) && PairsFit(es, ps) && PairsDisjoint(ps) && PairsQueued(s, es, ps)
    requires ps != [] && Without(s, t, {es[ps[0].0].user, es[ps[0].1].user})
    ensures PairsQueued(t, es, ps[1..])
  {
    forall k, c: nat | 0 <= k < |ps[1..]| && InPair(ps[1..][k], c)
      ensures c < |es| && Listed(t, es[c].filter, es[c])
    {
      assert InPair(ps[k + 1], c) && !InPair(ps[0], c);
    }
  }

  lemma {:induction false} MatchAllKeeps(s: Store, es: seq<QueueEntry>, ps: seq<(nat, nat)>, now: int)
    requires Good(s) && Unrepeated(es) && PairsFit(es, ps) && PairsDisjoint(ps) && PairsQueued(s, es, ps)
    ensures Keeps(s, MatchAll(s, es, ps, now))
    decreases |ps|
  {
    if ps != [] {
      var a, b := ps[0].0, ps[0].1;
      assert InPair(ps[0], a) && InPair(ps[0], b);
      MatchKeeps(s, es[a], es[b], now);
      var t := Match(s, es[a], es[b], now);
      MatchLeavesRest(s, es, ps, t);
      assert PairsDisjoint(ps[1..]);
      MatchAllKeeps(t, es, ps[1..], now);
    }
  }

  // ----- the tick -----

  function Tick(s: Store, keys: seq<Label>, now: int): Store {
    var es := Snapshot(s, keys);
    var kept := Fresh(es, now);
    MatchAll(ExpireAll(s, es, now), kept, Greedy(kept, {}, 0), now)
  }

  /** A tick keeps the stores in step and everyone's wealth, whatever lists it manages to read. */
  lemma TickKeeps(s: Store, keys: seq<Label>, now: int)
    requires Good(s)
    ensures Keeps(s, Tick(s, keys, now))
  {
    var es := Snapshot(s, keys);
    var kept := Fresh(es, now);
    var t := ExpireAll(s, es, now);
    SnapshotIsQueued(s, keys);
    ExpireAllKeeps(s, es, now);
    FreshMembers(es, now);
    GreedyPairs(kept);
    var ps := Greedy(kept, {}, 0);
    forall k, c: nat | 0 <= k < |ps| && InPair(ps[k], c)
      ensures c < |kept| && Listed(t, kept[c].filter, kept[c])
    {
      assert kept[c] in kept;
      var i :| 0 <= i < |es| && es[i] == kept[c];
      assert Listed(s, es[i].filter, es[i]);
    }
    MatchAllKeeps(t, kept, ps, now);
  }

  lemma {:induction false} ExpireAllWaiting(s: Store, es: seq<QueueEntry>, now: int, u: UserId)
    ensures u in ExpireAll(s, es, now).waiting
       <==> u in s.waiting && forall i | 0 <= i < |es| :: Stale(es[i], now) ==> es[i].user != u
    ensures ExpireAll(s, es, now).chats == s.chats
    decreases |es|
  {
    if es != [] {
      var t := if Stale(es[0], now) then Expire(s, es[0]) else s;
      ExpireAllWaiting(t, es[1..], now, u);
      assert forall i | 1 <= i < |es| :: es[i] == es[1..][i - 1];
    }
  }

  // User u is a member of one of the pairs.
  predicate PairedUser(es: seq<QueueEntry>, ps: seq<(nat, nat)>, u: UserId)
    requires forall t | 0 <= t < |ps| :: ps[t].0 < |es| && ps[t].1 < |es|
  {
    ps != [] && (es[ps[0].0].user == u || es[ps[0].1].user == u || PairedUser(es, ps[1..], u))
  }

  lemma {:induction false} PairedUserOf(es: seq<QueueEntry>, ps: seq<(nat, nat)>, u: UserId)
    requires forall t | 0 <= t < |ps| :: ps[t].0 < |es| && ps[t].1 < |es|
    ensures PairedUser(es, ps, u)
       <==> exists t :: 0 <= t < |ps| && (es[ps[t].0].user == u || es[ps[t].1].user == u)
  {
    if ps != [] {
      PairedUserOf(es, ps[1..], u);
      if PairedUser(es, ps[1..], u) {
        var t :| 0 <= t < |ps[1..]| && (es[ps[1..][t].0].user == u || es[ps[1..][t].1].user == u);
        assert ps[t + 1] == ps[1..][t];
      }
    }
  }

  // Whether u is waiting or chatting, and with whom, is the same in both.
  ghost predicate SameFor(s: Store, t: Store, u: UserId) {
    && (u in t.waiting <==> u in s.waiting)
    && (u in t.chats <==> u in s.chats)
    && (u in s.chats ==> t.chats[u] == s.chats[u])
  }

  lemma {:induction false} MatchAllUser(s: Store, es: seq<QueueEntry>, ps: seq<(nat, nat)>, now: int, u: UserId)
    requires forall t | 0 <= t < |ps| :: ps[t].0 < |es| && ps[t].1 < |es|
    ensures if PairedUser(es, ps, u) then u !in MatchAll(s, es, ps, now).waiting
            else SameFor(s, MatchAll(s, es, ps, now), u)
    decreases |ps|
  {
    if ps != [] {
      var a, b := es[ps[0].0], es[ps[0].1];
      var m := Match(s, a, b, now);
      assert if u in {a.user, b.user} then u !in m.waiting else SameFor(s, m, u);
      MatchAllUser(m, es, ps[1..], now, u);
    }
  }

  lemma DisjointFromRest(es: seq<QueueEntry>, ps: seq<(nat, nat)>, c: nat)
    requires Unrepeated(es) && PairsFit(es, ps) && PairsDisjoint(ps) && ps != [] && InPair(ps[0], c)
    ensures !PairedUser(es, ps[1..], es[c].user)
  {
    PairedUserOf(es, ps[1..], es[c].user);
    forall k | 0 <= k < |ps[1..]|
      ensures es[ps[1..][k].0].user != es[c].user && es[ps[1..][k].1].user != es[c].user
    {
      assert InPair(ps[k + 1], ps[1..][k].0) && InPair(ps[k + 1], ps[1..][k].1);
    }
  }

  ghost predicate ChatOpened(t: Store, a: QueueEntry, b: QueueEntry, now: int) {
    && a.user in t.chats && b.user in t.chats
    && t.chats[a.user] == t.chats[b.user] == ChatSession(a.user, b.user, a.cost, b.cost, now)
  }

  lemma {:induction false} MatchAllChats(s: Store, es: seq<QueueEntry>, ps: seq<(nat, nat)>, now: int, t: nat)
    requires Unrepeated(es) && PairsFit(es, ps) && PairsDisjoint(ps) && t < |ps|
    ensures ChatOpened(MatchAll(s, es, ps, now), es[ps[t].0], es[ps[t].1], now)
    decreases |ps|
  {
    var a, b := es[ps[0].0], es[ps[0].1];
    var m := Match(s, a, b, now);
    if t > 0 {
      assert PairsDisjoint(ps[1..]);
      MatchAllChats(m, es, ps[1..], now, t - 1);
    } else {
      assert ChatOpened(m, a, b, now);
      DisjointFromRest(es, ps, ps[0].0);
      DisjointFromRest(es, ps, ps[0].1);
      MatchAllUser(m, es, ps[1..], now, a.user);
      MatchAllUser(m, es, ps[1..], now, b.user);
    }
  }

  /** After a tick that reads every list, nobody whose time is up is still waiting. */
  lemma TickLeavesNobodyStale(s: Store, keys: seq<Label>, now: int, e: QueueEntry)
    requires Good(s) && e.filter in keys && Listed(s, e.filter, e) && Stale(e, now)
    ensures e.user !in Tick(s, keys, now).waiting
  {
    var es := Snapshot(s, keys);
    var kept := Fresh(es, now);
    SnapshotIsComplete(s, keys, e);
    ExpireAllWaiting(s, es, now, e.user);
    MatchAllUser(ExpireAll(s, es, now), kept, Greedy(kept, {}, 0), now, e.user);
  }

  /** Those a tick leaves waiting are pairwise incompatible, in the order they were read. */
  lemma TickIsMaximal(s: Store, keys: seq<Label>, now: int, c: nat, d: nat)
    requires Good(s) && c < d < |Fresh(Snapshot(s, keys), now)|
    requires var kept, t := Fresh(Snapshot(s, keys), now), Tick(s, keys, now);
      kept[c].user in t.waiting && kept[d].user in t.waiting
    ensures var kept := Fresh(Snapshot(s, keys), now); !Compatible(kept[c], kept[d])
  {
    var es := Snapshot(s, keys);
    var kept := Fresh(es, now);
    var ps := Greedy(kept, {}, 0);
    SnapshotIsQueued(s, keys);
    FreshMembers(es, now);
    GreedyPairs(kept);
    MatchAllUser(ExpireAll(s, es, now), kept, ps, now, kept[c].user);
    MatchAllUser(ExpireAll(s, es, now), kept, ps, now, kept[d].user);
    PairedUserOf(kept, ps, kept[c].user);
    PairedUserOf(kept, ps, kept[d].user);
    assert !PairedBefore(ps, |ps|, c) && !PairedBefore(ps, |ps|, d);
  }

  /** Every pair of the scan ends up in one chat, stored the same under both members. */
  lemma TickOpensChats(s: Store, keys: seq<Label>, now: int, k: nat)
    requires Good(s) && k < |Greedy(Fresh(Snapshot(s, keys), now), {}, 0)|
    ensures var kept := Fresh(Snapshot(s, keys), now); var p := Greedy(kept, {}, 0)[k];
      && Compatible(kept[p.0], kept[p.1])
      && ChatOpened(Tick(s, keys, now), kept[p.0], kept[p.1], now)
  {
    var es := Snapshot(s, keys);
    var kept := Fresh(es, now);
    SnapshotIsQueued(s, keys);
    FreshMembers(es, now);
    GreedyPairs(kept);
    MatchAllChats(ExpireAll(s, es, now), kept, Greedy(kept, {}, 0), now, k);
  }

  // ----- what a tick does to one user -----

  lemma KeptInSnapshot(s: Store, keys: seq<Label>, now: int, e: QueueEntry) returns (c: nat)
    requires QueueInv(s) && e.filter in keys && Listed(s, e.filter, e) && now - e.joinedAt < 120
    ensures var kept := Fresh(Snapshot(s, keys), now); c < |kept| && kept[c] == e
  {
    SnapshotIsComplete(s, keys, e);
    FreshMembers(Snapshot(s, keys), now);
    var kept := Fresh(Snapshot(s, keys), now);
    assert e in kept;
    c :| c < |kept| && kept[c] == e;
  }

  /** Two different users in time whose searches suit each other do not both go on waiting. */
  lemma SuitedDoNotBothWait(s: Store, keys: seq<Label>, now: int, d: QueueEntry, e: QueueEntry)
    requires Good(s) && d.filter in keys && e.filter in keys
    requires Listed(s, d.filter, d) && Listed(s, e.filter, e) && d.user != e.user
    requires now - d.joinedAt < 120 && now - e.joinedAt < 120 && Suit(d, e)
    ensures d.user !in Tick(s, keys, now).waiting || e.user !in Tick(s, keys, now).waiting
  {
    var i := KeptInSnapshot(s, keys, now, d);
    var j := KeptInSnapshot(s, keys, now, e);
    CompatibleExactlyWhen(d, e);
    CompatibleExactlyWhen(e, d);
    if d.user in Tick(s, keys, now).waiting && e.user in Tick(s, keys, now).waiting {
      if i < j {
        TickIsMaximal(s, keys, now, i, j);
      } else {
        TickIsMaximal(s, keys, now, j, i);
      }
    }
  }

  lemma {:induction false} MatchAllCoins(s: Store, es: seq<QueueEntry>, ps: seq<(nat, nat)>, now: int)
    requires forall t | 0 <= t < |ps| :: ps[t].0 < |es| && ps[t].1 < |es|
    ensures MatchAll(s, es, ps, now).coins == s.coins
    decreases |ps|
  {
    if ps != [] {
      MatchAllCoins(Match(s, es[ps[0].0], es[ps[0].1], now), es, ps[1..], now);
    }
  }

  // What expiry pays back to one user.
  function PaidBack(es: seq<QueueEntry>, now: int, u: UserId): int {
    if es == [] then 0
    else (if es[0].user == u && now - es[0].joinedAt >= 120 then es[0].cost else 0) + PaidBack(es[1..], now, u)
  }

  lemma {:induction false} ExpireAllPays(s: Store, es: seq<QueueEntry>, now: int, u: UserId)
    requires u in s.coins && forall i | 0 <= i < |es| :: es[i].cost >= 0
    ensures u in ExpireAll(s, es, now).coins
    ensures Balance(ExpireAll(s, es, now), u) == Balance(s, u) + PaidBack(es, now, u)
    decreases |es|
  {
    if es != [] {
      var t := if Stale(es[0], now) then Expire(s, es[0]) else s;
      ExpireAllPays(t, es[1..], now, u);
    }
  }

  lemma {:induction false} PaidBackOnce(es: seq<QueueEntry>, now: int, u: UserId)
    requires Unrepeated(es)
    ensures forall e <- es :: e.user == u ==> PaidBack(es, now, u) == if now - e.joinedAt >= 120 then e.cost else 0
    ensures u !in Users(es) ==> PaidBack(es, now, u) == 0
  {
    if es != [] {
      PaidBackOnce(es[1..], now, u);
      UsersOf(es[1..], u);
      assert es == [es[0]] + es[1..];
    }
  }

  lemma SnapshotCosts(s: Store, keys: seq<Label>)
    requires QueueInv(s)
    ensures forall i | 0 <= i < |Snapshot(s, keys)| :: Snapshot(s, keys)[i].cost >= 0
  {
    var es := Snapshot(s, keys);
    SnapshotIsQueued(s, keys);
    forall i | 0 <= i < |es| ensures es[i].cost >= 0 {
      HeldBy(s, es[i]);
    }
  }

  /** A tick, for a waiting user whose list is read: after two minutes the search ends with exactly its
      price paid back; before that no coin moves, and the user goes on waiting or is in a new chat. */
  lemma TickForOneUser(s: Store, keys: seq<Label>, now: int, e: QueueEntry)
    requires Good(s) && e.filter in keys && Listed(s, e.filter, e)
    ensures var t := Tick(s, keys, now);
      if now - e.joinedAt >= 120
      then e.user !in t.waiting && e.user !in t.chats && Balance(t, e.user) == Balance(s, e.user) + e.cost
      else Balance(t, e.user) == Balance(s, e.user) && (e.user in t.waiting <==> e.user !in t.chats)
  {
    var es := Snapshot(s, keys);
    var kept, x := Fresh(es, now), ExpireAll(s, es, now);
    var ps := Greedy(kept, {}, 0);
    SnapshotIsQueued(s, keys);
    SnapshotIsComplete(s, keys, e);
    HeldBy(s, e);
    TickCoins(s, keys, now, e);
    ExpireAllWaiting(s, es, now, e.user);
    OnlyEntryOf(es, e);
    MatchAllUser(x, kept, ps, now, e.user);
    FreshMembers(es, now);
    if PairedUser(kept, ps, e.user) {
      PairedUserOf(kept, ps, e.user);
      var k :| 0 <= k < |ps| && (kept[ps[k].0].user == e.user || kept[ps[k].1].user == e.user);
      TickOpensChats(s, keys, now, k);
      assert kept[ps[k].0] in kept && kept[ps[k].1] in kept;
    }
  }

  // Only users waiting in a list that is read are in the snapshot.
  lemma SnapshotOnlyOf(s: Store, keys: seq<Label>, u: UserId)
    requires QueueInv(s) && (u in s.waiting ==> s.waiting[u] !in keys)
    ensures forall i | 0 <= i < |Snapshot(s, keys)| :: Snapshot(s, keys)[i].user != u
  {
    var es := Snapshot(s, keys);
    SnapshotIsQueued(s, keys);
    forall i | 0 <= i < |es| ensures es[i].user != u {
      HeldBy(s, es[i]);
      DedupInvents(All(s, keys), {}, es[i]);
      AllReadsQueues(s, keys, es[i]);
      var f :| f in keys && Listed(s, f, es[i]);
    }
  }

  /** Nobody else is touched: users who do not wait, or wait in a list that was not read, keep their
      coins, their place and their chat. */
  lemma TickLeavesOthers(s: Store, keys: seq<Label>, now: int, u: UserId)
    requires Good(s) && u in s.coins && (u in s.waiting ==> s.waiting[u] !in keys)
    ensures SameFor(s, Tick(s, keys, now), u) && Balance(Tick(s, keys, now), u) == Balance(s, u)
  {
    var es := Snapshot(s, keys);
    var kept, x := Fresh(es, now), ExpireAll(s, es, now);
    var ps := Greedy(kept, {}, 0);
    SnapshotIsQueued(s, keys);
    SnapshotCosts(s, keys);
    SnapshotOnlyOf(s, keys, u);
    UsersOf(es, u);
    PaidBackOnce(es, now, u);
    ExpireAllPays(s, es, now, u);
    ExpireAllWaiting(s, es, now, u);
    FreshMembers(es, now);
    assert forall i | 0 <= i < |kept| :: kept[i] in kept && kept[i] in es;
    PairedUserOf(kept, ps, u);
    MatchAllUser(x, kept, ps, now, u);
    MatchAllCoins(x, kept, ps, now);
  }

  lemma OnlyEntryOf(es: seq<QueueEntry>, e: QueueEntry)
    requires Unrepeated(es) && e in es
    ensures forall i | 0 <= i < |es| && es[i].user == e.user :: es[i] == e
    ensures forall d <- es :: d.user == e.user ==> d == e
  {
    var j :| 0 <= j < |es| && es[j] == e;
  }

  lemma TickCoins(s: Store, keys: seq<Label>, now: int, e: QueueEntry)
    requires Good(s) && e.filter in keys && Listed(s, e.filter, e)
    ensures Balance(Tick(s, keys, now), e.user) ==
      Balance(s, e.user) + if now - e.joinedAt >= 120 then e.cost else 0
  {
    var es := Snapshot(s, keys);
    SnapshotIsQueued(s, keys);
    SnapshotIsComplete(s, keys, e);
    SnapshotCosts(s, keys);
    HeldBy(s, e);
    ExpireAllPays(s, es, now, e.user);
    PaidBackOnce(es, now, e.user);
    var kept := Fresh(es, now);
    MatchAllCoins(ExpireAll(s, es, now), kept, Greedy(kept, {}, 0), now);
  }

  // ----- the reading order -----

  lemma {:induction false} DedupAppend(a: seq<QueueEntry>, b: seq<QueueEntry>, seen: set<UserId>)
    ensures Dedup(a + b, seen) == Dedup(a, seen) + Dedup(b, seen + Users(a))
  {
    if a == [] {
      assert a + b == b && seen + Users(a) == seen;
    } else {
      assert (a + b)[1..] == a[1..] + b;
      if a[0].user in seen {
        DedupAppend(a[1..], b, seen);
        assert seen + Users(a[1..]) == seen + Users(a);
      } else {
        DedupAppend(a[1..], b, seen + {a[0].user});
        assert seen + {a[0].user} + Users(a[1..]) == seen + Users(a);
      }
    }
  }

  lemma {:induction false} DedupNobodySeen(q: seq<QueueEntry>, seen: set<UserId>)
    requires Unrepeated(q) && Users(q) !! seen
    ensures Dedup(q, seen) == q
  {
    if q != [] {
      UsersOf(q[1..], q[0].user);
      DedupNobodySeen(q[1..], seen + {q[0].user});
    }
  }

  lemma {:induction false} AllAppend(s: Store, keys: seq<Label>, f: Label)
    ensures All(s, keys + [f]) == All(s, keys) + Queue(s, f)
  {
    if keys == [] {
      assert keys + [f] == [f];
      assert All(s, [f]) == Queue(s, f) + All(s, [f][1..]);
    } else {
      assert (keys + [f])[1..] == keys[1..] + [f];
      AllAppend(s, keys[1..], f);
    }
  }

  lemma {:induction false} OnceIsUnrepeated(q: seq<QueueEntry>)
    requires forall u: UserId :: Occurs(q, u) <= 1
    ensures Unrepeated(q)
  {
    if q != [] {
      forall u: UserId ensures Occurs(q[1..], u) <= 1 {
        assert Occurs(q, u) <= 1;
      }
      OnceIsUnrepeated(q[1..]);
      forall j | 0 < j < |q| ensures q[j].user != q[0].user {
        assert Occurs(q, q[0].user) <= 1;
        MemberOccurs(q[1..], q[1..][j - 1]);
      }
    }
  }

  /** The lists are read in the order of their keys, and each from its first entry to its last. */
  lemma SnapshotReadsInOrder(s: Store, keys: seq<Label>, f: Label)
    requires QueueInv(s) && f !in keys
    ensures Snapshot(s, keys + [f]) == Snapshot(s, keys) + Queue(s, f)
  {
    AllAppend(s, keys, f);
    DedupAppend(All(s, keys), Queue(s, f), {});
    forall u: UserId ensures Occurs(Queue(s, f), u) <= 1 {
      assert Occurs(Queue(s, f), u) == if u in s.waiting && s.waiting[u] == f then 1 else 0;
    }
    OnceIsUnrepeated(Queue(s, f));
    forall u | u in Users(Queue(s, f)) ensures u !in Users(All(s, keys)) {
      UsersOf(Queue(s, f), u);
      UsersOf(All(s, keys), u);
      ReadElsewhere(s, keys, f, u);
    }
    DedupNobodySeen(Queue(s, f), {} + Users(All(s, keys)));
  }

  lemma ReadElsewhere(s: Store, keys: seq<Label>, f: Label, u: UserId)
    requires QueueInv(s) && f !in keys && exists i :: 0 <= i < |Queue(s, f)| && Queue(s, f)[i].user == u
    ensures forall i | 0 <= i < |All(s, keys)| :: All(s, keys)[i].user != u
  {
    var d :| d in Queue(s, f) && d.user == u;
    assert Listed(s, f, d);
    HeldBy(s, d);
    forall e | e in All(s, keys) ensures e.user != u {
      AllReadsQueues(s, keys, e);
      var g :| g in keys && Listed(s, g, e);
      HeldBy(s, e);
    }
  }
}
