/** The user table, the cache in front of it, and when the two cannot be told apart. Cache entries
    may disappear at any moment, which also covers their expiry. */
module UserCache {
  import opened Options

  // The columns other than the two keys are one opaque string.
  datatype User = User(id: string, telegramId: int, profile: string)

  // rows by primary key, and the unique index on the Telegram id.
  datatype Table = Table(rows: map<string, User>, byTelegram: map<int, string>)

  datatype State = State(table: Table, cachedTg: map<int, User>, cachedId: map<string, User>)

  datatype Reply = Found(user: User) | NotFound | Done(ok: bool) | Quiet

  predicate TableOk(t: Table) {
    && (forall id | id in t.rows :: t.rows[id].id == id)
    && (forall id | id in t.rows :: t.rows[id].telegramId in t.byTelegram && t.byTelegram[t.rows[id].telegramId] == id)
    && (forall tg | tg in t.byTelegram :: t.byTelegram[tg] in t.rows && t.rows[t.byTelegram[tg]].telegramId == tg)
  }

  // ----- the repository -----

  function FindTg(t: Table, tg: int): Reply {
    if tg in t.byTelegram && t.byTelegram[tg] in t.rows then Found(t.rows[t.byTelegram[tg]]) else NotFound
  }

  function FindId(t: Table, id: string): Reply {
    if id in t.rows then Found(t.rows[id]) else NotFound
  }

  predicate Clashes(t: Table, u: User) {
    u.telegramId in t.byTelegram && t.byTelegram[u.telegramId] != u.id
  }

  function Write(t: Table, u: User): Table {
    var index := if u.id in t.rows then t.byTelegram - {t.rows[u.id].telegramId} else t.byTelegram;
    Table(t.rows[u.id := u], index[u.telegramId := u.id])
  }

  /** Saves a user, inserting the row when it is missing; fails on another row's Telegram id. */
  function Save(t: Table, u: User): (Table, bool) {
    if Clashes(t, u) then (t, false) else (Write(t, u), true)
  }

  /** Inserts a user under a generated id; None when no id could be generated. */
  function Insert(t: Table, u: User, id: Option<string>): (Table, bool) {
    if id.None? || id.value in t.rows || Clashes(t, u.(id := id.value)) then (t, false)
    else (Write(t, u.(id := id.value)), true)
  }

  lemma WriteOk(t: Table, u: User)
    requires TableOk(t) && !Clashes(t, u)
    ensures TableOk(Write(t, u))
  {
  }

  // ----- events -----

  datatype Event =
    | GetTg(telegramId: int)
    | GetId(id: string)
    | Update(user: User)
    | Create(user: User, newId: Option<string>)
    | Invalidate(id: string, telegramId: int)
    | Evict(tgKeys: set<int>, idKeys: set<string>)

  /** The repository without a cache. */
  function Plain(t: Table, e: Event): (Table, Reply) {
    match e
    case GetTg(tg) => (t, FindTg(t, tg))
    case GetId(id) => (t, FindId(t, id))
    case Update(u) => (Save(t, u).0, Done(Save(t, u).1))
    case Create(u, id) => (Insert(t, u, id).0, Done(Insert(t, u, id).1))
    case _ => (t, Quiet)
  }

  /** The repository behind the cache. */
  function Cached(s: State, e: Event): (State, Reply) {
    match e
    case GetTg(tg) =>
      if tg in s.cachedTg then (s, Found(s.cachedTg[tg]))
      else
        var r := FindTg(s.table, tg);
        (if r.Found? then s.(cachedTg := s.cachedTg[tg := r.user]) else s, r)
    case GetId(id) =>
      if id in s.cachedId then (s, Found(s.cachedId[id]))
      else
        var r := FindId(s.table, id);
        (if r.Found? then s.(cachedId := s.cachedId[id := r.user]) else s, r)
    case Update(u) =>
      var (t, ok) := Save(s.table, u);
      (if ok then State(t, s.cachedTg - {u.telegramId}, s.cachedId - {u.id}) else s, Done(ok))
    case Create(u, id) =>
      var (t, ok) := Insert(s.table, u, id);
      if !ok then (s, Done(false))
      else if id.value == "" then (s.(table := t), Done(true))
      else (s.(table := t, cachedId := s.cachedId[id.value := u.(id := id.value)]), Done(true))
    case Invalidate(id, tg) => (s.(cachedTg := s.cachedTg - {tg}, cachedId := s.cachedId - {id}), Quiet)
    case Evict(tgs, ids) => (s.(cachedTg := s.cachedTg - tgs, cachedId := s.cachedId - ids), Quiet)
  }

  // ----- coherence -----

  /** Every cached user is the one in the table. */
  predicate Coherent(s: State) {
    && (forall tg | tg in s.cachedTg :: FindTg(s.table, tg) == Found(s.cachedTg[tg]))
    && (forall id | id in s.cachedId :: FindId(s.table, id) == Found(s.cachedId[id]))
  }

  predicate Good(s: State) {
    TableOk(s.table) && Coherent(s)
  }

  /** The Telegram id this update would take away from its row while a cache key still names it. */
  predicate LeavesStale(s: State, u: User) {
    && !Clashes(s.table, u) && u.id in s.table.rows
    && s.table.rows[u.id].telegramId != u.telegramId
    && s.table.rows[u.id].telegramId in s.cachedTg
  }

  /** An update keeps the cache right exactly when it does not move a cached Telegram id: only the
      new Telegram id's key is dropped. */
  lemma UpdateKeepsExactlyWhen(s: State, u: User)
    requires Good(s)
    ensures Good(Cached(s, Update(u)).0) <==> !LeavesStale(s, u)
  {
    if !Clashes(s.table, u) {
      WriteOk(s.table, u);
      var t := Cached(s, Update(u)).0;
      if LeavesStale(s, u) {
        var lost := s.table.rows[u.id].telegramId;
        assert lost in t.cachedTg && lost !in t.table.byTelegram;
      } else {
        forall tg | tg in t.cachedTg ensures FindTg(t.table, tg) == Found(t.cachedTg[tg]) {
          assert FindTg(s.table, tg) == Found(s.cachedTg[tg]);
        }
      }
    }
  }

  /** A stale key is seen: the next look-up of that Telegram id answers differently with the cache. */
  lemma StaleKeyIsSeen(s: State, u: User)
    requires Good(s) && LeavesStale(s, u)
    ensures var read, t := GetTg(s.table.rows[u.id].telegramId), Cached(s, Update(u)).0;
      Cached(t, read).1.Found? && Plain(t.table, read).1 == NotFound
  {
  }

  predicate Safe(s: State, e: Event) {
    e.Update? ==> !LeavesStale(s, e.user)
  }

  lemma CreateKeeps(s: State, u: User, id: Option<string>)
    requires Good(s)
    ensures Good(Cached(s, Create(u, id)).0)
  {
    if Insert(s.table, u, id).1 {
      var v := u.(id := id.value);
      WriteOk(s.table, v);
      var t := Cached(s, Create(u, id)).0;
      forall tg | tg in t.cachedTg ensures FindTg(t.table, tg) == Found(t.cachedTg[tg]) {
        assert FindTg(s.table, tg) == Found(s.cachedTg[tg]);
      }
    }
  }

  /** Each step answers as the plain repository does and leaves the same table. */
  lemma StepAgrees(s: State, e: Event)
    requires Good(s) && Safe(s, e)
    ensures Cached(s, e).0.table == Plain(s.table, e).0 && Cached(s, e).1 == Plain(s.table, e).1
    ensures Good(Cached(s, e).0)
  {
    match e
    case Update(u) => UpdateKeepsExactlyWhen(s, u);
    case Create(u, id) => CreateKeeps(s, u, id);
    case _ =>
  }

  // ----- runs -----

  function Replies(s: State, events: seq<Event>): seq<Reply>
    decreases |events|
  {
    if events == [] then []
    else [Cached(s, events[0]).1] + Replies(Cached(s, events[0]).0, events[1..])
  }

  function PlainReplies(t: Table, events: seq<Event>): seq<Reply>
    decreases |events|
  {
    if events == [] then []
    else [Plain(t, events[0]).1] + PlainReplies(Plain(t, events[0]).0, events[1..])
  }

  predicate SafeRun(s: State, events: seq<Event>)
    decreases |events|
  {
    events != [] ==> Safe(s, events[0]) && SafeRun(Cached(s, events[0]).0, events[1..])
  }

  /** Over a run whose updates leave no stale key, nobody can tell the cache is there. */
  lemma {:induction false} CacheIsInvisible(s: State, events: seq<Event>)
    requires Good(s) && SafeRun(s, events)
    ensures Replies(s, events) == PlainReplies(s.table, events)
    decreases |events|
  {
    if events != [] {
      StepAgrees(s, events[0]);
      CacheIsInvisible(Cached(s, events[0]).0, events[1..]);
    }
  }

  // Each id keeps the same Telegram id.
  predicate Paired(e: Event, pairing: string -> int) {
    && (e.Update? ==> e.user.telegramId == pairing(e.user.id))
    && (e.Create? && e.newId.Some? ==> e.user.telegramId == pairing(e.newId.value))
  }

  lemma {:induction false} PairedIsSafe(s: State, events: seq<Event>, pairing: string -> int)
    requires Good(s) && forall i | 0 <= i < |events| :: Paired(events[i], pairing)
    requires forall id | id in s.table.rows :: s.table.rows[id].telegramId == pairing(id)
    ensures SafeRun(s, events)
    decreases |events|
  {
    if events != [] {
      assert Paired(events[0], pairing);
      StepAgrees(s, events[0]);
      PairedIsSafe(Cached(s, events[0]).0, events[1..], pairing);
    }
  }

  /** As long as ids and Telegram ids stay paired, every run from an empty cache, with evictions
      anywhere, reads exactly what the repository alone would return. */
  lemma PairedRunsAgree(t: Table, events: seq<Event>, pairing: string -> int)
    requires TableOk(t) && (forall id | id in t.rows :: t.rows[id].telegramId == pairing(id))
    requires forall i | 0 <= i < |events| :: Paired(events[i], pairing)
    ensures Replies(State(t, map[], map[]), events) == PlainReplies(t, events)
  {
    PairedIsSafe(State(t, map[], map[]), events, pairing);
    CacheIsInvisible(State(t, map[], map[]), events);
  }

  // ----- what each call does -----

  /** A look-up by either key finds exactly the row that has it. */
  lemma FindsExactlyTheRow(t: Table, u: User)
    requires TableOk(t)
    ensures FindId(t, u.id) == Found(u) <==> u.id in t.rows && t.rows[u.id] == u
    ensures FindTg(t, u.telegramId) == Found(u) <==> u.id in t.rows && t.rows[u.id] == u
    ensures FindTg(t, u.telegramId) == NotFound <==> forall id | id in t.rows :: t.rows[id].telegramId != u.telegramId
  {
  }

  // The table after this user was written: that row, and every other as it was.
  predicate Stored(t: Table, after: Table, u: User) {
    after.rows == t.rows[u.id := u]
  }

  /** Saving succeeds exactly when no other row has the Telegram id, and then stores the user as given. */
  lemma SaveStores(t: Table, u: User)
    requires TableOk(t)
    ensures var (after, ok) := Save(t, u);
      && (ok <==> forall id | id in t.rows && id != u.id :: t.rows[id].telegramId != u.telegramId)
      && (if ok then Stored(t, after, u) && TableOk(after) else after == t)
  {
    if !Clashes(t, u) {
      WriteOk(t, u);
    }
  }

  /** Creating succeeds exactly with a new id and a Telegram id no row has, and stores the user under it. */
  lemma InsertStores(t: Table, u: User, id: Option<string>)
    requires TableOk(t)
    ensures var (after, ok) := Insert(t, u, id);
      && (ok <==> id.Some? && id.value !in t.rows && forall i | i in t.rows :: t.rows[i].telegramId != u.telegramId)
      && (if ok then Stored(t, after, u.(id := id.value)) && TableOk(after) else after == t)
  {
    if id.Some? && id.value !in t.rows && !Clashes(t, u.(id := id.value)) {
      WriteOk(t, u.(id := id.value));
    }
  }

  /** What was just updated is what is read next, by either key. */
  lemma UpdateIsRead(s: State, u: User)
    requires Good(s) && !Clashes(s.table, u)
    ensures var t := Cached(s, Update(u)).0;
      Cached(t, GetId(u.id)).1 == Found(u) && Cached(t, GetTg(u.telegramId)).1 == Found(u)
  {
    SaveStores(s.table, u);
    FindsExactlyTheRow(Cached(s, Update(u)).0.table, u);
  }

  /** Which keys each call fills and drops: a look-up keeps what it found, an update drops its own two
      keys on success, a creation fills the id's, and invalidation drops the two it is given. */
  lemma CacheKeys(s: State, e: Event)
    ensures var t := Cached(s, e).0;
      match e
      case GetTg(tg) =>
        && t.cachedId == s.cachedId && t.cachedTg - {tg} == s.cachedTg - {tg}
        && (tg in t.cachedTg <==> tg in s.cachedTg || FindTg(s.table, tg).Found?)
      case GetId(id) =>
        && t.cachedTg == s.cachedTg && t.cachedId - {id} == s.cachedId - {id}
        && (id in t.cachedId <==> id in s.cachedId || FindId(s.table, id).Found?)
      case Update(u) =>
        if Clashes(s.table, u) then t == s
        else t.cachedTg == s.cachedTg - {u.telegramId} && t.cachedId == s.cachedId - {u.id}
      case Create(u, id) =>
        && t.cachedTg == s.cachedTg
        && t.cachedId == if Insert(s.table, u, id).1 && id.value != "" then s.cachedId[id.value := u.(id := id.value)]
                         else s.cachedId
      case Invalidate(id, tg) => t == State(s.table, s.cachedTg - {tg}, s.cachedId - {id})
      case Evict(tgs, ids) => t == State(s.table, s.cachedTg - tgs, s.cachedId - ids)
  {
  }

  // The state after a run.
  function After(s: State, events: seq<Event>): State {
    if events == [] then s else Cached(After(s, events[..|events| - 1]), events[|events| - 1]).0
  }

  /** Every event of a run is answered, in order, from the state the events before it left. */
  lemma {:induction false} RepliesInOrder(s: State, events: seq<Event>, e: Event)
    ensures |Replies(s, events)| == |events|
    ensures Replies(s, events + [e]) == Replies(s, events) + [Cached(After(s, events), e).1]
    ensures events != [] ==> After(s, events) == After(Cached(s, events[0]).0, events[1..])
    decreases |events|
  {
    if events == [] {
      assert events + [e] == [e] && [e][1..] == [];
    } else {
      var t := Cached(s, events[0]).0;
      assert (events + [e])[0] == events[0] && (events + [e])[1..] == events[1..] + [e];
      RepliesInOrder(t, events[1..], e);
      AfterFromFirst(s, events);
    }
  }

  lemma {:induction false} AfterFromFirst(s: State, events: seq<Event>)
    requires events != []
    ensures After(s, events) == After(Cached(s, events[0]).0, events[1..])
    decreases |events|
  {
    if |events| == 1 {
      assert events[..0] == [] && events[1..] == [];
    } else {
      var front := events[..|events| - 1];
      AfterFromFirst(s, front);
      assert front[1..] == events[1..][..|events| - 2];
    }
  }
}
