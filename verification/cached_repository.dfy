/** The cached user repository: cache keys filled and deleted around database calls, each method
    proved to take the step of UserCache. */
module CachedRepositories {
  import opened Options
  import opened UserCache

  class Repository {
    var table: Table

    constructor (table: Table)
      ensures this.table == table
    {
      this.table := table;
    }

    method GetByTelegramID(tg: int) returns (u: Option<User>)
      ensures FindTg(table, tg) == if u.Some? then Found(u.value) else NotFound
    {
      if tg in table.byTelegram && table.byTelegram[tg] in table.rows {
        return Some(table.rows[table.byTelegram[tg]]);
      }
      return None;
    }

    method GetByID(id: string) returns (u: Option<User>)
      ensures FindId(table, id) == if u.Some? then Found(u.value) else NotFound
    {
      return if id in table.rows then Some(table.rows[id]) else None;
    }

    method Update(u: User) returns (ok: bool)
      modifies this
      ensures (table, ok) == Save(old(table), u)
      ensures TableOk(old(table)) ==> TableOk(table)
    {
      ok := !Clashes(table, u);
      if ok {
        if TableOk(table) {
          WriteOk(table, u);
        }
        table := Write(table, u);
      }
    }

    method Create(u: User, newId: Option<string>) returns (v: User, ok: bool)
      modifies this
      ensures (table, ok) == Insert(old(table), u, newId)
      ensures TableOk(old(table)) ==> TableOk(table)
      ensures v == if newId.Some? then u.(id := newId.value) else u
    {
      v := u;
      if newId.None? {
        return v, false;
      }
      v := u.(id := newId.value);
      ok := v.id !in table.rows && !Clashes(table, v);
      if ok {
        if TableOk(table) {
          WriteOk(table, v);
        }
        table := Write(table, v);
      }
    }
  }

  class CachedRepository {
    const repo: Repository
    var cachedTg: map<int, User>
    var cachedId: map<string, User>

    constructor (repo: Repository)
      ensures this.repo == repo && View() == State(repo.table, map[], map[])
    {
      this.repo := repo;
      cachedTg, cachedId := map[], map[];
    }

    function View(): State reads this, repo {
      State(repo.table, cachedTg, cachedId)
    }

    method GetByTelegramID(tg: int) returns (u: Option<User>)
      modifies this
      ensures (View(), if u.Some? then Found(u.value) else NotFound) == Cached(old(View()), GetTg(tg))
    {
      if tg in cachedTg {
        return Some(cachedTg[tg]);
      }
      u := repo.GetByTelegramID(tg);
      if u.Some? {
        cachedTg := cachedTg[tg := u.value];
      }
    }

    method GetByID(id: string) returns (u: Option<User>)
      modifies this
      ensures (View(), if u.Some? then Found(u.value) else NotFound) == Cached(old(View()), GetId(id))
    {
      if id in cachedId {
        return Some(cachedId[id]);
      }
      u := repo.GetByID(id);
      if u.Some? {
        cachedId := cachedId[id := u.value];
      }
    }

    method Update(u: User) returns (ok: bool)
      modifies this, repo
      ensures (View(), Done(ok)) == Cached(old(View()), Event.Update(u))
    {
      ok := repo.Update(u);
      if ok {
        cachedTg := cachedTg - {u.telegramId};
        cachedId := cachedId - {u.id};
      }
    }

    method Create(u: User, newId: Option<string>) returns (v: User, ok: bool)
      modifies this, repo
      ensures (View(), Done(ok)) == Cached(old(View()), Event.Create(u, newId))
      ensures ok ==> newId.Some? && v == u.(id := newId.value)
    {
      v, ok := repo.Create(u, newId);
      if ok && v.id != "" {
        cachedId := cachedId[v.id := v];
      }
    }

    method InvalidateUserCache(id: string, tg: int)
      modifies this
      ensures View() == Cached(old(View()), Invalidate(id, tg)).0
    {
      cachedId := cachedId - {id};
      cachedTg := cachedTg - {tg};
    }
  }
}
