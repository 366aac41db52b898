/** Writing many last-seen times at once. The table is a map from Telegram ids to times, None for
    SQL's NULL; the bulk statements are given the meaning SQL gives them, argument by argument. */
module LastSeen {
  import opened Options

  type Rows = map<int, Option<int>>

  datatype Arg = Id(id: int) | Time(time: int)

  const CHUNK := 500

  /** The result every bulk form must have: each listed row takes its own time. */
  function Overwrite(rows: Rows, data: map<int, int>): Rows {
    map id | id in rows :: if id in data then Some(data[id]) else rows[id]
  }

  /** It writes every row listed with a time, leaves every other row, and adds none. */
  lemma OverwriteWrites(rows: Rows, data: map<int, int>)
    ensures Overwrite(rows, data).Keys == rows.Keys
    ensures forall id | id in rows ::
      if id in data then Overwrite(rows, data)[id] == Some(data[id]) else Overwrite(rows, data)[id] == rows[id]
  {
  }

  // ----- the CASE statement -----

  // The text of a statement, with its place holders told apart from the rest.
  datatype Piece = Words(text: string) | Mark

  function Repeat(s: seq<Piece>, n: nat): seq<Piece> {
    if n == 0 then [] else Repeat(s, n - 1) + s
  }

  function Marks(s: seq<Piece>): nat {
    if s == [] then 0 else Marks(s[..|s| - 1]) + if s[|s| - 1] == Mark then 1 else 0
  }

  const HEAD := [Words("UPDATE users SET last_seen_at = CASE telegram_id ")]
  const WHEN := [Words("WHEN "), Mark]
  const THEN := [Words(" THEN "), Mark]
  const LIST := [Words("END WHERE telegram_id IN ("), Mark]
  const NEXT := [Words(","), Mark]
  const TAIL := [Words(")")]

  function Sql(n: nat): seq<Piece>
    requires n > 0
  {
    HEAD + Repeat(WHEN + THEN + [Words(" ")], n) + (LIST + Repeat(NEXT, n - 1) + TAIL)
  }

  // What the first n WHEN pairs of the arguments give for an id; NULL when none matches.
  function CaseOf(args: seq<Arg>, n: nat, id: int): Option<int>
    requires 2 * n <= |args|
  {
    if n == 0 then None
    else
      var earlier := CaseOf(args, n - 1, id);
      if earlier.Some? then earlier
      else if args[2 * n - 2] == Id(id) && args[2 * n - 1].Time? then Some(args[2 * n - 1].time)
      else None
  }

  /** The effect of the statement with n WHEN pairs followed by n ids in the IN list. */
  function ExecCase(rows: Rows, args: seq<Arg>, n: nat): Rows
    requires |args| == 3 * n
  {
    map id | id in rows :: if Id(id) in args[2 * n..] then CaseOf(args, n, id) else rows[id]
  }

  // The arguments for these ids, in this order.
  function Pairs(ids: seq<int>, data: map<int, int>): seq<Arg>
    requires forall id <- ids :: id in data
  {
    if ids == [] then []
    else
      var last := ids[|ids| - 1];
      Pairs(ids[..|ids| - 1], data) + [Id(last), Time(data[last])]
  }

  function Ids(ids: seq<int>): seq<Arg> {
    seq(|ids|, i requires 0 <= i < |ids| => Id(ids[i]))
  }

  lemma {:induction false} MarksAdd(a: seq<Piece>, b: seq<Piece>)
    ensures Marks(a + b) == Marks(a) + Marks(b)
  {
    if b == [] {
      assert a + b == a;
    } else {
      MarksAdd(a, b[..|b| - 1]);
      assert (a + b)[..|a + b| - 1] == a + b[..|b| - 1];
    }
  }

  lemma {:induction false} RepeatMarks(s: seq<Piece>, n: nat)
    ensures Marks(s) == 1 ==> Marks(Repeat(s, n)) == n
    ensures Marks(s) == 2 ==> Marks(Repeat(s, n)) == 2 * n
  {
    if n > 0 {
      RepeatMarks(s, n - 1);
      MarksAdd(Repeat(s, n - 1), s);
    }
  }

  lemma MarksOfFive(a: seq<Piece>, b: seq<Piece>, c: seq<Piece>, d: seq<Piece>, e: seq<Piece>)
    ensures Marks(a + b + (c + d + e)) == Marks(a) + Marks(b) + Marks(c) + Marks(d) + Marks(e)
  {
    MarksAdd(a, b);
    MarksAdd(c, d);
    MarksAdd(c + d, e);
    MarksAdd(a + b, c + d + e);
  }

  lemma MarkOfTwo(text: string)
    ensures Marks([Words(text)]) == 0 && Marks([Words(text), Mark]) == 1
  {
    assert [Words(text), Mark][..1] == [Words(text)];
  }

  /** The statement has exactly three place holders an id. */
  lemma SqlMarks(n: nat)
    requires n > 0
    ensures Marks(Sql(n)) == 3 * n
  {
    var space := [Words(" ")];
    MarksAdd(WHEN, THEN);
    MarksAdd(WHEN + THEN, space);
    RepeatMarks(WHEN + THEN + space, n);
    RepeatMarks(NEXT, n - 1);
    MarksOfFive(HEAD, Repeat(WHEN + THEN + space, n), LIST, Repeat(NEXT, n - 1), TAIL);
    MarkOfTwo("UPDATE users SET last_seen_at = CASE telegram_id ");
    MarkOfTwo("WHEN ");
    MarkOfTwo(" THEN ");
    MarkOfTwo(" ");
    MarkOfTwo("END WHERE telegram_id IN (");
    MarkOfTwo(",");
    MarkOfTwo(")");
  }

  lemma {:induction false} PairsLength(ids: seq<int>, data: map<int, int>)
    requires forall id <- ids :: id in data
    ensures |Pairs(ids, data)| == 2 * |ids|
  {
    if ids != [] {
      PairsLength(ids[..|ids| - 1], data);
    }
  }

  lemma {:induction false} CaseGivesOwnTime(ids: seq<int>, data: map<int, int>, rest: seq<Arg>, id: int)
    requires forall i <- ids :: i in data
    ensures |Pairs(ids, data)| == 2 * |ids|
    ensures CaseOf(Pairs(ids, data) + rest, |ids|, id) == if id in ids then Some(data[id]) else None
  {
    PairsLength(ids, data);
    if ids != [] {
      var front, last := ids[..|ids| - 1], ids[|ids| - 1];
      PairsLength(front, data);
      var own := [Id(last), Time(data[last])];
      CaseGivesOwnTime(front, data, own + rest, id);
      assert Pairs(ids, data) + rest == Pairs(front, data) + (own + rest);
    }
  }

  /** Built for any enumeration of the data, the statement overwrites exactly the listed rows, each
      with its own time. */
  lemma CaseOverwrites(rows: Rows, ids: seq<int>, data: map<int, int>)
    requires forall id :: id in ids <==> id in data
    ensures |Pairs(ids, data) + Ids(ids)| == 3 * |ids|
    ensures ExecCase(rows, Pairs(ids, data) + Ids(ids), |ids|) == Overwrite(rows, data)
  {
    PairsLength(ids, data);
    var args := Pairs(ids, data) + Ids(ids);
    assert args[2 * |ids|..] == Ids(ids);
    forall id | id in rows
      ensures Id(id) in Ids(ids) <==> id in ids
      ensures CaseOf(args, |ids|, id) == if id in ids then Some(data[id]) else None
    {
      CaseGivesOwnTime(ids, data, Ids(ids), id);
      if id in ids {
        var i :| 0 <= i < |ids| && ids[i] == id;
        assert Ids(ids)[i] == Id(id);
      }
    }
  }

  // ----- chunks -----

  function Union(chunks: seq<map<int, int>>): map<int, int> {
    if chunks == [] then map[] else Union(chunks[..|chunks| - 1]) + chunks[|chunks| - 1]
  }

  predicate Apart(chunks: seq<map<int, int>>) {
    forall i, j | 0 <= i < j < |chunks| :: chunks[i].Keys !! chunks[j].Keys
  }

  /** The chunks share no key, are neither empty nor too big, and are the data together. */
  predicate Chunked(chunks: seq<map<int, int>>, data: map<int, int>) {
    && Union(chunks) == data && Apart(chunks)
    && forall c <- chunks :: 0 < |c| <= CHUNK
  }

  // What holds of the chunks already cut off.
  predicate CutOff(chunks: seq<map<int, int>>) {
    && Apart(chunks)
    && forall c <- chunks :: c.Keys <= Union(chunks).Keys && 0 < |c| <= CHUNK
  }

  lemma CutAnother(chunks: seq<map<int, int>>, chunk: map<int, int>)
    requires CutOff(chunks) && chunk.Keys !! Union(chunks).Keys && 0 < |chunk| <= CHUNK
    ensures CutOff(chunks + [chunk]) && Union(chunks + [chunk]) == Union(chunks) + chunk
  {
    var t := chunks + [chunk];
    assert t[..|chunks|] == chunks;
    forall i, j | 0 <= i < j < |t| ensures t[i].Keys !! t[j].Keys {
      if j == |chunks| {
        assert t[i] in chunks;
      }
    }
  }

  // A chunk is being filled, and what is left has not been visited.
  predicate Splitting(chunks: seq<map<int, int>>, chunk: map<int, int>, data: map<int, int>, left: set<int>) {
    CutOff(chunks) && chunk.Keys !! Union(chunks).Keys && Union(chunks) + chunk == data - left
  }

  lemma FillOne(before: map<int, int>, chunk: map<int, int>, data: map<int, int>, left: set<int>, id: int)
    requires before.Keys !! chunk.Keys && before + chunk == data - left && id in left && id in data
    ensures id !in before && id !in chunk
    ensures before + chunk[id := data[id]] == data - (left - {id})
  {
    assert id !in data - left;
    assert id !in (before + chunk);
  }

  lemma FillChunk(chunks: seq<map<int, int>>, chunk: map<int, int>, data: map<int, int>, left: set<int>, id: int)
    requires Splitting(chunks, chunk, data, left) && id in left && id in data
    ensures id !in chunk && Splitting(chunks, chunk[id := data[id]], data, left - {id})
  {
    FillOne(Union(chunks), chunk, data, left, id);
  }

  lemma CutChunk(chunks: seq<map<int, int>>, chunk: map<int, int>, data: map<int, int>, left: set<int>)
    requires Splitting(chunks, chunk, data, left) && 0 < |chunk| <= CHUNK
    ensures Splitting(chunks + [chunk], map[], data, left)
  {
    CutAnother(chunks, chunk);
  }

  // Each id of the data that is not left has been visited once.
  predicate Visited(order: seq<int>, data: map<int, int>, left: set<int>) {
    && (forall i | 0 <= i < |order| :: order[i] in data && order[i] !in left)
    && (forall id | id in data && id !in left :: id in order)
    && (forall i, j | 0 <= i < j < |order| :: order[i] != order[j])
  }

  lemma VisitOne(order: seq<int>, data: map<int, int>, left: set<int>, id: int)
    requires Visited(order, data, left) && id in left && id in data
    ensures Visited(order + [id], data, left - {id})
  {
  }

  lemma Unvisit(order: seq<int>, data: map<int, int>, left: set<int>)
    requires order != [] && Visited(order, data, left)
    ensures Visited(order[..|order| - 1], data, left + {order[|order| - 1]})
  {
    assert order == order[..|order| - 1] + [order[|order| - 1]];
  }

  // The chunks cut off, and the one being filled, after visiting these ids.
  function Cut(data: map<int, int>, order: seq<int>): (seq<map<int, int>>, map<int, int>)
    requires forall i | 0 <= i < |order| :: order[i] in data
  {
    if order == [] then ([], map[])
    else
      var (chunks, chunk) := Cut(data, order[..|order| - 1]);
      var filled := chunk[order[|order| - 1] := data[order[|order| - 1]]];
      if |order| % CHUNK == 0 then (chunks + [filled], map[]) else (chunks, filled)
  }

  lemma HasElement(s: set<int>)
    ensures s == {} || exists x :: x in s
  {
    if forall x :: x !in s {
      assert s == {};
    }
  }

  lemma NothingCut(data: map<int, int>, left: set<int>)
    requires forall id | id in data :: id in left
    ensures Splitting([], map[], data, left)
  {
    HasElement((data - left).Keys);
  }

  lemma {:induction false} CutSplits(data: map<int, int>, order: seq<int>, left: set<int>)
    requires Visited(order, data, left)
    ensures |Cut(data, order).1| == |order| % CHUNK
    ensures forall i | 0 <= i < |Cut(data, order).0| :: |Cut(data, order).0[i]| == 500
    ensures Splitting(Cut(data, order).0, Cut(data, order).1, data, left)
  {
    if order == [] {
      assert forall id | id in data :: id in left || id in order;
      NothingCut(data, left);
    } else {
      var rest, last := order[..|order| - 1], order[|order| - 1];
      Unvisit(order, data, left);
      CutSplits(data, rest, left + {last});
      assert left + {last} - {last} == left;
      CutNext(Cut(data, rest).0, Cut(data, rest).1, data, left + {last}, last, |order|);
    }
  }

  lemma OneMore(chunk: map<int, int>, id: int, time: int)
    requires id !in chunk
    ensures |chunk[id := time]| == |chunk| + 1
  {
  }

  lemma FillCount(n: nat)
    requires n > 0
    ensures (n - 1) % CHUNK + 1 == if n % CHUNK == 0 then CHUNK else n % CHUNK
  {
  }

  lemma CutNext(chunks: seq<map<int, int>>, chunk: map<int, int>, data: map<int, int>, left: set<int>, id: int, n: nat)
    requires Splitting(chunks, chunk, data, left) && id in left && id in data
    requires n > 0 && |chunk| == (n - 1) % CHUNK
    ensures var filled := chunk[id := data[id]];
      if n % CHUNK == 0 then Splitting(chunks + [filled], map[], data, left - {id}) && |filled| == CHUNK
      else Splitting(chunks, filled, data, left - {id}) && |filled| == n % CHUNK
  {
    FillChunk(chunks, chunk, data, left, id);
    var filled := chunk[id := data[id]];
    OneMore(chunk, id, data[id]);
    FillCount(n);
    if n % CHUNK == 0 {
      CutChunk(chunks, filled, data, left - {id});
    }
  }

  /** Cutting along any enumeration of the data chunks it, and every chunk but the last is full. */
  lemma CutIsChunked(data: map<int, int>, order: seq<int>)
    requires Visited(order, data, {})
    ensures var (chunks, chunk) := Cut(data, order);
      && Chunked(if |chunk| > 0 then chunks + [chunk] else chunks, data)
      && |chunk| < 500 && forall i | 0 <= i < |chunks| :: |chunks[i]| == 500
  {
    CutSplits(data, order, {});
    var (chunks, chunk) := Cut(data, order);
    assert data - {} == data;
    if |chunk| > 0 {
      CutAnother(chunks, chunk);
    }
  }

  function WriteAll(rows: Rows, chunks: seq<map<int, int>>): Rows {
    if chunks == [] then rows else Overwrite(WriteAll(rows, chunks[..|chunks| - 1]), chunks[|chunks| - 1])
  }

  /** Writing chunk by chunk is one pointwise update. */
  lemma {:induction false} ChunksOverwrite(rows: Rows, chunks: seq<map<int, int>>)
    ensures WriteAll(rows, chunks) == Overwrite(rows, Union(chunks))
  {
    if chunks != [] {
      ChunksOverwrite(rows, chunks[..|chunks| - 1]);
    }
  }

  // ----- the joined statement -----

  // What the two parallel arrays give for an id.
  function Joined(ids: seq<int>, times: seq<int>, id: int): Option<int>
    requires |ids| == |times|
  {
    if ids == [] then None
    else if ids[0] == id then Some(times[0])
    else Joined(ids[1..], times[1..], id)
  }

  function ExecJoin(rows: Rows, ids: seq<int>, times: seq<int>): Rows
    requires |ids| == |times|
  {
    map id | id in rows :: var t := Joined(ids, times, id); if t.Some? then t else rows[id]
  }

  lemma {:induction false} JoinedGivesOwnTime(ids: seq<int>, times: seq<int>, data: map<int, int>, id: int)
    requires |ids| == |times| && forall i | 0 <= i < |ids| :: ids[i] in data && times[i] == data[ids[i]]
    ensures Joined(ids, times, id) == if id in ids then Some(data[id]) else None
  {
    if ids != [] {
      JoinedGivesOwnTime(ids[1..], times[1..], data, id);
      assert ids == [ids[0]] + ids[1..];
    }
  }

  lemma JoinOverwrites(rows: Rows, ids: seq<int>, times: seq<int>, data: map<int, int>)
    requires |ids| == |times| && forall i | 0 <= i < |ids| :: ids[i] in data && times[i] == data[ids[i]]
    requires forall id :: id in ids <==> id in data
    ensures ExecJoin(rows, ids, times) == Overwrite(rows, data)
  {
    forall id | id in rows ensures Joined(ids, times, id) == if id in ids then Some(data[id]) else None {
      JoinedGivesOwnTime(ids, times, data, id);
    }
  }

  // ----- grouping by time -----

  datatype Sighting = Sighting(id: int, time: int)

  type Groups = map<int, seq<int>>

  function GroupOf(groups: Groups, time: int): seq<int> {
    if time in groups then groups[time] else []
  }

  function Grouped(seen: seq<Sighting>): Groups {
    if seen == [] then map[]
    else
      var earlier, s := Grouped(seen[..|seen| - 1]), seen[|seen| - 1];
      earlier[s.time := GroupOf(earlier, s.time) + [s.id]]
  }

  function SetTime(rows: Rows, ids: seq<int>, time: int): Rows {
    map id | id in rows :: if id in ids then Some(time) else rows[id]
  }

  function WriteGroups(rows: Rows, groups: Groups, order: seq<int>): Rows {
    if order == [] then rows
    else
      var time := order[|order| - 1];
      SetTime(WriteGroups(rows, groups, order[..|order| - 1]), GroupOf(groups, time), time)
  }

  function WriteEach(rows: Rows, seen: seq<Sighting>): Rows {
    if seen == [] then rows
    else SetTime(WriteEach(rows, seen[..|seen| - 1]), [seen[|seen| - 1].id], seen[|seen| - 1].time)
  }

  // The keys that could be read and parsed.
  function Parsed(items: seq<Option<Sighting>>): seq<Sighting> {
    if items == [] then []
    else
      var last := items[|items| - 1];
      Parsed(items[..|items| - 1]) + if last.Some? then [last.value] else []
  }

  lemma GroupNext(items: seq<Option<Sighting>>, item: Option<Sighting>)
    ensures Parsed(items + [item]) == if item.Some? then Parsed(items) + [item.value] else Parsed(items)
    ensures Grouped(Parsed(items + [item])) ==
      if item.None? then Grouped(Parsed(items))
      else
        var g := Grouped(Parsed(items));
        g[item.value.time := GroupOf(g, item.value.time) + [item.value.id]]
  {
    assert (items + [item])[..|items|] == items;
    if item.Some? {
      assert (Parsed(items) + [item.value])[..|Parsed(items)|] == Parsed(items);
    }
  }

  // One time an id: the store has one key an id.
  predicate OneTimeEach(seen: seq<Sighting>) {
    forall a, b | a in seen && b in seen && a.id == b.id :: a == b
  }

  lemma {:induction false} GroupMembers(seen: seq<Sighting>)
    ensures forall id, time :: id in GroupOf(Grouped(seen), time) <==> Sighting(id, time) in seen
    ensures forall time :: time in Grouped(seen) ==> exists s <- seen :: s.time == time
  {
    if seen != [] {
      var rest, s := seen[..|seen| - 1], seen[|seen| - 1];
      GroupMembers(rest);
      assert seen == rest + [s];
    }
  }

  lemma {:induction false} EachWrites(rows: Rows, seen: seq<Sighting>, id: int)
    requires OneTimeEach(seen) && id in rows
    ensures id in WriteEach(rows, seen)
    ensures forall time :: Sighting(id, time) in seen ==> WriteEach(rows, seen)[id] == Some(time)
    ensures (forall s <- seen :: s.id != id) ==> WriteEach(rows, seen)[id] == rows[id]
  {
    if seen != [] {
      var rest, s := seen[..|seen| - 1], seen[|seen| - 1];
      assert seen == rest + [s];
      EachWrites(rows, rest, id);
    }
  }

  lemma {:induction false} GroupsWrite(rows: Rows, seen: seq<Sighting>, order: seq<int>, id: int)
    requires OneTimeEach(seen) && id in rows
    ensures id in WriteGroups(rows, Grouped(seen), order)
    ensures forall time :: Sighting(id, time) in seen && time in order
              ==> WriteGroups(rows, Grouped(seen), order)[id] == Some(time)
    ensures (forall s <- seen :: s.id != id) ==> WriteGroups(rows, Grouped(seen), order)[id] == rows[id]
  {
    if order != [] {
      var rest, t := order[..|order| - 1], order[|order| - 1];
      assert order == rest + [t];
      GroupsWrite(rows, seen, rest, id);
      GroupMembers(seen);
    }
  }

  /** Grouping ids by time and writing the groups in any order is writing each id on its own. */
  lemma GroupingIsPerId(rows: Rows, seen: seq<Sighting>, order: seq<int>)
    requires OneTimeEach(seen) && forall time :: time in order <==> time in Grouped(seen)
    ensures WriteGroups(rows, Grouped(seen), order) == WriteEach(rows, seen)
  {
    SameRows(rows, seen, order);
    forall id | id in rows
      ensures id in WriteGroups(rows, Grouped(seen), order) && id in WriteEach(rows, seen)
      ensures WriteGroups(rows, Grouped(seen), order)[id] == WriteEach(rows, seen)[id]
    {
      EachWrites(rows, seen, id);
      GroupsWrite(rows, seen, order, id);
      GroupMembers(seen);
      if s :| s in seen && s.id == id {
        assert s.id in GroupOf(Grouped(seen), s.time);
        assert Sighting(id, s.time) in seen;
      }
    }
  }

  lemma {:induction false} EachKeepsKeys(rows: Rows, seen: seq<Sighting>)
    ensures WriteEach(rows, seen).Keys == rows.Keys
  {
    if seen != [] {
      EachKeepsKeys(rows, seen[..|seen| - 1]);
    }
  }

  lemma {:induction false} SameRows(rows: Rows, seen: seq<Sighting>, order: seq<int>)
    ensures WriteGroups(rows, Grouped(seen), order).Keys == rows.Keys == WriteEach(rows, seen).Keys
  {
    EachKeepsKeys(rows, seen);
    if order != [] {
      SameRows(rows, seen, order[..|order| - 1]);
    }
  }
}
