/** The bulk last-seen writers as loops over a map, in whatever order it is visited, proved to be
    the pointwise updates of LastSeen. */
module LastSeenWriter {
  import opened Options
  import opened LastSeen

  method Keys(data: map<int, int>) returns (ids: seq<int>)
    ensures |ids| == |data| && (forall id :: id in ids <==> id in data)
    ensures forall i | 0 <= i < |ids| :: ids[i] in data
  {
    ids := [];
    var left := data.Keys;
    assert |data.Keys| == |data|;
    while left != {}
      invariant left <= data.Keys && |ids| == |data| - |left|
      invariant forall id :: id in ids <==> id in data && id !in left
      invariant forall i | 0 <= i < |ids| :: ids[i] in data
      decreases |left|
    {
      HasElement(left);
      var id :| id in left;
      ids := ids + [id];
      left := left - {id};
    }
  }

  /** The built statement has as many place holders as arguments, and running it on any table
      overwrites exactly the rows of the data. */
  method BuildCase(data: map<int, int>) returns (query: seq<Piece>, args: seq<Arg>)
    requires |data| > 0
    ensures query == Sql(|data|) && Marks(query) == |args| == 3 * |data|
    ensures forall rows :: ExecCase(rows, args, |data|) == Overwrite(rows, data)
  {
    var ids := Keys(data);
    query, args := HEAD, [];
    for i := 0 to |ids|
      invariant query == HEAD + Repeat(WHEN + THEN + [Words(" ")], i)
      invariant args == Pairs(ids[..i], data)
    {
      ghost var pair := WHEN + THEN + [Words(" ")];
      assert query + pair == HEAD + (Repeat(pair, i) + pair);
      query := query + (WHEN + THEN + [Words(" ")]);
      args := args + [Id(ids[i]), Time(data[ids[i]])];
      assert ids[..i + 1][..i] == ids[..i];
    }
    assert ids[..|ids|] == ids;
    ghost var pairs := args;
    query := query + (LIST + Repeat(NEXT, |ids| - 1) + TAIL);
    args := args + [Id(ids[0])];
    for i := 1 to |ids|
      invariant args == pairs + Ids(ids[..i])
    {
      assert Ids(ids[..i + 1]) == Ids(ids[..i]) + [Id(ids[i])];
      args := args + [Id(ids[i])];
    }
    SqlMarks(|ids|);
    PairsLength(ids, data);
    assert ids[..|ids|] == ids;
    forall rows ensures |args| == 3 * |ids| && ExecCase(rows, args, |ids|) == Overwrite(rows, data) {
      CaseOverwrites(rows, ids, data);
    }
  }

  /** Chunks of at most 500 that share no key and are the data together. */
  method Split(data: map<int, int>) returns (chunks: seq<map<int, int>>)
    ensures Chunked(chunks, data)
  {
    chunks := [];
    var chunk: map<int, int> := map[];
    var i := 0;
    ghost var order: seq<int> := [];
    var left := data.Keys;
    while left != {}
      invariant left <= data.Keys && i == |order| && Visited(order, data, left)
      invariant (chunks, chunk) == Cut(data, order)
      decreases |left|
    {
      HasElement(left);
      var id :| id in left;
      chunk := chunk[id := data[id]];
      i := i + 1;
      if i % CHUNK == 0 {
        chunks := chunks + [chunk];
        chunk := map[];
      }
      assert (order + [id])[..|order|] == order;
      VisitOne(order, data, left, id);
      order := order + [id];
      left := left - {id};
    }
    if |chunk| > 0 {
      chunks := chunks + [chunk];
    }
    CutIsChunked(data, order);
  }

  class Repository {
    var rows: Rows
    const postgres: bool

    constructor (rows: Rows, postgres: bool)
      ensures this.rows == rows && this.postgres == postgres
    {
      this.rows, this.postgres := rows, postgres;
    }

    method BulkUpdateCase(data: map<int, int>)
      requires |data| > 0
      modifies this
      ensures rows == Overwrite(old(rows), data)
    {
      var _, args := BuildCase(data);
      rows := ExecCase(rows, args, |data|);
    }

    method BulkUpdateJoin(data: map<int, int>)
      modifies this
      ensures rows == Overwrite(old(rows), data)
    {
      var ids := Keys(data);
      var times: seq<int> := [];
      for i := 0 to |ids|
        invariant |times| == i && forall j | 0 <= j < i :: times[j] == data[ids[j]]
      {
        times := times + [data[ids[i]]];
      }
      JoinOverwrites(rows, ids, times, data);
      rows := ExecJoin(rows, ids, times);
    }

    /** On either database, in chunks or not, one bulk update is one pointwise update. */
    method BulkUpdateLastSeen(data: map<int, int>)
      modifies this
      ensures rows == Overwrite(old(rows), data)
    {
      if |data| == 0 {
        return;
      }
      if postgres {
        BulkUpdateJoin(data);
        return;
      }
      if |data| > CHUNK {
        var chunks := Split(data);
        for i := 0 to |chunks|
          invariant rows == WriteAll(old(rows), chunks[..i])
        {
          BulkUpdateCase(chunks[i]);
          assert chunks[..i + 1][..i] == chunks[..i];
        }
        assert chunks[..|chunks|] == chunks;
        ChunksOverwrite(old(rows), chunks);
        return;
      }
      BulkUpdateCase(data);
    }

    method BulkSetTime(ids: seq<int>, time: int)
      modifies this
      ensures rows == SetTime(old(rows), ids, time)
    {
      rows := SetTime(rows, ids, time);
    }

    static method GroupByTime(items: seq<Option<Sighting>>) returns (grouped: Groups)
      ensures grouped == Grouped(Parsed(items))
    {
      grouped := map[];
      for i := 0 to |items|
        invariant grouped == Grouped(Parsed(items[..i]))
      {
        assert items[..i + 1] == items[..i] + [items[i]];
        GroupNext(items[..i], items[i]);
        if items[i].Some? {
          var s := items[i].value;
          grouped := grouped[s.time := GroupOf(grouped, s.time) + [s.id]];
        }
      }
      assert items[..|items|] == items;
    }

    method UpdateGroups(grouped: Groups) returns (ghost order: seq<int>)
      modifies this
      ensures forall time :: time in order <==> time in grouped
      ensures rows == WriteGroups(old(rows), grouped, order)
    {
      order := [];
      var left := grouped.Keys;
      while left != {}
        invariant left <= grouped.Keys
        invariant forall time :: time in order <==> time in grouped && time !in left
        invariant rows == WriteGroups(old(rows), grouped, order)
        decreases |left|
      {
        HasElement(left);
        var time :| time in left;
        BulkSetTime(grouped[time], time);
        assert (order + [time])[..|order|] == order;
        order := order + [time];
        left := left - {time};
      }
    }

    /** One batch of the stream: group the ids by time, then one update a group. */
    method SyncBatch(items: seq<Option<Sighting>>)
      modifies this
      ensures OneTimeEach(Parsed(items)) ==> rows == WriteEach(old(rows), Parsed(items))
    {
      var grouped := GroupByTime(items);
      ghost var order := UpdateGroups(grouped);
      if OneTimeEach(Parsed(items)) {
        GroupingIsPerId(old(rows), Parsed(items), order);
      }
    }
  }
}
