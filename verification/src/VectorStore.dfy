/**
 The store itself: the directory's files and tables are updated in place, step by step, and each
 method is tied to the function of the disk that the lemmas speak about.
 */
module VectorStore {
  import opened Prelude
  import opened Sorting
  import opened VectorTables
  import opened VectorFacts
  import opened VectorSearch

  datatype Outcome = Done | Failed

  /** The directory a store lives in; it outlives every process that opens it. */
  class Directory {
    var vectors: Option<seq<Vec>>
    var tmp: Option<seq<Vec>>
    var db: Option<Tables>

    function Snapshot(): Disk
      reads this
    {
      Disk(vectors, tmp, db)
    }

    constructor ()
      ensures Snapshot() == EMPTY_DISK && Inv(Snapshot())
    {
      vectors, tmp, db := None, None, None;
    }
  }

  class VectorStore {
    const dir: Directory
    const dims: nat

    ghost predicate Valid()
      reads dir
    {
      Inv(dir.Snapshot()) && dir.db.Some? && dir.db.value.dims == dims
    }

    constructor (dir: Directory, dims: nat)
      requires Inv(dir.Snapshot()) && dir.db.Some? && dir.db.value.dims == dims
      ensures Valid() && this.dir == dir && this.dims == dims
    {
      this.dir, this.dims := dir, dims;
    }

    static method Open(dir: Directory, dims: nat, stop: OpenStop) returns (store: VectorStore?)
      requires Inv(dir.Snapshot())
      modifies dir
      ensures dir.Snapshot() == OpenDisk(old(dir.Snapshot()), dims, stop)
      ensures Inv(dir.Snapshot()) && Denotes(dir.Snapshot()) == old(Denotes(dir.Snapshot()))
      ensures store != null <==> stop == NoOpenStop && (old(dir.db).Some? ==> old(dir.db).value.dims == dims)
      ensures store != null ==> store.Valid() && store.dir == dir && store.dims == dims
    {
      OpenDenotes(dir.Snapshot(), dims, stop);
      if stop == BeforeTmpRemoved { return null; }
      dir.tmp := None;
      if stop == BeforeFileCreated { return null; }
      if dir.vectors.None? {
        dir.vectors := Some([]);
      }
      if stop == BeforeTablesCommitted { return null; }
      if dir.db.Some? {
        if dir.db.value.dims != dims { return null; }
      } else {
        dir.db := Some(Tables(dims, 0, map[], map[], {}, {}));
      }
      store := new VectorStore(dir, dims);
    }

    /** The transaction's table updates: vacate the chunk's old row, then take the least free row or the next one. */
    static method TakeRow(tables: Tables, id: ChunkId) returns (row: nat, t: Tables)
      ensures row == ChosenRow(tables, id) && t == StageAdd(tables, id) && t.dims == tables.dims
    {
      t := tables;
      if id in t.chunkToRow {
        var oldRow := t.chunkToRow[id];
        t := t.(tombstones := t.tombstones + {oldRow}, freeRows := t.freeRows + {oldRow},
                rowToChunk := t.rowToChunk - {oldRow});
      }
      if t.freeRows != {} {
        LeastExists(t.freeRows);
        row :| row in t.freeRows && forall q :: q in t.freeRows ==> row <= q;
        t := t.(freeRows := t.freeRows - {row}, tombstones := t.tombstones - {row});
      } else {
        row := t.nextRow;
        t := t.(nextRow := row + 1);
      }
      t := t.(chunkToRow := t.chunkToRow[id := row], rowToChunk := t.rowToChunk[row := id]);
    }

    method Add(id: ChunkId, vec: Vec, stop: AddStop) returns (r: Outcome)
      requires Valid()
      modifies dir
      ensures Valid()
      ensures dir.Snapshot() == AddDisk(old(dir.Snapshot()), id, vec, stop)
      ensures r.Done? <==> |vec| == dims && stop == NoStop
      ensures r.Done? ==> Denotes(dir.Snapshot()) == old(Denotes(dir.Snapshot()))[id := vec]
    {
      hide Denotes, TablesInv, LiveRows, StageAdd, ChosenRow, Grow;
      AddDenotes(dir.Snapshot(), id, vec, stop);
      if |vec| != dims { return Failed; }
      var row, t := TakeRow(dir.db.value, id);
      if stop == BeforeGrow { return Failed; }
      dir.vectors := Some(Grow(dir.vectors.value, row, dims));
      if stop == BeforeWrite { return Failed; }
      dir.vectors := Some(dir.vectors.value[row := vec]);
      if stop == BeforeCommit { return Failed; }
      dir.db := Some(t);
      return Done;
    }

    method Remove(id: ChunkId, stopped: bool) returns (r: Outcome)
      requires Valid()
      modifies dir
      ensures Valid()
      ensures dir.Snapshot() == RemoveDisk(old(dir.Snapshot()), id, stopped)
      ensures r.Done? <==> !stopped
      ensures Denotes(dir.Snapshot()) == if stopped then old(Denotes(dir.Snapshot()))
              else old(Denotes(dir.Snapshot())) - {id}
    {
      RemoveDenotes(dir.Snapshot(), id, stopped);
      var t := dir.db.value;
      if id in t.chunkToRow {
        var row := t.chunkToRow[id];
        t := t.(chunkToRow := t.chunkToRow - {id}, rowToChunk := t.rowToChunk - {row});
        t := t.(tombstones := t.tombstones + {row}, freeRows := t.freeRows + {row});
      }
      if stopped { return Failed; }
      dir.db := Some(t);
      return Done;
    }

    /** Walks the live rows in ascending order, as the tables' key order gives them. */
    method LiveEntries() returns (rows: seq<nat>)
      requires Valid()
      ensures rows == LiveRows(dir.db.value)
    {
      var t := dir.db.value;
      rows := [];
      for row := 0 to t.nextRow
        invariant rows == LiveBelow(t, row)
      {
        if row in t.rowToChunk && row !in t.tombstones {
          rows := rows + [row];
        }
      }
    }

    /** Copies the live rows into a new tmp file, or only the first `stop.n` of them. */
    method CopyRows(rows: seq<nat>, stop: CompactStop) returns (finished: bool)
      requires Valid() && rows == LiveRows(dir.db.value)
      modifies dir`tmp
      ensures finished <==> !stop.AfterRows?
      ensures dir.tmp.Some?
      ensures var packed := Gather(dir.vectors.value, rows);
              dir.tmp.value == if stop.AfterRows? then packed[..Min(stop.n, |packed|)] else packed
    {
      ghost var packed := Gather(dir.vectors.value, rows);
      dir.tmp := Some([]);
      var k := 0;
      while k < |rows|
        invariant 0 <= k <= |rows|
        invariant stop.AfterRows? ==> k <= stop.n
        invariant dir.tmp.Some? && dir.tmp.value == packed[..k]
      {
        if stop.AfterRows? && k == stop.n { return false; }
        assert packed[..k + 1] == packed[..k] + [packed[k]];
        dir.tmp := Some(dir.tmp.value + [dir.vectors.value[rows[k]]]);
        k := k + 1;
      }
      finished := !stop.AfterRows?;
    }

    /** The tables against the new row numbering. */
    method Renumbered(rows: seq<nat>) returns (t: Tables)
      requires Valid() && rows == LiveRows(dir.db.value)
      ensures t == StageCompact(dir.db.value)
    {
      var rowToOldChunk := dir.db.value.rowToChunk;
      var chunkToRow: map<ChunkId, nat>, rowToChunk: map<nat, ChunkId> := map[], map[];
      ghost var names := LiveNames(dir.db.value);
      for i := 0 to |rows|
        invariant chunkToRow == Positions(names[..i]) && rowToChunk == Numbered(names[..i])
      {
        var id := rowToOldChunk[rows[i]];
        assert names[..i + 1][..i] == names[..i];
        chunkToRow, rowToChunk := chunkToRow[id := i], rowToChunk[i := id];
      }
      assert names[..|rows|] == names;
      t := Tables(dims, |rows|, chunkToRow, rowToChunk, {}, {});
    }

    method Compact(stop: CompactStop) returns (r: Outcome)
      requires Valid()
      modifies dir
      ensures Valid()
      ensures dir.Snapshot() == CompactDisk(old(dir.Snapshot()), stop)
      ensures r.Done? <==> stop == NoCompactStop
      ensures stop != BeforeRename ==> Denotes(dir.Snapshot()) == old(Denotes(dir.Snapshot()))
    {
      CompactDenotes(dir.Snapshot(), stop);
      var rows := LiveEntries();
      if stop == BeforeTmp { return Failed; }
      var finished := CopyRows(rows, stop);
      if !finished { return Failed; }
      var t := Renumbered(rows);
      dir.db := Some(t);
      if stop == BeforeRename { return Failed; }
      dir.vectors, dir.tmp := dir.tmp, None;
      return Done;
    }

    /** The best `topK` chunks for `query`, capped at MAX_TOP_K. */
    method Search(query: Vec, topK: nat) returns (hits: seq<Hit>)
      requires Valid()
      ensures hits == SearchHits(dir.Snapshot(), query, topK)
    {
      if topK == 0 || |query| != dims { return []; }
      var t, vectors := dir.db.value, dir.vectors.value;
      var scored := [];
      for row := 0 to t.nextRow
        invariant scored == Scored(t, vectors, query, LiveBelow(t, row))
      {
        if row in t.rowToChunk && row !in t.tombstones {
          scored := scored + [Hit(t.rowToChunk[row], Dot(query, vectors[row]))];
        }
      }
      hits := Take(StableSort(scored, ScoresHigher), Min(topK, MAX_TOP_K));
    }

    method Len() returns (n: nat)
      requires Valid()
      ensures n == |Denotes(dir.Snapshot())|
    {
      var rows := LiveEntries();
      SlotCount(dir.db.value);
      assert Denotes(dir.Snapshot()).Keys == dir.db.value.chunkToRow.Keys;
      n := |rows|;
    }
  }
}
