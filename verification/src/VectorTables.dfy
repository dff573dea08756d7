/**
 The flat vector store: packed rows in `vectors.bin`, and committed tables that say which row
 holds which chunk. Every durable step can be the last one: each operation takes the step before
 which the process stops, whether by an error return or by a crash.

 The tables are redb's, so a transaction is a private copy of `Tables` that becomes the
 committed one in a single step. A row write replaces one whole row.
 */
module VectorTables {
  import opened Prelude

  type ChunkId = string
  type Vec = seq<real>

  /** The committed redb tables, with the two header values `dims` and `next_row`. */
  datatype Tables = Tables(
    dims: nat,
    nextRow: nat,
    chunkToRow: map<ChunkId, nat>,
    rowToChunk: map<nat, ChunkId>,
    tombstones: set<nat>,
    freeRows: set<nat>)

  /** What is on disk: `vectors.bin`, `vectors.bin.tmp`, and the tables once they exist. */
  datatype Disk = Disk(vectors: Option<seq<Vec>>, tmp: Option<seq<Vec>>, db: Option<Tables>)

  const EMPTY_DISK := Disk(None, None, None)

  /** The slot accounting every committed state keeps. */
  ghost predicate TablesInv(t: Tables) {
    && (forall id :: id in t.chunkToRow ==>
          t.chunkToRow[id] in t.rowToChunk && t.rowToChunk[t.chunkToRow[id]] == id)
    && (forall r :: r in t.rowToChunk ==>
          t.rowToChunk[r] in t.chunkToRow && t.chunkToRow[t.rowToChunk[r]] == r)
    && t.tombstones == t.freeRows
    && t.freeRows !! t.rowToChunk.Keys
    && (forall r: nat :: r in t.freeRows || r in t.rowToChunk <==> r < t.nextRow)
  }

  ghost predicate Inv(d: Disk) {
    if d.db.None? then d.vectors.None? || d.vectors.value == []
    else
      && d.vectors.Some?
      && TablesInv(d.db.value)
      && d.db.value.nextRow <= |d.vectors.value|
      && (forall r :: 0 <= r < |d.vectors.value| ==> |d.vectors.value[r]| == d.db.value.dims)
  }

  /** The abstract content of a store: the vector of every chunk it holds. */
  ghost function Denotes(d: Disk): map<ChunkId, Vec>
    requires Inv(d)
  {
    if d.db.None? then map[] else RowsOf(d.db.value.chunkToRow, d.vectors.value)
  }

  ghost function RowsOf(rows: map<ChunkId, nat>, vectors: seq<Vec>): map<ChunkId, Vec>
    requires forall id :: id in rows ==> rows[id] < |vectors|
  {
    map id | id in rows :: vectors[rows[id]]
  }

  // ---- adding ----

  datatype AddStop = NoStop | BeforeGrow | BeforeWrite | BeforeCommit

  /** redb iterates in key order, so the first free row is the least one. */
  ghost predicate IsLeast(r: nat, rows: set<nat>) {
    r in rows && forall q :: q in rows ==> r <= q
  }

  lemma {:induction false} LeastExists(rows: set<nat>)
    requires rows != {}
    ensures exists r :: IsLeast(r, rows)
    decreases rows
  {
    var r :| r in rows;
    if rows == {r} {
      assert IsLeast(r, rows);
    } else {
      LeastExists(rows - {r});
      var q :| IsLeast(q, rows - {r});
      assert forall x :: x in rows ==> x == r || x in rows - {r};
      if q < r {
        assert IsLeast(q, rows);
      } else {
        assert IsLeast(r, rows);
      }
    }
  }

  ghost function Least(rows: set<nat>): (r: nat)
    requires rows != {}
    ensures IsLeast(r, rows)
  {
    LeastExists(rows);
    var r :| IsLeast(r, rows);
    r
  }

  /** A chunk that is already stored gives up its row before a row is chosen. */
  function Vacate(t: Tables, id: ChunkId): Tables {
    if id in t.chunkToRow then
      var row := t.chunkToRow[id];
      t.(tombstones := t.tombstones + {row}, freeRows := t.freeRows + {row}, rowToChunk := t.rowToChunk - {row})
    else
      t
  }

  ghost function ChosenRow(t: Tables, id: ChunkId): nat {
    var v := Vacate(t, id);
    if v.freeRows != {} then Least(v.freeRows) else v.nextRow
  }

  ghost function StageAdd(t: Tables, id: ChunkId): Tables {
    var v := Vacate(t, id);
    var row := ChosenRow(t, id);
    var taken :=
      if v.freeRows != {} then v.(freeRows := v.freeRows - {row}, tombstones := v.tombstones - {row})
      else v.(nextRow := v.nextRow + 1);
    taken.(chunkToRow := taken.chunkToRow[id := row], rowToChunk := taken.rowToChunk[row := id])
  }

  /** Extending the file fills the new rows with zeros. */
  function Grow(vectors: seq<Vec>, row: nat, dims: nat): (r: seq<Vec>)
    ensures |r| == if row < |vectors| then |vectors| else row + 1
    ensures vectors <= r
    ensures forall k :: |vectors| <= k < |r| ==> |r[k]| == dims
  {
    if row < |vectors| then vectors
    else vectors + seq(row + 1 - |vectors|, _ => seq(dims, _ => 0.0))
  }

  ghost function AddDisk(d: Disk, id: ChunkId, vec: Vec, stop: AddStop): Disk {
    if d.db.None? || d.vectors.None? || |vec| != d.db.value.dims || stop == BeforeGrow then d
    else
      var t := d.db.value;
      var row := ChosenRow(t, id);
      var grown := Grow(d.vectors.value, row, t.dims);
      if stop == BeforeWrite then d.(vectors := Some(grown))
      else
        var written := d.(vectors := Some(grown[row := vec]));
        if stop == BeforeCommit then written else written.(db := Some(StageAdd(t, id)))
  }

  // ---- removing ----

  function StageRemove(t: Tables, id: ChunkId): Tables {
    if id in t.chunkToRow then
      var row := t.chunkToRow[id];
      t.(chunkToRow := t.chunkToRow - {id}, rowToChunk := t.rowToChunk - {row},
         tombstones := t.tombstones + {row}, freeRows := t.freeRows + {row})
    else
      t
  }

  /** `stopped`: the removal ends before its commit. */
  function RemoveDisk(d: Disk, id: ChunkId, stopped: bool): Disk {
    if d.db.None? || stopped then d else d.(db := Some(StageRemove(d.db.value, id)))
  }

  // ---- compacting ----

  /** `AfterRows(n)` stops once `n` rows are in the tmp file, or when all of them are. */
  datatype CompactStop = NoCompactStop | BeforeTmp | AfterRows(n: nat) | BeforeRename

  /** The live rows below `n`, in ascending order. */
  function LiveBelow(t: Tables, n: nat): (rows: seq<nat>)
    ensures |rows| <= n
    ensures forall i :: 0 <= i < |rows| ==> rows[i] < n && rows[i] in t.rowToChunk
  {
    if n == 0 then []
    else if n - 1 in t.rowToChunk && n - 1 !in t.tombstones then LiveBelow(t, n - 1) + [n - 1]
    else LiveBelow(t, n - 1)
  }

  function LiveRows(t: Tables): seq<nat> {
    LiveBelow(t, t.nextRow)
  }

  ghost predicate Ascending(rows: seq<nat>) {
    forall i, j :: 0 <= i < j < |rows| ==> rows[i] < rows[j]
  }

  lemma {:induction false} LiveBelowFacts(t: Tables, n: nat)
    ensures Ascending(LiveBelow(t, n))
    ensures forall r: nat :: r in LiveBelow(t, n) <==> r < n && r in t.rowToChunk && r !in t.tombstones
  {
    if n > 0 {
      LiveBelowFacts(t, n - 1);
    }
  }

  /** The rows of `vectors` named by `rows`, in that order. */
  function Gather(vectors: seq<Vec>, rows: seq<nat>): (r: seq<Vec>)
    requires forall i :: 0 <= i < |rows| ==> rows[i] < |vectors|
  {
    seq(|rows|, i requires 0 <= i < |rows| => vectors[rows[i]])
  }

  /** The chunks of the live rows, in row order. */
  function LiveNames(t: Tables): (names: seq<ChunkId>)
    ensures |names| == |LiveRows(t)|
  {
    seq(|LiveRows(t)|, i requires 0 <= i < |LiveRows(t)| => t.rowToChunk[LiveRows(t)[i]])
  }

  /** Inserting each name with its position. */
  function Positions(names: seq<ChunkId>): map<ChunkId, nat> {
    if names == [] then map[]
    else Positions(names[..|names| - 1])[names[|names| - 1] := |names| - 1]
  }

  function Numbered(names: seq<ChunkId>): map<nat, ChunkId> {
    map i: nat | i < |names| :: names[i]
  }

  function StageCompact(t: Tables): Tables {
    var names := LiveNames(t);
    Tables(t.dims, |names|, Positions(names), Numbered(names), {}, {})
  }

  function CompactDisk(d: Disk, stop: CompactStop): Disk
    requires Inv(d)
  {
    if d.db.None? || stop == BeforeTmp then d
    else
      var t := d.db.value;
      var packed := Gather(d.vectors.value, LiveRows(t));
      match stop
      case AfterRows(n) => d.(tmp := Some(packed[..Min(n, |packed|)]))
      case BeforeRename => d.(tmp := Some(packed), db := Some(StageCompact(t)))
      case _ => Disk(Some(packed), None, Some(StageCompact(t)))
  }

  // ---- opening ----

  datatype OpenStop = NoOpenStop | BeforeTmpRemoved | BeforeFileCreated | BeforeTablesCommitted

  /** The tmp file goes and `vectors.bin` appears before the recorded `dims` are compared. */
  function OpenDisk(d: Disk, dims: nat, stop: OpenStop): Disk {
    if stop == BeforeTmpRemoved then d
    else
      var clean := d.(tmp := None);
      if stop == BeforeFileCreated then clean
      else
        var filed := if clean.vectors.None? then clean.(vectors := Some([])) else clean;
        if stop == BeforeTablesCommitted || filed.db.Some? then filed
        else filed.(db := Some(Tables(dims, 0, map[], map[], {}, {})))
  }
}

/** Lemmas: what each operation's disk denotes, and the slot accounting it keeps. */
module VectorFacts {
  import opened Prelude
  import opened VectorTables

  /** The chunk's own old row is the one an `add` of it would write: no lower row is free. */
  ghost predicate ReusesOwnRow(t: Tables, id: ChunkId) {
    id in t.chunkToRow && forall f :: f in t.freeRows ==> t.chunkToRow[id] < f
  }

  lemma ChosenRowIsFree(t: Tables, id: ChunkId)
    requires TablesInv(t)
    ensures ChosenRow(t, id) <= t.nextRow
    ensures ChosenRow(t, id) in t.rowToChunk ==> t.rowToChunk[ChosenRow(t, id)] == id
    ensures id in t.chunkToRow ==> (ReusesOwnRow(t, id) <==> ChosenRow(t, id) == t.chunkToRow[id])
    ensures ReusesOwnRow(t, id) <==> ChosenRow(t, id) in t.rowToChunk
  {
  }

  lemma StageAddKeepsInv(t: Tables, id: ChunkId)
    requires TablesInv(t)
    ensures TablesInv(StageAdd(t, id))
    ensures StageAdd(t, id).chunkToRow == t.chunkToRow[id := ChosenRow(t, id)]
    ensures StageAdd(t, id).nextRow == Max(t.nextRow, ChosenRow(t, id) + 1)
    ensures StageAdd(t, id).dims == t.dims
  {
  }

  /** Writing a row that no other chunk uses changes at most this chunk's vector. */
  lemma WrittenRow(t: Tables, id: ChunkId, vectors: seq<Vec>, written: seq<Vec>, row: nat)
    requires TablesInv(t)
    requires t.nextRow <= |vectors| <= |written| && row < |written|
    requires forall r :: 0 <= r < |vectors| && r != row ==> written[r] == vectors[r]
    requires row in t.rowToChunk ==> t.rowToChunk[row] == id
    ensures forall c :: c in t.chunkToRow ==> t.chunkToRow[c] < t.nextRow
    ensures RowsOf(t.chunkToRow[id := row], written) == RowsOf(t.chunkToRow, vectors)[id := written[row]]
    ensures RowsOf(t.chunkToRow, written) ==
            if row in t.rowToChunk then RowsOf(t.chunkToRow, vectors)[id := written[row]]
            else RowsOf(t.chunkToRow, vectors)
  {
    forall c | c in t.chunkToRow
      ensures t.chunkToRow[c] < t.nextRow
      ensures t.chunkToRow[c] == row ==> c == id
    {
      assert t.chunkToRow[c] in t.rowToChunk;
    }
  }

  /** An interrupted `add` denotes the content before or after it, and which one is decided
      by the last step reached and by whether the row written is the chunk's own. */
  lemma AddDenotes(d: Disk, id: ChunkId, vec: Vec, stop: AddStop)
    requires Inv(d) && d.db.Some?
    ensures Inv(AddDisk(d, id, vec, stop))
    ensures Denotes(AddDisk(d, id, vec, stop)) ==
            if |vec| == d.db.value.dims && (stop == NoStop || (stop == BeforeCommit && ReusesOwnRow(d.db.value, id)))
            then Denotes(d)[id := vec] else Denotes(d)
  {
    hide StageAdd, ChosenRow, TablesInv, ReusesOwnRow, Vacate;
    var t, vectors := d.db.value, d.vectors.value;
    if |vec| == t.dims && stop != BeforeGrow {
      var row := ChosenRow(t, id);
      ChosenRowIsFree(t, id);
      StageAddKeepsInv(t, id);
      var grown := Grow(vectors, row, t.dims);
      assert forall r | 0 <= r < |vectors| :: grown[r] == vectors[r];
      WrittenRow(t, id, vectors, grown[row := vec], row);
      assert RowsOf(t.chunkToRow, grown) == RowsOf(t.chunkToRow, vectors);
    }
  }

  lemma RemoveDenotes(d: Disk, id: ChunkId, stopped: bool)
    requires Inv(d) && d.db.Some?
    ensures Inv(RemoveDisk(d, id, stopped))
    ensures Denotes(RemoveDisk(d, id, stopped)) == if stopped then Denotes(d) else Denotes(d) - {id}
  {
  }

  // ---- compaction ----

  lemma {:induction false} PositionsFacts(names: seq<ChunkId>)
    requires forall i, j :: 0 <= i < j < |names| ==> names[i] != names[j]
    ensures forall id :: id in Positions(names) ==> Positions(names)[id] < |names| && names[Positions(names)[id]] == id
    ensures forall i: nat :: i < |names| ==> names[i] in Positions(names) && Positions(names)[names[i]] == i
  {
    if names != [] {
      PositionsFacts(names[..|names| - 1]);
    }
  }

  lemma LiveNamesFacts(t: Tables)
    requires TablesInv(t)
    ensures forall i, j :: 0 <= i < j < |LiveNames(t)| ==> LiveNames(t)[i] != LiveNames(t)[j]
    ensures forall i: nat :: i < |LiveNames(t)| ==>
              LiveNames(t)[i] in t.chunkToRow && t.chunkToRow[LiveNames(t)[i]] == LiveRows(t)[i]
  {
    LiveBelowFacts(t, t.nextRow);
    var names, rows := LiveNames(t), LiveRows(t);
    forall i: nat | i < |names|
      ensures names[i] in t.chunkToRow && t.chunkToRow[names[i]] == rows[i]
    {
      assert names[i] == t.rowToChunk[rows[i]];
    }
  }

  /** Compacted tables keep a chunk and give it the position of its old row among the live ones. */
  ghost predicate NewRowOf(t: Tables, id: ChunkId) {
    var n, rows := StageCompact(t), LiveRows(t);
    && id in t.chunkToRow && id in n.chunkToRow
    && n.chunkToRow[id] < |rows|
    && rows[n.chunkToRow[id]] == t.chunkToRow[id]
  }

  lemma StageCompactKeepsInv(t: Tables)
    requires TablesInv(t)
    ensures TablesInv(StageCompact(t))
  {
    LiveNamesFacts(t);
    PositionsFacts(LiveNames(t));
  }

  lemma NewRowAt(t: Tables, i: nat)
    requires TablesInv(t) && i < |LiveRows(t)|
    ensures NewRowOf(t, LiveNames(t)[i])
    ensures StageCompact(t).chunkToRow[LiveNames(t)[i]] == i
  {
    LiveNamesFacts(t);
    PositionsFacts(LiveNames(t));
  }

  lemma NewRow(t: Tables, id: ChunkId)
    requires TablesInv(t)
    ensures id in t.chunkToRow <==> id in StageCompact(t).chunkToRow
    ensures id in t.chunkToRow ==> NewRowOf(t, id)
  {
    LiveNamesFacts(t);
    PositionsFacts(LiveNames(t));
    LiveBelowFacts(t, t.nextRow);
    if id in t.chunkToRow {
      assert t.chunkToRow[id] in LiveRows(t);
      var i :| 0 <= i < |LiveRows(t)| && LiveRows(t)[i] == t.chunkToRow[id];
      assert LiveNames(t)[i] == id;
    }
  }

  /** No live row would change its number: the free rows all lie above the live ones. */
  ghost predicate Dense(t: Tables) {
    forall f, r :: f in t.freeRows && r in t.rowToChunk ==> r < f
  }

  /** Between its commit and its rename `compact` pairs new row numbers with the old file. */
  ghost predicate RowsStandStill(d: Disk)
    requires Inv(d) && d.db.Some?
  {
    var rows := LiveRows(d.db.value);
    forall i :: 0 <= i < |rows| ==> d.vectors.value[rows[i]] == d.vectors.value[i]
  }

  /** `compact` keeps the content at every point up to its commit and once it has finished;
      in the gap before the rename exactly when every live row holds what its new number holds. */
  lemma CompactDenotes(d: Disk, stop: CompactStop)
    requires Inv(d) && d.db.Some?
    ensures Inv(CompactDisk(d, stop))
    ensures stop != BeforeRename ==> Denotes(CompactDisk(d, stop)) == Denotes(d)
    ensures stop == BeforeRename ==> (Denotes(CompactDisk(d, stop)) == Denotes(d) <==> RowsStandStill(d))
  {
    hide Denotes, RowsStandStill, Inv, LiveRows, StageCompact;
    CompactKeepsInv(d, stop);
    match stop
    case NoCompactStop => CompactedDenotes(d);
    case BeforeTmp =>
    case AfterRows(_) => TmpIsNotRead(d, CompactDisk(d, stop));
    case BeforeRename => GapDenotes(d);
  }

  lemma CompactKeepsInv(d: Disk, stop: CompactStop)
    requires Inv(d) && d.db.Some?
    ensures Inv(CompactDisk(d, stop))
  {
    hide LiveRows, TablesInv;
    StageCompactKeepsInv(d.db.value);
    LiveRowsAreRows(d);
  }

  lemma LiveRowsAreRows(d: Disk)
    requires Inv(d) && d.db.Some?
    ensures forall i :: 0 <= i < |LiveRows(d.db.value)| ==> LiveRows(d.db.value)[i] < |d.vectors.value|
    ensures |LiveRows(d.db.value)| <= d.db.value.nextRow <= |d.vectors.value|
  {
  }

  lemma TmpIsNotRead(d: Disk, e: Disk)
    requires Inv(d) && Inv(e) && e == d.(tmp := e.tmp)
    ensures Denotes(e) == Denotes(d)
  {
    hide TablesInv;
  }

  lemma CompactedDenotes(d: Disk)
    requires Inv(d) && d.db.Some? && Inv(CompactDisk(d, NoCompactStop))
    ensures Denotes(CompactDisk(d, NoCompactStop)) == Denotes(d)
  {
    hide LiveRows, StageCompact, TablesInv;
    var d' := CompactDisk(d, NoCompactStop);
    forall id
      ensures id in Denotes(d') <==> id in Denotes(d)
      ensures id in Denotes(d) ==> Denotes(d')[id] == Denotes(d)[id]
    {
      NewRow(d.db.value, id);
    }
  }

  lemma GapDenotes(d: Disk)
    requires Inv(d) && d.db.Some?
    requires Inv(CompactDisk(d, BeforeRename))
    ensures Denotes(CompactDisk(d, BeforeRename)) == Denotes(d) <==> RowsStandStill(d)
  {
    var t, vectors := d.db.value, d.vectors.value;
    var before, after := Denotes(d), Denotes(CompactDisk(d, BeforeRename));
    forall id
      ensures id in before <==> id in after
      ensures id in before ==> NewRowOf(t, id) && before[id] == vectors[LiveRows(t)[StageCompact(t).chunkToRow[id]]]
      ensures id in before ==> after[id] == vectors[StageCompact(t).chunkToRow[id]]
    {
      NewRow(t, id);
    }
    if before == after {
      forall i: nat | i < |LiveRows(t)|
        ensures vectors[LiveRows(t)[i]] == vectors[i]
      {
        NewRowAt(t, i);
      }
    }
  }

  /** The live rows of dense tables are numbered as `compact` would number them. */
  lemma {:induction false} DenseRows(t: Tables, i: nat)
    requires TablesInv(t) && Dense(t) && i < |LiveRows(t)|
    ensures LiveRows(t)[i] == i
  {
    hide LiveBelow;
    var rows := LiveRows(t);
    LiveBelowFacts(t, t.nextRow);
    if i > 0 {
      DenseRows(t, i - 1);
    }
    assert i <= rows[i] < t.nextRow;
    assert i < rows[i] ==> i !in t.freeRows;
    assert i in rows;
    var j :| 0 <= j < |rows| && rows[j] == i;
    assert i > 0 ==> rows[i - 1] < rows[j];
  }

  /** A crash in the gap is repaired: the next `open`, which drops the tmp, finds the old content. */
  ghost predicate SurvivesGap(d: Disk)
    requires Inv(d) && d.db.Some?
  {
    var d' := OpenDisk(CompactDisk(d, BeforeRename), d.db.value.dims, NoOpenStop);
    Inv(d') && Denotes(d') == Denotes(d)
  }

  lemma SurvivesIffStill(d: Disk)
    requires Inv(d) && d.db.Some?
    ensures SurvivesGap(d) <==> RowsStandStill(d)
  {
    CompactDenotes(d, BeforeRename);
    OpenDenotes(CompactDisk(d, BeforeRename), d.db.value.dims, NoOpenStop);
  }

  lemma StillRows(t: Tables, d: Disk)
    requires Inv(d) && d.db == Some(t) && (t.dims == 0 || Dense(t))
    ensures RowsStandStill(d)
  {
    var rows := LiveRows(t);
    forall i | 0 <= i < |rows|
      ensures d.vectors.value[rows[i]] == d.vectors.value[i]
    {
      if t.dims == 0 {
        assert d.vectors.value[rows[i]] == [] && d.vectors.value[i] == [];
      } else {
        DenseRows(t, i);
      }
    }
  }

  /** The guard a caller can check: a crash in the gap is harmless whatever the rows hold exactly
      when vectors have no components or no free row lies below a live one. */
  lemma GapIsSafeIffDense(t: Tables)
    requires TablesInv(t)
    ensures t.dims == 0 || Dense(t) <==> forall d: Disk :: Inv(d) && d.db == Some(t) ==> SurvivesGap(d)
  {
    var rows := LiveRows(t);
    if t.dims == 0 || Dense(t) {
      forall d: Disk | Inv(d) && d.db == Some(t)
        ensures SurvivesGap(d)
      {
        StillRows(t, d);
        SurvivesIffStill(d);
      }
    } else {
      var f, r :| f in t.freeRows && r in t.rowToChunk && f < r;
      var i := MovedRow(t, f, r);
      var d := MarkedDisk(t, rows[i]);
      assert d.vectors.value[rows[i]] != d.vectors.value[i];
      assert !RowsStandStill(d);
      SurvivesIffStill(d);
    }
  }

  /** A disk with these tables whose row `marked` differs from every other. */
  lemma MarkedDisk(t: Tables, marked: nat) returns (d: Disk)
    requires TablesInv(t) && t.dims > 0 && marked < t.nextRow
    ensures Inv(d) && d.db == Some(t) && |d.vectors.value| == t.nextRow
    ensures forall r: nat :: r < t.nextRow && r != marked ==> d.vectors.value[r] != d.vectors.value[marked]
  {
    var zero, one := seq(t.dims, _ => 0.0), seq(t.dims, _ => 1.0);
    assert zero[0] != one[0];
    d := Disk(Some(seq(t.nextRow, k => if k == marked then one else zero)), None, Some(t));
  }

  lemma MovedRow(t: Tables, f: nat, r: nat) returns (i: nat)
    requires TablesInv(t)
    requires f in t.freeRows && r in t.rowToChunk && f < r
    ensures i < |LiveRows(t)| && LiveRows(t)[i] != i && LiveRows(t)[i] < t.nextRow
  {
    var rows := LiveRows(t);
    LiveBelowFacts(t, t.nextRow);
    assert r < t.nextRow;
    var k :| 0 <= k < |rows| && rows[k] == r;
    if rows[k] != k {
      i := k;
    } else {
      assert rows[f] in rows;
      i := f;
    }
  }

  /** Up to the commit the tables stand, and up to the rename the vectors do; once the copy is complete and
      committed, the rename is all that is left. */
  lemma CompactLeaves(d: Disk, stop: CompactStop)
    requires Inv(d) && d.db.Some?
    ensures var after, done := CompactDisk(d, stop), CompactDisk(d, NoCompactStop);
            match stop
            case BeforeTmp => after == d
            case AfterRows(n) =>
              && after.tmp.Some? && after == d.(tmp := after.tmp)
              && after.tmp.value == done.vectors.value[..Min(n, |done.vectors.value|)]
            case BeforeRename => after.vectors == d.vectors && after.(vectors := after.tmp, tmp := None) == done
            case NoCompactStop =>
              && done.tmp.None? && done.db == Some(StageCompact(d.db.value))
              && |done.vectors.value| == |LiveRows(d.db.value)|
              && forall i :: 0 <= i < |done.vectors.value| ==>
                 done.vectors.value[i] == d.vectors.value[LiveRows(d.db.value)[i]]
  {
    hide LiveRows, StageCompact;
    LiveRowsAreRows(d);
  }

  // ---- opening ----

  lemma OpenDenotes(d: Disk, dims: nat, stop: OpenStop)
    requires Inv(d)
    ensures Inv(OpenDisk(d, dims, stop))
    ensures Denotes(OpenDisk(d, dims, stop)) == Denotes(d)
    ensures stop == NoOpenStop ==> OpenDisk(d, dims, stop).tmp == None && OpenDisk(d, dims, stop).db.Some?
  {
  }

  /** Each step of opening is done when the stop says so, and opening again does the rest. */
  lemma OpenLeaves(d: Disk, dims: nat, stop: OpenStop)
    ensures var after := OpenDisk(d, dims, stop);
            && after.tmp == (if stop == BeforeTmpRemoved then d.tmp else None)
            && after.vectors ==
               (if stop == BeforeTmpRemoved || stop == BeforeFileCreated || d.vectors.Some? then d.vectors
                else Some([]))
            && after.db ==
               (if stop == NoOpenStop && d.db.None? then Some(Tables(dims, 0, map[], map[], {}, {})) else d.db)
    ensures OpenDisk(OpenDisk(d, dims, stop), dims, NoOpenStop) == OpenDisk(d, dims, NoOpenStop)
  {
  }

  // ---- slot accounting ----

  ghost function LiveSet(t: Tables, n: nat): set<nat> {
    set r | 0 <= r < n && r in t.rowToChunk && r !in t.tombstones
  }

  lemma {:induction false} LiveCount(t: Tables, n: nat)
    ensures |LiveBelow(t, n)| == |LiveSet(t, n)|
  {
    hide LiveSet;
    LiveSetStep(t, n);
    if n > 0 {
      LiveCount(t, n - 1);
    }
  }

  lemma LiveSetStep(t: Tables, n: nat)
    ensures n == 0 ==> LiveSet(t, n) == {}
    ensures n > 0 ==> n - 1 !in LiveSet(t, n - 1) &&
                      LiveSet(t, n) == LiveSet(t, n - 1) +
                      if n - 1 in t.rowToChunk && n - 1 !in t.tombstones then {n - 1} else {}
  {
  }

  lemma {:induction false} InverseCount(a: map<ChunkId, nat>, b: map<nat, ChunkId>)
    requires forall id :: id in a ==> a[id] in b && b[a[id]] == id
    requires forall r :: r in b ==> b[r] in a && a[b[r]] == r
    ensures |a| == |b|
    decreases |a|
  {
    if a.Keys == {} {
      assert forall r :: r !in b;
      assert b == map[];
    } else {
      var id :| id in a;
      var r := a[id];
      InverseCount(a - {id}, b - {r});
      assert a.Keys == (a - {id}).Keys + {id} && b.Keys == (b - {r}).Keys + {r};
    }
  }

  /** Live and free rows together are exactly the allocated ones. */
  lemma SlotCount(t: Tables)
    requires TablesInv(t)
    ensures |t.chunkToRow| == |t.rowToChunk| == |LiveRows(t)|
    ensures |t.chunkToRow| + |t.freeRows| == t.nextRow
  {
    InverseCount(t.chunkToRow, t.rowToChunk);
    LiveCount(t, t.nextRow);
    assert LiveSet(t, t.nextRow) == t.rowToChunk.Keys;
    AllRows(t.nextRow);
    assert t.rowToChunk.Keys + t.freeRows == RowsBelow(t.nextRow);
  }

  ghost function RowsBelow(n: nat): set<nat> {
    if n == 0 then {} else RowsBelow(n - 1) + {n - 1}
  }

  lemma {:induction false} AllRows(n: nat)
    ensures |RowsBelow(n)| == n
    ensures forall r: nat :: r in RowsBelow(n) <==> r < n
  {
    if n > 0 {
      AllRows(n - 1);
    }
  }
}

/** Whole runs of the store: any operations, any number of stops and reopenings. */
module VectorRuns {
  import opened Prelude
  import opened VectorTables
  import opened VectorFacts

  datatype Event =
    | Opened(dims: nat, openStop: OpenStop)
    | Added(id: ChunkId, vec: Vec, addStop: AddStop)
    | Removed(id: ChunkId, stopped: bool)
    | Compacted(compactStop: CompactStop)

  /** No store can be used before an `open` has created the tables. */
  ghost function Step(d: Disk, e: Event): (r: Disk)
    requires Inv(d)
    ensures Inv(r)
  {
    match e
    case Opened(dims, stop) => OpenDenotes(d, dims, stop); OpenDisk(d, dims, stop)
    case Added(id, vec, stop) => if d.db.None? then d else AddDenotes(d, id, vec, stop); AddDisk(d, id, vec, stop)
    case Removed(id, stopped) => if d.db.None? then d else RemoveDenotes(d, id, stopped); RemoveDisk(d, id, stopped)
    case Compacted(stop) => if d.db.None? then d else CompactDenotes(d, stop); CompactDisk(d, stop)
  }

  ghost function Run(d: Disk, events: seq<Event>): (r: Disk)
    requires Inv(d)
    ensures Inv(r)
  {
    if events == [] then d else Step(Run(d, events[..|events| - 1]), events[|events| - 1])
  }

  /** What the content may be after one event, given the disk before it. */
  ghost predicate Allowed(d: Disk, e: Event, after: map<ChunkId, Vec>)
    requires Inv(d)
  {
    var before := Denotes(d);
    if d.db.None? then after == before else
    match e
    case Opened(_, _) => after == before
    case Added(id, vec, stop) =>
      if |vec| != d.db.value.dims then after == before
      else if stop == NoStop then after == before[id := vec]
      else after == before || after == before[id := vec]
    case Removed(id, stopped) => after == if stopped then before else before - {id}
    case Compacted(stop) => (stop == BeforeRename && !RowsStandStill(d)) || after == before
  }

  /** At every point of every run the store denotes the content before or after the event that
      led there; the one exception is the gap before `compact`'s rename. */
  lemma {:induction false} RunsRefine(events: seq<Event>, i: nat)
    requires i < |events|
    ensures Allowed(Run(EMPTY_DISK, events[..i]), events[i], Denotes(Run(EMPTY_DISK, events[..i + 1])))
  {
    assert events[..i + 1][..i] == events[..i];
    var d := Run(EMPTY_DISK, events[..i]);
    match events[i]
    case Opened(dims, stop) => OpenDenotes(d, dims, stop);
    case Added(id, vec, stop) => if d.db.Some? { AddDenotes(d, id, vec, stop); }
    case Removed(id, stopped) => if d.db.Some? { RemoveDenotes(d, id, stopped); }
    case Compacted(stop) => if d.db.Some? { CompactDenotes(d, stop); }
  }

  // ---- the gap, reached ----

  /** Two chunks are added, the first is removed, and `compact` stops before its rename. */
  function GapRun(dims: nat, a: ChunkId, va: Vec, b: ChunkId, vb: Vec): seq<Event> {
    [Opened(dims, NoOpenStop), Added(a, va, NoStop), Added(b, vb, NoStop), Removed(a, false),
     Compacted(BeforeRename), Opened(dims, NoOpenStop)]
  }

  lemma RunOn(events: seq<Event>, n: nat, d: Disk)
    requires n < |events| && Run(EMPTY_DISK, events[..n]) == d
    ensures Run(EMPTY_DISK, events[..n + 1]) == Step(d, events[n])
  {
    assert events[..n + 1][..n] == events[..n];
  }

  function TablesOf(dims: nat, n: nat, rows: map<ChunkId, nat>, chunks: map<nat, ChunkId>, free: set<nat>): Tables {
    Tables(dims, n, rows, chunks, free, free)
  }

  function DiskOf(vectors: seq<Vec>, t: Tables): Disk {
    Disk(Some(vectors), None, Some(t))
  }

  lemma AddedFirst(dims: nat, a: ChunkId, va: Vec, d: Disk)
    requires Inv(d) && |va| == dims && d == DiskOf([], TablesOf(dims, 0, map[], map[], {}))
    ensures Step(d, Added(a, va, NoStop)) == DiskOf([va], TablesOf(dims, 1, map[a := 0], map[0 := a], {}))
  {
    assert ChosenRow(d.db.value, a) == 0;
    assert Grow([], 0, dims)[0 := va] == [va];
  }

  lemma AddedSecond(dims: nat, a: ChunkId, va: Vec, b: ChunkId, vb: Vec, d: Disk)
    requires Inv(d) && |va| == |vb| == dims && a != b &&
             d == DiskOf([va], TablesOf(dims, 1, map[a := 0], map[0 := a], {}))
    ensures Step(d, Added(b, vb, NoStop)) ==
            DiskOf([va, vb], TablesOf(dims, 2, map[a := 0, b := 1], map[0 := a, 1 := b], {}))
  {
    assert ChosenRow(d.db.value, b) == 1;
    assert Grow([va], 1, dims)[1 := vb] == [va, vb];
  }

  lemma RemovedFirst(dims: nat, a: ChunkId, va: Vec, b: ChunkId, vb: Vec, d: Disk)
    requires Inv(d) && a != b && d == DiskOf([va, vb], TablesOf(dims, 2, map[a := 0, b := 1], map[0 := a, 1 := b], {}))
    ensures Step(d, Removed(a, false)) == DiskOf([va, vb], TablesOf(dims, 2, map[b := 1], map[1 := b], {0}))
  {
    assert map[a := 0, b := 1] - {a} == map[b := 1] && map[0 := a, 1 := b] - {0} == map[1 := b];
    assert {} + {0} == {0};
  }

  lemma PackedTables(dims: nat, b: ChunkId)
    ensures StageCompact(TablesOf(dims, 2, map[b := 1], map[1 := b], {0})) ==
            TablesOf(dims, 1, map[b := 0], map[0 := b], {})
  {
    var t := TablesOf(dims, 2, map[b := 1], map[1 := b], {0});
    assert LiveBelow(t, 0) == [] && LiveBelow(t, 1) == [] && LiveBelow(t, 2) == [1];
    assert LiveNames(t) == [b];
    assert Positions([]) == map[] && Positions([b]) == map[b := 0] by { assert [b][..0] == []; }
    assert Numbered([b]) == map[0 := b];
  }

  /** The new number of `b` is committed, and the old file is still there. */
  lemma CompactedInGap(dims: nat, va: Vec, b: ChunkId, vb: Vec, d: Disk)
    requires Inv(d) && d == DiskOf([va, vb], TablesOf(dims, 2, map[b := 1], map[1 := b], {0}))
    ensures Step(d, Compacted(BeforeRename)).vectors == Some([va, vb])
    ensures Step(d, Compacted(BeforeRename)).db == Some(TablesOf(dims, 1, map[b := 0], map[0 := b], {}))
  {
    hide StageCompact, TablesOf, LiveRows, TablesInv;
    PackedTables(dims, b);
  }

  lemma OpenedAgain(d: Disk)
    requires Inv(d) && d.db.Some?
    ensures Step(d, Opened(d.db.value.dims, NoOpenStop)) == d.(tmp := None)
  {
  }

  lemma OpenedFirst(dims: nat)
    ensures Run(EMPTY_DISK, []) == EMPTY_DISK
    ensures Step(EMPTY_DISK, Opened(dims, NoOpenStop)) == DiskOf([], TablesOf(dims, 0, map[], map[], {}))
  {
  }

  lemma BeforeGap(dims: nat, a: ChunkId, va: Vec, b: ChunkId, vb: Vec)
    requires |va| == |vb| == dims && a != b
    ensures Run(EMPTY_DISK, GapRun(dims, a, va, b, vb)[..4]) ==
            DiskOf([va, vb], TablesOf(dims, 2, map[b := 1], map[1 := b], {0}))
  {
    hide Run, Step, TablesOf, DiskOf, Inv;
    var events := GapRun(dims, a, va, b, vb);
    OpenedFirst(dims);
    assert events[..0] == [];
    RunOn(events, 0, EMPTY_DISK);
    AddedFirst(dims, a, va, Run(EMPTY_DISK, events[..1]));
    RunOn(events, 1, Run(EMPTY_DISK, events[..1]));
    AddedSecond(dims, a, va, b, vb, Run(EMPTY_DISK, events[..2]));
    RunOn(events, 2, Run(EMPTY_DISK, events[..2]));
    RemovedFirst(dims, a, va, b, vb, Run(EMPTY_DISK, events[..3]));
    RunOn(events, 3, Run(EMPTY_DISK, events[..3]));
  }

  lemma OneRow(dims: nat, vectors: seq<Vec>, b: ChunkId, row: nat, d: Disk, n: nat, chunks: map<nat, ChunkId>,
      free: set<nat>)
    requires Inv(d) && row < |vectors| && d == DiskOf(vectors, TablesOf(dims, n, map[b := row], chunks, free))
    ensures Denotes(d) == map[b := vectors[row]]
  {
  }

  /** After the run `b` answers with the vector of the removed chunk. */
  lemma GapLosesVector(dims: nat, a: ChunkId, va: Vec, b: ChunkId, vb: Vec)
    requires |va| == |vb| == dims && a != b
    ensures Denotes(Run(EMPTY_DISK, GapRun(dims, a, va, b, vb)[..4])) == map[b := vb]
    ensures Denotes(Run(EMPTY_DISK, GapRun(dims, a, va, b, vb))) == map[b := va]
  {
    assert Inv(EMPTY_DISK);
    hide Run, Step, TablesOf, Inv, Denotes;
    var events := GapRun(dims, a, va, b, vb);
    BeforeGap(dims, a, va, b, vb);
    var d := Run(EMPTY_DISK, events[..4]);
    OneRow(dims, [va, vb], b, 1, d, 2, map[1 := b], {0});
    CompactedInGap(dims, va, b, vb, d);
    RunOn(events, 4, d);
    var gap := Run(EMPTY_DISK, events[..5]);
    assert gap.db.value.dims == dims by { DimsOf(dims, map[b := 0], map[0 := b]); }
    OpenedAgain(gap);
    RunOn(events, 5, gap);
    assert events[..6] == events;
    OneRow(dims, [va, vb], b, 0, Run(EMPTY_DISK, events), 1, map[0 := b], {});
  }

  lemma DimsOf(dims: nat, rows: map<ChunkId, nat>, chunks: map<nat, ChunkId>)
    ensures TablesOf(dims, 1, rows, chunks, {}).dims == dims
  {
  }

  // ---- the append cursor ----

  ghost function Live(d: Disk): nat {
    if d.db.None? then 0 else |d.db.value.chunkToRow|
  }

  ghost function Cursor(d: Disk): nat {
    if d.db.None? then 0 else d.db.value.nextRow
  }

  ghost predicate CommitsCompaction(e: Event) {
    e.Compacted? && (e.compactStop == NoCompactStop || e.compactStop == BeforeRename)
  }

  /** The largest number of chunks held at once since creation or the last committed `compact`. */
  ghost function Peak(events: seq<Event>): nat {
    if events == [] then 0
    else
      var live := Live(Run(EMPTY_DISK, events));
      var e := events[|events| - 1];
      if CommitsCompaction(e) then live else Max(Peak(events[..|events| - 1]), live)
  }

  /** Over every run from an empty directory, `next_row` is that largest number. */
  lemma {:induction false} CursorIsPeak(events: seq<Event>)
    ensures Cursor(Run(EMPTY_DISK, events)) == Peak(events)
  {
    if events != [] {
      var n := |events| - 1;
      CursorIsPeak(events[..n]);
      CursorStep(Run(EMPTY_DISK, events[..n]), events[n]);
    }
  }

  lemma CursorAfterAdd(t: Tables, id: ChunkId)
    requires TablesInv(t)
    ensures StageAdd(t, id).nextRow == Max(t.nextRow, |StageAdd(t, id).chunkToRow|)
  {
    SlotCount(t);
    StageAddKeepsInv(t, id);
    SlotCount(StageAdd(t, id));
  }

  lemma CursorAfterCompact(t: Tables)
    requires TablesInv(t)
    ensures StageCompact(t).nextRow == |StageCompact(t).chunkToRow|
  {
    StageCompactKeepsInv(t);
    SlotCount(StageCompact(t));
  }

  lemma CursorStep(d: Disk, e: Event)
    requires Inv(d)
    ensures Cursor(Step(d, e)) == if CommitsCompaction(e) then Live(Step(d, e)) else Max(Cursor(d), Live(Step(d, e)))
  {
    hide StageAdd, StageCompact, LiveRows, Denotes, TablesInv;
    var d' := Step(d, e);
    if d.db.Some? {
      SlotCount(d.db.value);
      SlotCount(d'.db.value);
      match e
      case Opened(_, _) =>
      case Added(id, _, _) => CursorAfterAdd(d.db.value, id);
      case Removed(_, _) =>
      case Compacted(_) => CursorAfterCompact(d.db.value);
    }
  }
}
