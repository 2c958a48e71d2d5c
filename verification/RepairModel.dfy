/**
 What a generation repair works on: the canonical targets of indexing/repair.py, flattened into one
 global chunk order, and the points a repaired collection must hold. A point's identity is the pair
 that uuid5 hashes, and its digest is the payload itself.
 */
module RepairModel {
  import opened Prelude

  const MAX_BATCH := 10_000
  const MAX_VERSION_POINTS := 10_000_000

  type VersionId = nat

  datatype Chunk = Chunk(index: nat, hash: nat, body: nat)

  datatype PointId = PointId(version: VersionId, index: nat, hash: nat)

  datatype Payload = Payload(document: nat, version: VersionId, chunk: Chunk, metadata: nat)

  datatype Point = Point(dimension: nat, payload: Payload)

  type Points = map<PointId, Point>

  datatype Entry = Entry(id: PointId, point: Point)

  /** A target's chunk count is the number of its chunks: a manifest of any other length is an error. */
  datatype Target = Target(document: nat, version: VersionId, metadata: nat, chunks: seq<Chunk>)

  /** `_RepairSnapshot`: the targets in document order, as of one mutation revision. */
  datatype Snapshot = Snapshot(revision: nat, dimension: nat, batchSize: nat, targets: seq<Target>)

  predicate TargetOk(t: Target) {
    |t.chunks| > 0 && forall i | 0 <= i < |t.chunks| :: t.chunks[i].index == i
  }

  /** A version belongs to one document, manifests number their chunks, and a profile's batch size is bounded. */
  predicate WellFormed(s: Snapshot) {
    && 1 <= s.batchSize <= MAX_BATCH
    && (forall i | 0 <= i < |s.targets| :: TargetOk(s.targets[i]))
    && (forall i, j | 0 <= i < j < |s.targets| :: s.targets[i].version != s.targets[j].version)
  }

  function EntryOf(dimension: nat, t: Target, c: Chunk): Entry {
    Entry(PointId(t.version, c.index, c.hash), Point(dimension, Payload(t.document, t.version, c, t.metadata)))
  }

  function EntriesOf(dimension: nat, t: Target, chunks: seq<Chunk>): (r: seq<Entry>)
    ensures |r| == |chunks| && forall i | 0 <= i < |r| :: r[i] == EntryOf(dimension, t, chunks[i])
  {
    if chunks == [] then [] else EntriesOf(dimension, t, chunks[..|chunks|-1]) + [EntryOf(dimension, t, chunks[|chunks|-1])]
  }

  /** The global chunk order. */
  function Flatten(dimension: nat, targets: seq<Target>): seq<Entry> {
    if targets == [] then []
    else
      var last := targets[|targets|-1];
      Flatten(dimension, targets[..|targets|-1]) + EntriesOf(dimension, last, last.chunks)
  }

  function Expected(s: Snapshot): seq<Entry> { Flatten(s.dimension, s.targets) }

  function PointTotal(s: Snapshot): nat { |Expected(s)| }

  // ---- what a collection holds ----------------------------------------------------------------------------

  predicate Stored(points: Points, e: Entry) { e.id in points && points[e.id] == e.point }

  predicate AllStored(points: Points, entries: seq<Entry>) {
    forall i | 0 <= i < |entries| :: Stored(points, entries[i])
  }

  /** Every expected point with the right content, and nothing else. */
  ghost predicate Exact(points: Points, entries: seq<Entry>) {
    && AllStored(points, entries)
    && (forall id | id in points :: exists i | 0 <= i < |entries| :: entries[i].id == id)
  }

  predicate DistinctIds(entries: seq<Entry>) {
    forall i, j | 0 <= i < j < |entries| :: entries[i].id != entries[j].id
  }

  function UpsertAll(points: Points, batch: seq<Entry>): Points {
    if batch == [] then points
    else
      var last := batch[|batch|-1];
      UpsertAll(points, batch[..|batch|-1])[last.id := last.point]
  }

  function VersionIds(points: Points, v: VersionId): set<PointId> {
    set id | id in points && points[id].payload.version == v
  }

  // ---- where a target lies in the order -----------------------------------------------------------------------

  function Offset(s: Snapshot, i: nat): nat
    requires i <= |s.targets|
  {
    |Flatten(s.dimension, s.targets[..i])|
  }

  lemma {:induction false} FlattenPrefix(dimension: nat, targets: seq<Target>, i: nat)
    requires i <= |targets|
    ensures |Flatten(dimension, targets[..i])| <= |Flatten(dimension, targets)|
    ensures Flatten(dimension, targets)[..|Flatten(dimension, targets[..i])|] == Flatten(dimension, targets[..i])
  {
    if i == |targets| {
      assert targets[..i] == targets;
    } else {
      FlattenPrefix(dimension, targets[..|targets|-1], i);
      assert targets[..|targets|-1][..i] == targets[..i];
    }
  }

  /** The entries of target i lie between its offset and the next one's. */
  lemma TargetSegment(s: Snapshot, i: nat)
    requires i < |s.targets|
    ensures var t := s.targets[i];
            && Offset(s, i + 1) == Offset(s, i) + |t.chunks| <= PointTotal(s)
            && Expected(s)[Offset(s, i)..Offset(s, i + 1)] == EntriesOf(s.dimension, t, t.chunks)
  {
    var prefix := s.targets[..i+1];
    assert prefix[..|prefix|-1] == s.targets[..i];
    FlattenPrefix(s.dimension, s.targets, i + 1);
  }

  lemma EntryAt(s: Snapshot, i: nat, k: nat)
    requires i < |s.targets| && k < |s.targets[i].chunks|
    ensures Offset(s, i) + k < PointTotal(s)
    ensures Expected(s)[Offset(s, i) + k] == EntryOf(s.dimension, s.targets[i], s.targets[i].chunks[k])
  {
    TargetSegment(s, i);
    assert Expected(s)[Offset(s, i)..Offset(s, i + 1)][k] == Expected(s)[Offset(s, i) + k];
  }

  /** Every position of the order lies in some target. */
  lemma {:induction false} Locate(s: Snapshot, n: nat, p: nat) returns (i: nat, k: nat)
    requires n <= |s.targets| && p < Offset(s, n)
    ensures i < n && k < |s.targets[i].chunks| && p == Offset(s, i) + k
  {
    TargetSegment(s, n - 1);
    if p >= Offset(s, n - 1) {
      i, k := n - 1, p - Offset(s, n - 1);
    } else {
      i, k := Locate(s, n - 1, p);
    }
  }

  lemma {:induction false} OffsetsGrow(s: Snapshot, i: nat, j: nat)
    requires i <= j <= |s.targets|
    ensures Offset(s, i) <= Offset(s, j)
    decreases j - i
  {
    if i < j {
      TargetSegment(s, i);
      OffsetsGrow(s, i + 1, j);
    }
  }

  lemma WholeOffset(s: Snapshot)
    ensures Offset(s, |s.targets|) == PointTotal(s)
  {
    assert s.targets[..|s.targets|] == s.targets;
  }

  /** No two expected points share an identity. */
  lemma ExpectedIdsDistinct(s: Snapshot)
    requires WellFormed(s)
    ensures DistinctIds(Expected(s))
  {
    WholeOffset(s);
    forall p, q | 0 <= p < q < PointTotal(s) ensures Expected(s)[p].id != Expected(s)[q].id {
      var i, k := Locate(s, |s.targets|, p);
      var j, l := Locate(s, |s.targets|, q);
      EntryAt(s, i, k);
      EntryAt(s, j, l);
      assert TargetOk(s.targets[i]) && TargetOk(s.targets[j]);
    }
  }

  // ---- counting --------------------------------------------------------------------------------------------------

  function Ids(entries: seq<Entry>): set<PointId> { set i | 0 <= i < |entries| :: entries[i].id }

  lemma {:induction false} IdsCount(entries: seq<Entry>)
    requires DistinctIds(entries)
    ensures |Ids(entries)| == |entries|
  {
    if entries != [] {
      var front, last := entries[..|entries|-1], entries[|entries|-1];
      IdsCount(front);
      assert last.id !in Ids(front);
      assert Ids(entries) == Ids(front) + {last.id};
    }
  }

  /** With distinct identities, all present and the right number of points means exact, and the other way round. */
  lemma CountedIsExact(points: Points, entries: seq<Entry>)
    requires DistinctIds(entries)
    ensures Exact(points, entries) <==> AllStored(points, entries) && |points| == |entries|
  {
    IdsCount(entries);
    if AllStored(points, entries) {
      assert Ids(entries) <= points.Keys;
      if |points| == |entries| {
        SubsetOfSameSize(Ids(entries), points.Keys);
      }
    }
    if Exact(points, entries) {
      assert points.Keys == Ids(entries);
      assert |points| == |points.Keys|;
    }
  }

  lemma {:induction false} SubsetOfSameSize<T>(a: set<T>, b: set<T>)
    requires a <= b && |a| == |b|
    ensures a == b
  {
    if a < b {
      var x :| x in b && x !in a;
      assert a <= b - {x};
      SubsetNoLarger(a, b - {x});
      assert false;
    }
  }

  lemma {:induction false} SubsetNoLarger<T>(a: set<T>, b: set<T>)
    requires a <= b
    ensures |a| <= |b|
  {
    if a != {} {
      var x :| x in a;
      SubsetNoLarger(a - {x}, b - {x});
    }
  }

  /** In an exact collection every version has exactly its target's points. */
  lemma ExactVersionCount(s: Snapshot, points: Points, i: nat)
    requires WellFormed(s) && Exact(points, Expected(s)) && i < |s.targets|
    ensures |VersionIds(points, s.targets[i].version)| == |s.targets[i].chunks|
  {
    var t := s.targets[i];
    var own := EntriesOf(s.dimension, t, t.chunks);
    assert TargetOk(t);
    IdsCount(own);
    WholeOffset(s);
    forall id ensures id in VersionIds(points, t.version) <==> id in Ids(own) {
      if id in VersionIds(points, t.version) {
        var p :| 0 <= p < PointTotal(s) && Expected(s)[p].id == id;
        assert Stored(points, Expected(s)[p]);
        var j, k := Locate(s, |s.targets|, p);
        EntryAt(s, j, k);
        assert own[k].id == id;
      }
      if id in Ids(own) {
        var k :| 0 <= k < |own| && own[k].id == id;
        EntryAt(s, i, k);
        assert Stored(points, Expected(s)[Offset(s, i) + k]);
      }
    }
    assert VersionIds(points, t.version) == Ids(own);
  }

  // ---- upserts -----------------------------------------------------------------------------------------------------

  /** An upsert of distinct points stores each of them and leaves the others alone. */
  lemma {:induction false} UpsertStores(points: Points, batch: seq<Entry>)
    requires DistinctIds(batch)
    ensures AllStored(UpsertAll(points, batch), batch)
    ensures forall id :: id !in Ids(batch) ==>
              (id in UpsertAll(points, batch) <==> id in points) && (id in points ==> UpsertAll(points, batch)[id] == points[id])
  {
    if batch != [] {
      var front, last := batch[..|batch|-1], batch[|batch|-1];
      UpsertStores(points, front);
      assert Ids(batch) == Ids(front) + {last.id};
      forall i | 0 <= i < |front| ensures Stored(UpsertAll(points, batch), front[i]) {
        assert Stored(UpsertAll(points, front), front[i]);
        assert batch[i] == front[i];
      }
    }
  }

  /** Upserting expected points keeps every expected point that is there and adds the batch. */
  lemma UpsertKeepsExpected(points: Points, entries: seq<Entry>, from: nat, to: nat, e: Entry)
    requires DistinctIds(entries) && from <= to <= |entries|
    requires e in entries && (Stored(points, e) || e in entries[from..to])
    ensures Stored(UpsertAll(points, entries[from..to]), e)
  {
    var batch := entries[from..to];
    assert DistinctIds(batch) by {
      forall i, j | 0 <= i < j < |batch| ensures batch[i].id != batch[j].id {
        assert batch[i] == entries[from + i] && batch[j] == entries[from + j];
      }
    }
    UpsertStores(points, batch);
    if e.id in Ids(batch) {
      var i :| 0 <= i < |batch| && batch[i].id == e.id;
      var j :| 0 <= j < |entries| && entries[j] == e;
      assert entries[from + i] == batch[i];
      assert from + i == j;
    }
  }

  /** The first p points are there; upserting the next batch makes it the first q. */
  lemma UpsertExtendsPrefix(points: Points, entries: seq<Entry>, p: nat, q: nat)
    requires DistinctIds(entries) && p <= q <= |entries| && AllStored(points, entries[..p])
    ensures AllStored(UpsertAll(points, entries[p..q]), entries[..q])
  {
    forall i | 0 <= i < q ensures Stored(UpsertAll(points, entries[p..q]), entries[..q][i]) {
      if i < p {
        assert entries[..p][i] == entries[i];
      } else {
        assert entries[p..q][i - p] == entries[i];
      }
      UpsertKeepsExpected(points, entries, p, q, entries[i]);
    }
  }

  // ---- what later writes do to an exact collection -----------------------------------------------------------------

  predicate Within(batch: seq<Entry>, entries: seq<Entry>) { forall i | 0 <= i < |batch| :: batch[i] in entries }

  /** The last entry written under each identity is one that is expected. */
  ghost predicate Settled(landed: seq<Entry>, entries: seq<Entry>) {
    forall id | id in UpsertAll(map[], landed) :: Entry(id, UpsertAll(map[], landed)[id]) in entries
  }

  lemma {:induction false} UpsertMerges(points: Points, batch: seq<Entry>)
    ensures UpsertAll(points, batch) == points + UpsertAll(map[], batch)
  {
    if batch != [] {
      UpsertMerges(points, batch[..|batch|-1]);
    }
  }

  lemma {:induction false} UpsertWrites(batch: seq<Entry>, id: PointId)
    requires id in UpsertAll(map[], batch)
    ensures Entry(id, UpsertAll(map[], batch)[id]) in batch
  {
    if batch != [] {
      var front, last := batch[..|batch|-1], batch[|batch|-1];
      if id == last.id {
        assert batch[|batch|-1] == Entry(id, last.point);
      } else {
        UpsertWrites(front, id);
        assert forall e | e in front :: e in batch;
      }
    }
  }

  /** An exact collection stays exact under later writes if and only if what each identity ends with is expected. */
  lemma ExactAfterWrites(points: Points, landed: seq<Entry>, entries: seq<Entry>)
    requires Exact(points, entries) && DistinctIds(entries)
    ensures Exact(UpsertAll(points, landed), entries) <==> Settled(landed, entries)
  {
    var written := UpsertAll(map[], landed);
    UpsertMerges(points, landed);
    if Settled(landed, entries) {
      SettledStaysExact(points, written, entries);
    }
    if Exact(points + written, entries) {
      forall id | id in written ensures Entry(id, written[id]) in entries {
        var i :| 0 <= i < |entries| && entries[i].id == id;
        assert Stored(points + written, entries[i]);
        assert entries[i] == Entry(id, written[id]);
      }
    }
  }

  lemma SettledStaysExact(points: Points, written: Points, entries: seq<Entry>)
    requires Exact(points, entries) && DistinctIds(entries)
    requires forall id | id in written :: Entry(id, written[id]) in entries
    ensures Exact(points + written, entries)
  {
    var store := points + written;
    forall i | 0 <= i < |entries| ensures Stored(store, entries[i]) {
      assert Stored(points, entries[i]);
      if entries[i].id in written {
        var e := Entry(entries[i].id, written[entries[i].id]);
        var j :| 0 <= j < |entries| && entries[j] == e;
        assert i == j;
      }
    }
    forall id | id in store ensures exists i | 0 <= i < |entries| :: entries[i].id == id {
      if id in written {
        var j :| 0 <= j < |entries| && entries[j] == Entry(id, written[id]);
      }
    }
  }

  lemma WithinIsSettled(landed: seq<Entry>, entries: seq<Entry>)
    requires Within(landed, entries)
    ensures Settled(landed, entries)
  {
    forall id | id in UpsertAll(map[], landed) ensures Entry(id, UpsertAll(map[], landed)[id]) in entries {
      UpsertWrites(landed, id);
    }
  }

  // ---- the expected points, field by field ---------------------------------------------------------------------------

  /** How many chunks the targets before i have. */
  function ChunksBefore(targets: seq<Target>, i: nat): nat
    requires i <= |targets|
  {
    if i == 0 then 0 else ChunksBefore(targets, i - 1) + |targets[i-1].chunks|
  }

  lemma {:induction false} OffsetCounts(s: Snapshot, i: nat)
    requires i <= |s.targets|
    ensures Offset(s, i) == ChunksBefore(s.targets, i)
  {
    if i == 0 {
      assert s.targets[..0] == [];
    } else {
      OffsetCounts(s, i - 1);
      TargetSegment(s, i - 1);
    }
  }

  /**
   The order of a repair: the chunks of the first target, then those of the second, and so on. A point is named
   after its version, chunk number and chunk hash, and carries the document, the version, the whole chunk and the metadata.
   */
  lemma ExpectedFieldByField(s: Snapshot, i: nat, k: nat)
    requires i < |s.targets| && k < |s.targets[i].chunks|
    ensures PointTotal(s) == ChunksBefore(s.targets, |s.targets|) && ChunksBefore(s.targets, i) + k < PointTotal(s)
    ensures var t, c, e := s.targets[i], s.targets[i].chunks[k], Expected(s)[ChunksBefore(s.targets, i) + k];
            && e.id.version == t.version && e.id.index == c.index && e.id.hash == c.hash
            && e.point.dimension == s.dimension
            && e.point.payload.document == t.document && e.point.payload.version == t.version
            && e.point.payload.chunk == c && e.point.payload.metadata == t.metadata
  {
    OffsetCounts(s, i);
    OffsetCounts(s, |s.targets|);
    WholeOffset(s);
    EntryAt(s, i, k);
  }

  /** The point of one chunk is stored under its own name, with its own content. */
  predicate ChunkStored(points: Points, s: Snapshot, i: nat, k: nat)
    requires i < |s.targets| && k < |s.targets[i].chunks|
  {
    var t, c := s.targets[i], s.targets[i].chunks[k];
    && PointId(t.version, c.index, c.hash) in points
    && points[PointId(t.version, c.index, c.hash)] == Point(s.dimension, Payload(t.document, t.version, c, t.metadata))
  }

  predicate NamesChunk(s: Snapshot, i: nat, k: nat, id: PointId) {
    i < |s.targets| && k < |s.targets[i].chunks|
    && id.version == s.targets[i].version && id.index == s.targets[i].chunks[k].index && id.hash == s.targets[i].chunks[k].hash
  }

  ghost predicate AllChunksStored(points: Points, s: Snapshot) {
    forall i, k | 0 <= i < |s.targets| && 0 <= k < |s.targets[i].chunks| :: ChunkStored(points, s, i, k)
  }

  ghost predicate NamesSomeChunk(s: Snapshot, id: PointId) { exists i, k :: NamesChunk(s, i, k, id) }

  lemma NamedIsExpected(s: Snapshot, id: PointId)
    ensures id in Ids(Expected(s)) <==> NamesSomeChunk(s, id)
  {
    WholeOffset(s);
    if id in Ids(Expected(s)) {
      var p :| 0 <= p < PointTotal(s) && Expected(s)[p].id == id;
      var i, k := Locate(s, |s.targets|, p);
      EntryAt(s, i, k);
      assert NamesChunk(s, i, k, id);
    }
    if NamesSomeChunk(s, id) {
      var i, k :| NamesChunk(s, i, k, id);
      EntryAt(s, i, k);
      assert Expected(s)[Offset(s, i) + k].id == id;
    }
  }

  lemma AllStoredFieldByField(s: Snapshot, points: Points)
    ensures AllStored(points, Expected(s)) <==> AllChunksStored(points, s)
  {
    WholeOffset(s);
    if AllStored(points, Expected(s)) {
      forall i, k | 0 <= i < |s.targets| && 0 <= k < |s.targets[i].chunks| ensures ChunkStored(points, s, i, k) {
        EntryAt(s, i, k);
        assert Stored(points, Expected(s)[Offset(s, i) + k]);
      }
    }
    if AllChunksStored(points, s) {
      forall p | 0 <= p < PointTotal(s) ensures Stored(points, Expected(s)[p]) {
        var i, k := Locate(s, |s.targets|, p);
        EntryAt(s, i, k);
        assert ChunkStored(points, s, i, k);
      }
    }
  }

  /** A collection is exact when every chunk's point is stored and every stored point is named after a chunk. */
  lemma ExactFieldByField(s: Snapshot, points: Points)
    ensures Exact(points, Expected(s)) <==> AllChunksStored(points, s) && forall id | id in points :: NamesSomeChunk(s, id)
  {
    AllStoredFieldByField(s, points);
    hide AllStored, AllChunksStored, Expected, NamesSomeChunk;
    forall id | id in points
      ensures NamesSomeChunk(s, id) <==> exists i | 0 <= i < PointTotal(s) :: Expected(s)[i].id == id
    {
      NamedIsExpected(s, id);
      if id in Ids(Expected(s)) {
        var i :| 0 <= i < PointTotal(s) && Expected(s)[i].id == id;
      }
      if i :| 0 <= i < PointTotal(s) && Expected(s)[i].id == id {
        assert id in Ids(Expected(s));
      }
    }
  }

  /** The points of all chunks are stored, and nothing else has changed. */
  ghost predicate ChunksAdded(s: Snapshot, before: Points, after: Points) {
    && AllChunksStored(after, s)
    && forall id | !NamesSomeChunk(s, id) :: (id in after <==> id in before) && (id in before ==> after[id] == before[id])
  }

  lemma UpsertAddsChunks(s: Snapshot, points: Points)
    requires WellFormed(s)
    ensures ChunksAdded(s, points, UpsertAll(points, Expected(s)))
  {
    ExpectedIdsDistinct(s);
    UpsertStores(points, Expected(s));
    AllStoredFieldByField(s, UpsertAll(points, Expected(s)));
    hide Expected, UpsertAll, AllChunksStored, NamesSomeChunk;
    forall id | !NamesSomeChunk(s, id) ensures id !in Ids(Expected(s)) {
      NamedIsExpected(s, id);
    }
  }
}
