/**
 Publishing a staged object under its final key, infrastructure/minio_store.py: a multipart copy pinned
 to one version of the source and completed only if the destination is absent, by any number of
 publishers at once. A checksum is modelled by the bytes it was computed over.
 */
module Publish {
  import opened Prelude

  type Bytes = seq<byte>

  // ---- part ranges -----------------------------------------------------------------------------------------------

  /** An inclusive byte range, as the copy-source-range header gives it. */
  datatype Range = Range(first: nat, last: nat)

  /** Consecutive nonempty ranges from `start`, none longer than a part. */
  predicate Consecutive(ranges: seq<Range>, start: nat, partSize: nat) {
    forall i {:trigger StopBefore(ranges, start, i)} | 0 <= i < |ranges| :: Continues(ranges[i], StopBefore(ranges, start, i), partSize)
  }

  predicate Continues(r: Range, from: nat, partSize: nat) { r.first == from && r.first <= r.last < r.first + partSize }

  function StopBefore(ranges: seq<Range>, start: nat, i: nat): nat
    requires i <= |ranges|
  {
    if i == 0 then start else ranges[i-1].last + 1
  }

  /** Where the ranges stop. */
  function End(ranges: seq<Range>, start: nat): nat { if ranges == [] then start else ranges[|ranges|-1].last + 1 }

  function Cut(body: Bytes, r: Range): Bytes
    requires r.first <= r.last < |body|
  {
    body[r.first..r.last + 1]
  }

  function Joined(parts: seq<Bytes>): Bytes {
    if parts == [] then [] else Joined(parts[..|parts|-1]) + parts[|parts|-1]
  }

  /** The part that starts at a byte: its range ends at the part size or the last byte. */
  function RangeAt(start: nat, size: nat, partSize: nat): (r: Range)
    requires start < size && partSize > 0
    ensures r.first == start && start <= r.last < size && r.last < start + partSize
    ensures r.last + 1 == size || r.last + 1 == start + partSize
  {
    Range(start, if size - 1 < start + partSize - 1 then size - 1 else start + partSize - 1)
  }

  /** The loop over `range(0, expected_size, part_size)`. */
  method PartRanges(size: nat, partSize: nat) returns (ranges: seq<Range>)
    requires partSize > 0
    ensures Consecutive(ranges, 0, partSize) && End(ranges, 0) == size
    ensures forall i, j | 0 <= i < j < |ranges| :: ranges[i].last < ranges[j].first
    ensures forall i | 0 <= i < |ranges| :: ranges[i].first == i * partSize
  {
    ranges := [];
    var start := 0;
    while start < size
      invariant Consecutive(ranges, 0, partSize) && start == |ranges| * partSize
      invariant End(ranges, 0) == if start < size then start else size
      invariant forall i | 0 <= i < |ranges| :: ranges[i].first == i * partSize
      decreases size + partSize - start
    {
      var range := RangeAt(start, size, partSize);
      ConsecutiveAppend(ranges, range, partSize);
      TimesNext(|ranges|, partSize);
      ranges := ranges + [range];
      start := start + partSize;
    }
    forall i, j | 0 <= i < j < |ranges| ensures ranges[i].last < ranges[j].first {
      RangesAscend(ranges, partSize, i, j);
    }
  }

  lemma {:induction false} RangesAscend(ranges: seq<Range>, partSize: nat, i: nat, j: nat)
    requires Consecutive(ranges, 0, partSize) && i < j < |ranges|
    ensures ranges[i].last < ranges[j].first
    decreases j
  {
    assert Continues(ranges[j], StopBefore(ranges, 0, j), partSize);
    assert Continues(ranges[j-1], StopBefore(ranges, 0, j - 1), partSize);
    if i < j - 1 {
      RangesAscend(ranges, partSize, i, j - 1);
    }
  }

  lemma FrontConsecutive(ranges: seq<Range>, partSize: nat)
    requires Consecutive(ranges, 0, partSize) && ranges != []
    ensures var n := |ranges| - 1;
            Consecutive(ranges[..n], 0, partSize) && End(ranges[..n], 0) == ranges[n].first <= End(ranges, 0)
  {
    var n := |ranges| - 1;
    var front := ranges[..n];
    forall i | 0 <= i < n ensures Continues(front[i], StopBefore(front, 0, i), partSize) {
      assert Continues(ranges[i], StopBefore(ranges, 0, i), partSize);
      assert front[i] == ranges[i] && StopBefore(front, 0, i) == StopBefore(ranges, 0, i);
    }
    assert Continues(ranges[n], StopBefore(ranges, 0, n), partSize);
    assert n > 0 ==> front[n-1] == ranges[n-1];
  }

  lemma ConsecutiveAppend(ranges: seq<Range>, r: Range, partSize: nat)
    requires Consecutive(ranges, 0, partSize) && r.first == End(ranges, 0) && r.first <= r.last < r.first + partSize
    ensures Consecutive(ranges + [r], 0, partSize) && End(ranges + [r], 0) == r.last + 1
  {
    var more := ranges + [r];
    forall i | 0 <= i < |more| ensures Continues(more[i], StopBefore(more, 0, i), partSize) {
      if i < |ranges| {
        assert Continues(ranges[i], StopBefore(ranges, 0, i), partSize);
      }
      assert StopBefore(more, 0, i) == StopBefore(ranges, 0, i);
    }
  }

  lemma TimesNext(n: nat, k: nat)
    ensures (n + 1) * k == n * k + k
  {}

  /** Cutting a body along consecutive ranges and joining the parts gives back what the ranges span. */
  lemma {:induction false} PartsReassemble(body: Bytes, ranges: seq<Range>, partSize: nat, parts: seq<Bytes>)
    requires Consecutive(ranges, 0, partSize) && End(ranges, 0) <= |body|
    requires |parts| == |ranges| && forall i | 0 <= i < |ranges| ::
      ranges[i].first <= ranges[i].last < |body| && parts[i] == Cut(body, ranges[i])
    ensures Joined(parts) == body[..End(ranges, 0)]
  {
    if ranges != [] {
      var n := |ranges| - 1;
      FrontConsecutive(ranges, partSize);
      PartsReassemble(body, ranges[..n], partSize, parts[..n]);
      assert body[..ranges[n].first] + body[ranges[n].first..ranges[n].last + 1] == body[..ranges[n].last + 1];
    }
  }

  // ---- the object store ---------------------------------------------------------------------------------------------

  datatype Key = Temp(job: nat, name: nat) | Final(name: nat)

  /** A stored object: its bytes, the checksum its metadata claims, and the tag of this version. */
  datatype Object = Object(body: Bytes, checksum: Bytes, etag: nat)

  datatype Upload = Upload(key: Key, checksum: Bytes, parts: seq<Bytes>)

  datatype Request = Request(source: Key, final: Key, size: nat, checksum: Bytes)

  datatype Outcome =
    | Receipt(reused: bool)
    | ChecksumConflict
    | VerificationFailed
    | Unavailable

  /** Where a publisher stands; `etag` is the source version it verified. */
  datatype Position =
    | Verifying
    | Heading(etag: nat)
    | Creating(etag: nat)
    | Copying(etag: nat, upload: nat)
    | Completing(etag: nat, upload: nat)
    | Raced
    | Rechecking
    | Done(outcome: Outcome)

  datatype Publisher = Publisher(request: Request, position: Position)

  datatype World = World(
    partSize: nat, objects: map<Key, Object>, uploads: map<nat, Upload>, publishers: map<nat, Publisher>,
    nextEtag: nat, nextUpload: nat, ghost versions: map<nat, Object>, ghost staged: set<nat>)

  datatype Step =
    | Stage(job: nat, name: nat, body: Bytes, checksum: Bytes)
    | Delete(key: Key)
    | Begin(p: nat, request: Request)
    | VerifySource(p: nat)
    | HeadFinal(p: nat)
    | CreateUpload(p: nat)
    | CopyPart(p: nat)
    | CompleteUpload(p: nat, answered: bool)
    | HeadRaced(p: nat)
    | Recheck(p: nat)
    | Fail(p: nat)

  ghost function Start(partSize: nat): World { World(partSize, map[], map[], map[], 0, 0, map[], {}) }

  ghost function Put(w: World, key: Key, body: Bytes, checksum: Bytes): World {
    var o := Object(body, checksum, w.nextEtag);
    w.(objects := w.objects[key := o], versions := w.versions[w.nextEtag := o], nextEtag := w.nextEtag + 1)
  }

  ghost function Move(w: World, p: nat, position: Position): World
    requires p in w.publishers
  {
    w.(publishers := w.publishers[p := w.publishers[p].(position := position)])
  }

  /** `_verified_stat` and the comparison of `_reuse_or_conflict`. */
  predicate Matches(w: World, key: Key, r: Request) {
    key in w.objects && |w.objects[key].body| == r.size && w.objects[key].checksum == r.checksum
  }

  ghost function ReuseOrConflict(w: World, p: nat): World
    requires p in w.publishers
  {
    var r := w.publishers[p].request;
    Move(w, p, Done(if Matches(w, r.final, r) then Receipt(true) else ChecksumConflict))
  }

  ghost function Copied(w: World, p: nat, etag: nat, id: nat): World
    requires p in w.publishers && id in w.uploads && w.partSize > 0
  {
    var r, u := w.publishers[p].request, w.uploads[id];
    var start := |u.parts| * w.partSize;
    if start >= r.size then Move(w, p, Completing(etag, id))
    else if r.source !in w.objects then Move(w.(uploads := w.uploads - {id}), p, Done(Unavailable))
    else if w.objects[r.source].etag != etag then Move(w.(uploads := w.uploads - {id}), p, Done(VerificationFailed))
    else
      var range := RangeAt(start, r.size, w.partSize);
      if range.last >= |w.objects[r.source].body| then Move(w.(uploads := w.uploads - {id}), p, Done(Unavailable))
      else w.(uploads := w.uploads[id := u.(parts := u.parts + [Cut(w.objects[r.source].body, range)])])
  }

  /** If-None-Match with an asterisk, section 13.1.2 of RFC 9110: the upload completes only if the key is absent. */
  ghost function Completed(w: World, p: nat, id: nat, answered: bool): World
    requires p in w.publishers && id in w.uploads
  {
    var r, u := w.publishers[p].request, w.uploads[id];
    var closed := w.(uploads := w.uploads - {id});
    if u.key in w.objects then Move(closed, p, Raced)
    else Move(Put(closed, u.key, Joined(u.parts), u.checksum), p, if answered then Rechecking else Done(Unavailable))
  }

  ghost function Advance(w: World, p: nat, step: Step): World
    requires p in w.publishers && w.partSize > 0
  {
    var r, at := w.publishers[p].request, w.publishers[p].position;
    match step
    case VerifySource(_) =>
      if !at.Verifying? then w
      else Move(w, p, if Matches(w, r.source, r) then Heading(w.objects[r.source].etag) else Done(VerificationFailed))
    case HeadFinal(_) =>
      if !at.Heading? then w
      else if r.final in w.objects then ReuseOrConflict(w, p) else Move(w, p, Creating(at.etag))
    case CreateUpload(_) =>
      if !at.Creating? then w
      else
        Move(w.(uploads := w.uploads[w.nextUpload := Upload(r.final, r.checksum, [])], nextUpload := w.nextUpload + 1),
             p, Copying(at.etag, w.nextUpload))
    case CopyPart(_) =>
      if !at.Copying? || at.upload !in w.uploads then w else Copied(w, p, at.etag, at.upload)
    case CompleteUpload(_, answered) =>
      if !at.Completing? || at.upload !in w.uploads then w else Completed(w, p, at.upload, answered)
    case HeadRaced(_) =>
      if !at.Raced? then w
      else if r.final !in w.objects then Move(w, p, Done(Unavailable)) else ReuseOrConflict(w, p)
    case Recheck(_) =>
      if !at.Rechecking? then w
      else Move(w, p, Done(if Matches(w, r.final, r) then Receipt(false) else VerificationFailed))
    case Fail(_) => if at.Done? then w else Move(w, p, Done(Unavailable))
    case _ => w
  }

  ghost function Apply(w: World, step: Step): World {
    if w.partSize == 0 then w
    else match step
      case Stage(job, name, body, checksum) => Put(w, Temp(job, name), body, checksum).(staged := w.staged + {w.nextEtag})
      case Delete(key) => w.(objects := w.objects - {key})
      case Begin(p, r) =>
        if p in w.publishers || r.size == 0 || !r.final.Final? then w
        else w.(publishers := w.publishers[p := Publisher(r, Verifying)])
      case _ => if step.p in w.publishers then Advance(w, step.p, step) else w
  }

  ghost function After(w: World, run: seq<Step>): World {
    if run == [] then w else Apply(After(w, run[..|run|-1]), run[|run|-1])
  }

  // ---- an object under a final key never changes -------------------------------------------------------------------

  /** Whoever publishes, an object under a final key stays as it is until it is deleted. */
  lemma FinalObjectsAreImmutable(w: World, step: Step, key: Key)
    requires key.Final? && key in w.objects && step != Delete(key)
    ensures key in Apply(w, step).objects && Apply(w, step).objects[key] == w.objects[key]
  {}

  /** Over any continuation of a run that does not delete the key. */
  lemma {:induction false} FinalObjectStays(w: World, more: seq<Step>, key: Key)
    requires key.Final? && key in w.objects && Delete(key) !in more
    ensures key in After(w, more).objects && After(w, more).objects[key] == w.objects[key]
  {
    if more != [] {
      var front := more[..|more|-1];
      assert forall i | 0 <= i < |front| :: front[i] == more[i];
      FinalObjectStays(w, front, key);
      FinalObjectsAreImmutable(After(w, front), more[|more|-1], key);
    }
  }

  /** A receipt is given only for a stored object of the size and checksum asked for. */
  lemma ReceiptMatchesStored(w: World, step: Step, p: nat)
    requires p in Apply(w, step).publishers && GivesReceipt(Apply(w, step).publishers[p].position)
    requires p in w.publishers ==> !w.publishers[p].position.Done?
    ensures p in w.publishers && Matches(Apply(w, step), w.publishers[p].request.final, w.publishers[p].request)
    ensures Apply(w, step).objects == w.objects
  {
    if !step.Stage? && !step.Delete? && !step.Begin? && step.p in w.publishers && w.partSize > 0 {
      if step.p != p {
        OnlyOwnPosition(w, step.p, step, p);
      } else {
        AdvanceGivesReceipt(w, p, step);
      }
    }
  }

  ghost predicate OthersUntouched(w: World, after: World, p: nat) {
    forall q | q != p ::
      (q in after.publishers <==> q in w.publishers) && (q in w.publishers ==> after.publishers[q] == w.publishers[q])
  }

  lemma CopiedMovesOne(w: World, p: nat, etag: nat, id: nat)
    requires p in w.publishers && id in w.uploads && w.partSize > 0
    ensures OthersUntouched(w, Copied(w, p, etag, id), p)
  {
    hide RangeAt, Cut;
  }

  lemma CompletedMovesOne(w: World, p: nat, id: nat, answered: bool)
    requires p in w.publishers && id in w.uploads
    ensures OthersUntouched(w, Completed(w, p, id, answered), p)
  {
    hide Joined;
  }

  lemma OnlyOwnPosition(w: World, p: nat, step: Step, q: nat)
    requires p in w.publishers && w.partSize > 0 && q != p
    ensures q in Advance(w, p, step).publishers <==> q in w.publishers
    ensures q in w.publishers ==> Advance(w, p, step).publishers[q] == w.publishers[q]
  {
    hide Copied, Completed;
    var at := w.publishers[p].position;
    if at.Copying? && at.upload in w.uploads {
      CopiedMovesOne(w, p, at.etag, at.upload);
    }
    if at.Completing? && at.upload in w.uploads && step.CompleteUpload? {
      CompletedMovesOne(w, p, at.upload, step.answered);
    }
    assert OthersUntouched(w, Advance(w, p, step), p);
  }

  lemma AdvanceGivesReceipt(w: World, p: nat, step: Step)
    requires p in w.publishers && w.partSize > 0 && !w.publishers[p].position.Done?
    requires GivesReceipt(Advance(w, p, step).publishers[p].position)
    ensures Matches(w, w.publishers[p].request.final, w.publishers[p].request) && Advance(w, p, step).objects == w.objects
  {}

  predicate GivesReceipt(at: Position) { at.Done? && at.outcome.Receipt? }

  // ---- what is published is what was staged ----------------------------------------------------------------------------

  ghost predicate Recorded(w: World, o: Object) { o.etag in w.versions && w.versions[o.etag] == o }

  /** Some staged version has these bytes and this claimed checksum. */
  ghost predicate Staged(w: World, body: Bytes, checksum: Bytes) {
    exists e :: e in w.staged && e in w.versions && w.versions[e].body == body && w.versions[e].checksum == checksum
  }

  ghost predicate VersionsOk(w: World) {
    && (forall k | k in w.objects :: Recorded(w, w.objects[k]))
    && (forall e | e in w.versions :: e < w.nextEtag && w.versions[e].etag == e)
    && (forall e | e in w.versions :: Staged(w, w.versions[e].body, w.versions[e].checksum))
    && (forall u | u in w.uploads :: u < w.nextUpload)
  }

  /** The version a publisher verified has the size and checksum it was asked to publish. */
  ghost predicate Verified(w: World, r: Request, etag: nat) {
    etag in w.versions && |w.versions[etag].body| == r.size && w.versions[etag].checksum == r.checksum
  }

  function PrefixOf(body: Bytes, n: nat): Bytes { if n <= |body| then body[..n] else body }

  /** The parts copied so far are the first ranges of that version, in order. */
  ghost predicate PartsCopied(w: World, r: Request, etag: nat, id: nat) {
    && id < w.nextUpload
    && Verified(w, r, etag)
    && (id in w.uploads ==>
          && w.uploads[id].key == r.final && w.uploads[id].checksum == r.checksum
          && Joined(w.uploads[id].parts) == PrefixOf(w.versions[etag].body, |w.uploads[id].parts| * w.partSize))
  }

  ghost predicate PublisherOk(w: World, b: Publisher) {
    && b.request.size > 0 && b.request.final.Final?
    && match b.position
       case Heading(e) => Verified(w, b.request, e)
       case Creating(e) => Verified(w, b.request, e)
       case Copying(e, id) => PartsCopied(w, b.request, e, id)
       case Completing(e, id) =>
         PartsCopied(w, b.request, e, id) && (id in w.uploads ==> Joined(w.uploads[id].parts) == w.versions[e].body)
       case _ => true
  }

  function Held(at: Position): Option<nat> {
    match at
    case Copying(_, id) => Some(id)
    case Completing(_, id) => Some(id)
    case _ => None
  }

  /** No two publishers hold the same upload. */
  ghost predicate UploadsApart(w: World) {
    forall p, q | p in w.publishers && q in w.publishers && p != q :: Apart(w.publishers[p].position, w.publishers[q].position)
  }

  predicate Apart(a: Position, b: Position) { Held(a).None? || Held(a) != Held(b) }

  ghost predicate Inv(w: World) {
    && w.partSize > 0
    && VersionsOk(w)
    && (forall p | p in w.publishers :: PublisherOk(w, w.publishers[p]))
    && UploadsApart(w)
  }

  /** Versions are only added, tags and upload numbers only grow. */
  ghost predicate Grows(w: World, after: World) {
    && after.partSize == w.partSize && w.nextUpload <= after.nextUpload
    && (forall e | e in w.versions :: e in after.versions && after.versions[e] == w.versions[e])
  }

  /** A publisher's own upload is as it was, or closed. */
  ghost predicate UploadKept(w: World, after: World, at: Position) {
    Held(at).Some? && Held(at).value in after.uploads ==>
      Held(at).value in w.uploads && after.uploads[Held(at).value] == w.uploads[Held(at).value]
  }

  lemma PublisherStays(w: World, after: World, b: Publisher)
    requires PublisherOk(w, b) && Grows(w, after) && UploadKept(w, after, b.position)
    ensures PublisherOk(after, b)
  {}

  /** A step of one publisher leaves the others as they were. */
  lemma OthersStay(w: World, after: World, p: nat)
    requires Inv(w) && Grows(w, after) && p in after.publishers && PublisherOk(after, after.publishers[p])
    requires forall q | q != p :: q in after.publishers <==> q in w.publishers
    requires forall q | q in after.publishers && q != p ::
               after.publishers[q] == w.publishers[q] && UploadKept(w, after, w.publishers[q].position)
    requires Held(after.publishers[p].position).None?
             || (p in w.publishers && Held(w.publishers[p].position) == Held(after.publishers[p].position))
             || Held(after.publishers[p].position).value >= w.nextUpload
    requires VersionsOk(after)
    ensures Inv(after)
  {
    forall q | q in after.publishers ensures PublisherOk(after, after.publishers[q]) {
      if q != p {
        PublisherStays(w, after, w.publishers[q]);
      }
    }
    forall q, r | q in after.publishers && r in after.publishers && q != r
      ensures Apart(after.publishers[q].position, after.publishers[r].position)
    {
      if q != p {
        assert PublisherOk(w, w.publishers[q]);
      }
      if r != p {
        assert PublisherOk(w, w.publishers[r]);
      }
      if p in w.publishers || (q != p && r != p) {
        assert q in w.publishers && r in w.publishers;
        assert Apart(w.publishers[q].position, w.publishers[r].position);
        assert Apart(w.publishers[r].position, w.publishers[q].position);
      }
    }
  }

  /** The world after a put, by the uploader or by a completed upload. */
  ghost function AfterPut(w: World, key: Key, body: Bytes, checksum: Bytes, fromStage: bool): World {
    var put := Put(w, key, body, checksum);
    if fromStage then put.(staged := w.staged + {w.nextEtag}) else put
  }

  lemma PutStaged(w: World, key: Key, body: Bytes, checksum: Bytes, fromStage: bool, e: nat)
    requires VersionsOk(w) && (fromStage || Staged(w, body, checksum))
    requires e in AfterPut(w, key, body, checksum, fromStage).versions
    ensures var after := AfterPut(w, key, body, checksum, fromStage);
            Staged(after, after.versions[e].body, after.versions[e].checksum)
  {
    var after := AfterPut(w, key, body, checksum, fromStage);
    if e == w.nextEtag && fromStage {
      assert e in after.staged;
    } else {
      StagedStays(w, after, after.versions[e].body, after.versions[e].checksum);
    }
  }

  lemma PutVersions(w: World, key: Key, body: Bytes, checksum: Bytes, fromStage: bool)
    requires VersionsOk(w) && (fromStage || Staged(w, body, checksum))
    ensures VersionsOk(AfterPut(w, key, body, checksum, fromStage)) && Grows(w, AfterPut(w, key, body, checksum, fromStage))
  {
    var after := AfterPut(w, key, body, checksum, fromStage);
    hide Staged;
    forall e | e in after.versions ensures Staged(after, after.versions[e].body, after.versions[e].checksum) {
      PutStaged(w, key, body, checksum, fromStage, e);
    }
    forall k | k in after.objects ensures Recorded(after, after.objects[k]) {
      if k != key {
        assert Recorded(w, w.objects[k]);
      }
    }
  }

  lemma StagedStays(w: World, after: World, body: Bytes, checksum: Bytes)
    requires Staged(w, body, checksum) && w.staged <= after.staged
    requires forall e | e in w.versions :: e in after.versions && after.versions[e] == w.versions[e]
    ensures Staged(after, body, checksum)
  {
    var s :| s in w.staged && s in w.versions && w.versions[s].body == body && w.versions[s].checksum == checksum;
    assert s in after.staged && after.versions[s] == w.versions[s];
  }

  lemma StageKeeps(w: World, job: nat, name: nat, body: Bytes, checksum: Bytes)
    requires Inv(w)
    ensures Inv(Apply(w, Stage(job, name, body, checksum)))
  {
    var after := Apply(w, Stage(job, name, body, checksum));
    PutVersions(w, Temp(job, name), body, checksum, true);
    forall p | p in w.publishers ensures PublisherOk(after, w.publishers[p]) {
      PublisherStays(w, after, w.publishers[p]);
    }
  }

  lemma DeleteKeeps(w: World, key: Key)
    requires Inv(w)
    ensures Inv(Apply(w, Delete(key)))
  {
    var after := Apply(w, Delete(key));
    SameVersions(w, after);
    forall p | p in w.publishers ensures PublisherOk(after, w.publishers[p]) {
      PublisherStays(w, after, w.publishers[p]);
    }
  }

  /** Neither objects nor versions are added. */
  lemma SameVersions(w: World, after: World)
    requires VersionsOk(w) && after.versions == w.versions && after.staged == w.staged && after.nextEtag == w.nextEtag
    requires w.nextUpload <= after.nextUpload && after.partSize == w.partSize
    requires forall k | k in after.objects :: k in w.objects && after.objects[k] == w.objects[k]
    requires forall u | u in after.uploads :: u < after.nextUpload
    ensures VersionsOk(after) && Grows(w, after)
  {
    forall e | e in after.versions ensures Staged(after, after.versions[e].body, after.versions[e].checksum) {
      assert Staged(w, w.versions[e].body, w.versions[e].checksum);
    }
    forall k | k in after.objects ensures Recorded(after, after.objects[k]) {
      assert Recorded(w, w.objects[k]);
    }
  }

  /** A step that only moves the publisher to a place that holds nothing. */
  lemma MoveKeeps(w: World, p: nat, at: Position)
    requires Inv(w) && p in w.publishers && Held(at).None?
    requires PublisherOk(w, w.publishers[p].(position := at))
    ensures Inv(Move(w, p, at))
  {
    var after := Move(w, p, at);
    SameVersions(w, after);
    PublisherStays(w, after, w.publishers[p].(position := at));
    OthersStay(w, after, p);
  }

  lemma VerifyKeeps(w: World, p: nat)
    requires Inv(w) && p in w.publishers
    ensures Inv(Apply(w, VerifySource(p)))
  {
    var r := w.publishers[p].request;
    if w.publishers[p].position.Verifying? {
      if Matches(w, r.source, r) {
        assert Recorded(w, w.objects[r.source]);
        MoveKeeps(w, p, Heading(w.objects[r.source].etag));
      } else {
        MoveKeeps(w, p, Done(VerificationFailed));
      }
    }
  }

  lemma CreateKeeps(w: World, p: nat)
    requires Inv(w) && p in w.publishers
    ensures Inv(Apply(w, CreateUpload(p)))
  {
    var b := w.publishers[p];
    if b.position.Creating? {
      var after := Apply(w, CreateUpload(p));
      SameVersions(w, after);
      forall q | q in w.publishers && q != p ensures UploadKept(w, after, w.publishers[q].position) {
        assert PublisherOk(w, w.publishers[q]);
      }
      OthersStay(w, after, p);
    }
  }

  lemma NextPartAt(body: Bytes, parts: seq<Bytes>, start: nat, partSize: nat)
    requires partSize > 0 && start < |body| && Joined(parts) == body[..start]
    ensures Joined(parts + [Cut(body, RangeAt(start, |body|, partSize))]) == PrefixOf(body, start + partSize)
  {
    var range := RangeAt(start, |body|, partSize);
    var more := parts + [Cut(body, range)];
    assert more[..|more|-1] == parts;
    assert body[..start] + body[start..range.last + 1] == body[..range.last + 1];
    assert body[..|body|] == body;
  }

  /** Closing an upload takes nothing from anyone but its holder. */
  lemma CloseKeeps(w: World, id: nat)
    requires Inv(w)
    ensures Inv(w.(uploads := w.uploads - {id}))
  {
    var after := w.(uploads := w.uploads - {id});
    SameVersions(w, after);
    forall q | q in w.publishers ensures PublisherOk(after, w.publishers[q]) {
      PublisherStays(w, after, w.publishers[q]);
    }
  }

  lemma PutKeeps(w: World, key: Key, body: Bytes, checksum: Bytes)
    requires Inv(w) && Staged(w, body, checksum)
    ensures Inv(Put(w, key, body, checksum))
  {
    var after := Put(w, key, body, checksum);
    PutVersions(w, key, body, checksum, false);
    forall q | q in w.publishers ensures PublisherOk(after, w.publishers[q]) {
      PublisherStays(w, after, w.publishers[q]);
    }
  }

  /** One more part of the verified version. */
  lemma PartKeeps(w: World, p: nat)
    requires Inv(w) && p in w.publishers && w.publishers[p].position.Copying? && w.publishers[p].position.upload in w.uploads
    requires var at, r := w.publishers[p].position, w.publishers[p].request;
             var start := |w.uploads[at.upload].parts| * w.partSize;
             && start < r.size && r.source in w.objects && w.objects[r.source].etag == at.etag
             && RangeAt(start, r.size, w.partSize).last < |w.objects[r.source].body|
    ensures Inv(Copied(w, p, w.publishers[p].position.etag, w.publishers[p].position.upload))
  {
    var b := w.publishers[p];
    var e, id := b.position.etag, b.position.upload;
    var u, after := w.uploads[id], Copied(w, p, e, id);
    assert PublisherOk(w, b);
    assert Recorded(w, w.objects[b.request.source]);
    SameVersions(w, after);
    var start := |u.parts| * w.partSize;
    NextPartAt(w.versions[e].body, u.parts, start, w.partSize);
    TimesNext(|u.parts|, w.partSize);
    assert |after.uploads[id].parts| == |u.parts| + 1;
    forall q | q in w.publishers && q != p ensures UploadKept(w, after, w.publishers[q].position) {
      assert Apart(w.publishers[q].position, b.position);
    }
    OthersStay(w, after, p);
  }

  /** Every part is there: the same upload is held for completion. */
  lemma LastPartKeeps(w: World, p: nat)
    requires Inv(w) && p in w.publishers && w.publishers[p].position.Copying? && w.publishers[p].position.upload in w.uploads
    requires |w.uploads[w.publishers[p].position.upload].parts| * w.partSize >= w.publishers[p].request.size
    ensures Inv(Move(w, p, Completing(w.publishers[p].position.etag, w.publishers[p].position.upload)))
  {
    var b := w.publishers[p];
    var e, id := b.position.etag, b.position.upload;
    var after := Move(w, p, Completing(e, id));
    assert PublisherOk(w, b);
    SameVersions(w, after);
    assert w.versions[e].body[..|w.versions[e].body|] == w.versions[e].body;
    PublisherStays(w, after, b.(position := Completing(e, id)));
    OthersStay(w, after, p);
  }

  lemma CopyKeeps(w: World, p: nat)
    requires Inv(w) && p in w.publishers
    ensures Inv(Apply(w, CopyPart(p)))
  {
    var b := w.publishers[p];
    if b.position.Copying? && b.position.upload in w.uploads {
      var e, id := b.position.etag, b.position.upload;
      assert PublisherOk(w, b);
      var start := |w.uploads[id].parts| * w.partSize;
      if start >= b.request.size {
        LastPartKeeps(w, p);
      } else if b.request.source !in w.objects {
        CloseKeeps(w, id);
        MoveKeeps(w.(uploads := w.uploads - {id}), p, Done(Unavailable));
      } else if w.objects[b.request.source].etag != e {
        CloseKeeps(w, id);
        MoveKeeps(w.(uploads := w.uploads - {id}), p, Done(VerificationFailed));
      } else if RangeAt(start, b.request.size, w.partSize).last >= |w.objects[b.request.source].body| {
        CloseKeeps(w, id);
        MoveKeeps(w.(uploads := w.uploads - {id}), p, Done(Unavailable));
      } else {
        PartKeeps(w, p);
      }
    }
  }

  lemma CompleteKeeps(w: World, p: nat, answered: bool)
    requires Inv(w) && p in w.publishers
    ensures Inv(Apply(w, CompleteUpload(p, answered)))
  {
    var b := w.publishers[p];
    if b.position.Completing? && b.position.upload in w.uploads {
      var e, id := b.position.etag, b.position.upload;
      var u, closed := w.uploads[id], w.(uploads := w.uploads - {id});
      assert PublisherOk(w, b);
      CloseKeeps(w, id);
      if u.key in w.objects {
        MoveKeeps(closed, p, Raced);
      } else {
        CreatedKeeps(closed, p, e, u.key, if answered then Rechecking else Done(Unavailable));
      }
    }
  }

  /** A final object with the bytes and checksum of a version, and the publisher moved on. */
  lemma CreatedKeeps(w: World, p: nat, e: nat, key: Key, at: Position)
    requires Inv(w) && p in w.publishers && e in w.versions && (at.Rechecking? || at.Done?)
    ensures Inv(Move(Put(w, key, w.versions[e].body, w.versions[e].checksum), p, at))
  {
    assert Staged(w, w.versions[e].body, w.versions[e].checksum);
    PutKeeps(w, key, w.versions[e].body, w.versions[e].checksum);
    assert PublisherOk(w, w.publishers[p]);
    MoveKeeps(Put(w, key, w.versions[e].body, w.versions[e].checksum), p, at);
  }

  lemma BeginKeeps(w: World, p: nat, r: Request)
    requires Inv(w)
    ensures Inv(Apply(w, Begin(p, r)))
  {
    var after := Apply(w, Begin(p, r));
    if after != w {
      SameVersions(w, after);
      OthersStay(w, after, p);
    }
  }

  lemma StepKeeps(w: World, step: Step)
    requires Inv(w)
    ensures Inv(Apply(w, step))
  {
    match step
    case Stage(job, name, body, checksum) => StageKeeps(w, job, name, body, checksum);
    case Delete(key) => DeleteKeeps(w, key);
    case Begin(p, r) => BeginKeeps(w, p, r);
    case VerifySource(p) => if p in w.publishers { VerifyKeeps(w, p); }
    case CreateUpload(p) => if p in w.publishers { CreateKeeps(w, p); }
    case CopyPart(p) => if p in w.publishers { CopyKeeps(w, p); }
    case CompleteUpload(p, answered) => if p in w.publishers { CompleteKeeps(w, p, answered); }
    case HeadFinal(p) => if p in w.publishers { LookKeeps(w, step, p); }
    case HeadRaced(p) => if p in w.publishers { LookKeeps(w, step, p); }
    case Recheck(p) => if p in w.publishers { LookKeeps(w, step, p); }
    case Fail(p) => if p in w.publishers { LookKeeps(w, step, p); }
  }

  /** The steps that only look at the store. */
  lemma LookKeeps(w: World, step: Step, p: nat)
    requires Inv(w) && p in w.publishers
    requires step == HeadFinal(p) || step == HeadRaced(p) || step == Recheck(p) || step == Fail(p)
    ensures Inv(Apply(w, step))
  {
    hide Staged, Verified;
    if Apply(w, step) != w {
      assert PublisherOk(w, w.publishers[p]);
      MoveKeeps(w, p, Apply(w, step).publishers[p].position);
    }
  }

  lemma {:induction false} RunKeeps(partSize: nat, run: seq<Step>)
    requires partSize > 0
    ensures Inv(After(Start(partSize), run))
  {
    if run != [] {
      RunKeeps(partSize, run[..|run|-1]);
      StepKeeps(After(Start(partSize), run[..|run|-1]), run[|run|-1]);
    }
  }

  /** Every stored object, final ones included, has the exact bytes and claimed checksum of some staged version. */
  lemma PublishedIsStaged(partSize: nat, run: seq<Step>, key: Key)
    requires partSize > 0 && key in After(Start(partSize), run).objects
    ensures var w := After(Start(partSize), run); Staged(w, w.objects[key].body, w.objects[key].checksum)
  {
    RunKeeps(partSize, run);
    var w := After(Start(partSize), run);
    assert Recorded(w, w.objects[key]);
  }

  // ---- a receipt stays true ----------------------------------------------------------------------------------------

  lemma {:induction false} AfterJoins(w: World, a: seq<Step>, b: seq<Step>)
    ensures After(w, a + b) == After(After(w, a), b)
  {
    hide Apply;
    if b == [] {
      assert a + b == a;
    } else {
      assert (a + b)[..|a + b|-1] == a + b[..|b|-1];
      AfterJoins(w, a, b[..|b|-1]);
    }
  }

  lemma DoneStays(w: World, step: Step, p: nat)
    requires p in w.publishers && w.publishers[p].position.Done?
    ensures p in Apply(w, step).publishers && Apply(w, step).publishers[p] == w.publishers[p]
  {
    if !step.Stage? && !step.Delete? && !step.Begin? && step.p in w.publishers && w.partSize > 0 && step.p != p {
      OnlyOwnPosition(w, step.p, step, p);
    }
    hide Copied, Completed, ReuseOrConflict, RangeAt;
  }

  /** The moment a receipt was given. */
  lemma {:induction false} ReceiptGivenAt(w: World, run: seq<Step>, p: nat) returns (k: nat)
    requires w.publishers == map[]
    requires p in After(w, run).publishers && GivesReceipt(After(w, run).publishers[p].position)
    ensures k <= |run| && Matches(After(w, run[..k]), After(w, run).publishers[p].request.final, After(w, run).publishers[p].request)
  {
    hide Apply;
    assert run != [];
    var n := |run| - 1;
    var before := After(w, run[..n]);
    if p in before.publishers && before.publishers[p].position.Done? {
      DoneStays(before, run[n], p);
      k := ReceiptGivenAt(w, run[..n], p);
      assert run[..n][..k] == run[..k];
    } else {
      ReceiptMatchesStored(before, run[n], p);
      RequestStays(before, run[n], p);
      k := |run|;
      assert run[..k] == run;
    }
  }

  lemma RequestStays(w: World, step: Step, p: nat)
    requires p in w.publishers
    ensures p in Apply(w, step).publishers && Apply(w, step).publishers[p].request == w.publishers[p].request
  {
    if !step.Stage? && !step.Delete? && !step.Begin? && step.p in w.publishers && w.partSize > 0 && step.p != p {
      OnlyOwnPosition(w, step.p, step, p);
    }
    hide RangeAt, Cut, Joined, Matches;
  }

  /** From step k on, the final key holds one object of the size and checksum asked for, unless it was deleted. */
  ghost predicate HeldSince(w: World, run: seq<Step>, k: nat, r: Request)
    requires k <= |run|
  {
    && Matches(After(w, run[..k]), r.final, r)
    && (Delete(r.final) !in run[k..] ==>
          Matches(After(w, run), r.final, r) && After(w, run).objects[r.final] == After(w, run[..k]).objects[r.final])
  }

  /**
   In every run, whatever races, rewrites of the source and repeated publications there were: a publisher
   that has a receipt has had, from some moment of the run on, an object of the size and checksum it asked
   for under its final key, and that same object is still there unless the key was deleted since.
   */
  lemma ReceiptsStayTrue(partSize: nat, run: seq<Step>, p: nat)
    requires partSize > 0
    requires p in After(Start(partSize), run).publishers && GivesReceipt(After(Start(partSize), run).publishers[p].position)
    ensures exists k: nat | k <= |run| :: HeldSince(Start(partSize), run, k, After(Start(partSize), run).publishers[p].request)
  {
    RunKeeps(partSize, run);
    var w := Start(partSize);
    assert PublisherOk(After(w, run), After(w, run).publishers[p]);
    hide After, Inv, HeldSince, GivesReceipt;
    var k := ReceiptGivenAt(w, run, p);
    HoldsOn(w, run, k, After(w, run).publishers[p].request);
  }

  lemma HoldsOn(w: World, run: seq<Step>, k: nat, r: Request)
    requires r.final.Final? && k <= |run| && Matches(After(w, run[..k]), r.final, r)
    ensures HeldSince(w, run, k, r)
  {
    hide After;
    assert run[..k] + run[k..] == run;
    AfterJoins(w, run[..k], run[k..]);
    if Delete(r.final) !in run[k..] {
      FinalObjectStays(After(w, run[..k]), run[k..], r.final);
    }
  }

  ghost predicate TruthfullyStaged(w: World) {
    forall e | e in w.staged && e in w.versions :: w.versions[e].checksum == w.versions[e].body
  }

  /** Where staging claims only true checksums, a receipt stands for exactly the bytes with that checksum. */
  lemma ReceiptStandsForContent(partSize: nat, run: seq<Step>, step: Step, p: nat)
    requires partSize > 0
    requires TruthfullyStaged(After(Start(partSize), run))
    requires p in After(Start(partSize), run).publishers && !After(Start(partSize), run).publishers[p].position.Done?
    requires p in Apply(After(Start(partSize), run), step).publishers
    requires GivesReceipt(Apply(After(Start(partSize), run), step).publishers[p].position)
    ensures var w := After(Start(partSize), run);
            var r := w.publishers[p].request;
            r.final in w.objects && w.objects[r.final].body == r.checksum
  {
    RunKeeps(partSize, run);
    ReceiptContent(After(Start(partSize), run), step, p);
  }

  lemma ReceiptContent(w: World, step: Step, p: nat)
    requires Inv(w) && TruthfullyStaged(w) && p in w.publishers && !w.publishers[p].position.Done?
    requires p in Apply(w, step).publishers && GivesReceipt(Apply(w, step).publishers[p].position)
    ensures var r := w.publishers[p].request; r.final in w.objects && w.objects[r.final].body == r.checksum
  {
    ReceiptMatchesStored(w, step, p);
    var o := w.objects[w.publishers[p].request.final];
    assert Recorded(w, o);
    assert Staged(w, o.body, o.checksum);
  }
}
