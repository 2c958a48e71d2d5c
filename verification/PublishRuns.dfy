/**
 What a publisher is answered: step by step in any reachable world, and from the beginning to the receipt
 when nobody disturbs it.
 */
module PublishRuns {
  import opened Prelude
  import opened Publish

  // ---- one look at the store ---------------------------------------------------------------------------------------

  /** An object of this size and claimed checksum is stored under the key. */
  predicate HasObject(w: World, key: Key, size: nat, checksum: Bytes) {
    key in w.objects && |w.objects[key].body| == size && w.objects[key].checksum == checksum
  }

  /**
   What a publisher does when it looks: the source has to have the size and checksum asked for; an object under the final key
   is reused if it has both, and a conflict otherwise; after its own upload has created the object it looks once more.
   */
  lemma LooksAnswer(w: World, p: nat)
    requires w.partSize > 0 && p in w.publishers
    ensures var r, at := w.publishers[p].request, w.publishers[p].position;
            && (at.Verifying? ==>
                  Apply(w, VerifySource(p)) == Move(w, p, if HasObject(w, r.source, r.size, r.checksum)
                                                          then Heading(w.objects[r.source].etag) else Done(VerificationFailed)))
            && (at.Heading? ==>
                  Apply(w, HeadFinal(p)) == Move(w, p, if r.final !in w.objects then Creating(at.etag)
                                                       else if HasObject(w, r.final, r.size, r.checksum) then Done(Receipt(true))
                                                       else Done(ChecksumConflict)))
            && (at.Raced? ==>
                  Apply(w, HeadRaced(p)) == Move(w, p, if r.final !in w.objects then Done(Unavailable)
                                                       else if HasObject(w, r.final, r.size, r.checksum) then Done(Receipt(true))
                                                       else Done(ChecksumConflict)))
            && (at.Rechecking? ==>
                  Apply(w, Recheck(p)) == Move(w, p, if HasObject(w, r.final, r.size, r.checksum) then Done(Receipt(false))
                                                     else Done(VerificationFailed)))
  {
    hide Copied, Completed;
  }

  /** A source that was rewritten since it was verified ends the publication and closes its upload. */
  lemma RewrittenSourceEnds(w: World, p: nat)
    requires w.partSize > 0 && p in w.publishers && w.publishers[p].position.Copying?
    requires var at, r := w.publishers[p].position, w.publishers[p].request;
             && at.upload in w.uploads && |w.uploads[at.upload].parts| * w.partSize < r.size
             && (r.source !in w.objects || w.objects[r.source].etag != at.etag)
    ensures var at, r, after := w.publishers[p].position, w.publishers[p].request, Apply(w, CopyPart(p));
            && at.upload !in after.uploads && after.objects == w.objects
            && after.publishers[p].position == Done(if r.source in w.objects then VerificationFailed else Unavailable)
  {
    hide Completed, RangeAt, Cut;
  }

  /**
   Completing an upload stores its parts under the final key if that is free, and nothing otherwise; the publisher looks once more
   if it was answered, and gives up if not, although the object may be there.
   */
  lemma CompletionAnswers(w: World, p: nat, answered: bool)
    requires w.partSize > 0 && p in w.publishers && w.publishers[p].position.Completing?
    requires w.publishers[p].position.upload in w.uploads
    ensures var u, after := w.uploads[w.publishers[p].position.upload], Apply(w, CompleteUpload(p, answered));
            && after.uploads == w.uploads - {w.publishers[p].position.upload} && p in after.publishers
            && if u.key in w.objects then after.objects == w.objects && after.publishers[p].position == Raced
               else
                 && after.objects == w.objects[u.key := Object(Joined(u.parts), u.checksum, w.nextEtag)]
                 && after.publishers[p].position == if answered then Rechecking else Done(Unavailable)
  {
    hide Joined;
  }

  // ---- left alone ----------------------------------------------------------------------------------------------------

  lemma {:induction false} AfterOne(w: World, step: Step)
    ensures After(w, [step]) == Apply(w, step)
  {
    hide Apply;
    assert [step][..0] == [];
  }

  /** The world with another list of parts in the publisher's upload, and the publisher somewhere else. */
  ghost function WithParts(w: World, p: nat, id: nat, parts: seq<Bytes>, at: Position): World
    requires p in w.publishers && id in w.uploads
  {
    Move(w.(uploads := w.uploads[id := w.uploads[id].(parts := parts)]), p, at)
  }

  /** The version it verified is still the source. */
  ghost predicate SourceStands(w: World, p: nat) {
    && p in w.publishers && w.publishers[p].position.Copying? && w.publishers[p].position.upload in w.uploads
    && w.publishers[p].request.source in w.objects
    && w.objects[w.publishers[p].request.source].etag == w.publishers[p].position.etag
  }

  /** Part by part until all of the source is there. */
  lemma {:induction false} CopiesAll(w: World, p: nat) returns (run: seq<Step>, parts: seq<Bytes>)
    requires Inv(w) && SourceStands(w, p)
    ensures var at := w.publishers[p].position;
            && After(w, run) == WithParts(w, p, at.upload, parts, Completing(at.etag, at.upload))
            && Joined(parts) == w.objects[w.publishers[p].request.source].body
    decreases w.publishers[p].request.size - |w.uploads[w.publishers[p].position.upload].parts| * w.partSize
  {
    var b := w.publishers[p];
    var e, id := b.position.etag, b.position.upload;
    var u, o := w.uploads[id], w.objects[b.request.source];
    var start := |u.parts| * w.partSize;
    assert PublisherOk(w, b) && Recorded(w, o);
    CopyKeeps(w, p);
    if start >= b.request.size {
      LastCopy(w, p);
      AfterOne(w, CopyPart(p));
      run, parts := [CopyPart(p)], u.parts;
      assert o.body[..|o.body|] == o.body;
    } else {
      OneCopy(w, p);
      var part := Cut(o.body, RangeAt(start, b.request.size, w.partSize));
      var next := WithParts(w, p, id, u.parts + [part], b.position);
      TimesNext(|u.parts|, w.partSize);
      hide Inv, After, Apply, RangeAt, Cut;
      var rest;
      rest, parts := CopiesAll(next, p);
      AfterOne(w, CopyPart(p));
      AfterJoins(w, [CopyPart(p)], rest);
      run := [CopyPart(p)] + rest;
      MoveAgain(w, p, id, u.parts + [part], parts, b.position, Completing(e, id));
    }
  }

  lemma LastCopy(w: World, p: nat)
    requires Inv(w) && SourceStands(w, p)
    requires |w.uploads[w.publishers[p].position.upload].parts| * w.partSize >= w.publishers[p].request.size
    ensures var at := w.publishers[p].position;
            Apply(w, CopyPart(p)) == WithParts(w, p, at.upload, w.uploads[at.upload].parts, Completing(at.etag, at.upload))
  {
    hide Inv, RangeAt, Cut, Completed;
    assert w.partSize > 0 by { PartsArePositive(w); }
    var id := w.publishers[p].position.upload;
    assert w.uploads[id := w.uploads[id].(parts := w.uploads[id].parts)] == w.uploads;
  }

  lemma PartsArePositive(w: World)
    requires Inv(w)
    ensures w.partSize > 0
  {}

  lemma OneCopy(w: World, p: nat)
    requires Inv(w) && SourceStands(w, p)
    requires |w.uploads[w.publishers[p].position.upload].parts| * w.partSize < w.publishers[p].request.size
    ensures var b := w.publishers[p];
            var id, body := b.position.upload, w.objects[b.request.source].body;
            var range := RangeAt(|w.uploads[id].parts| * w.partSize, b.request.size, w.partSize);
            && range.last < |body|
            && Apply(w, CopyPart(p)) == WithParts(w, p, id, w.uploads[id].parts + [Cut(body, range)], b.position)
  {
    var b := w.publishers[p];
    assert PublisherOk(w, b) && Recorded(w, w.objects[b.request.source]);
    assert w.publishers == w.publishers[p := b.(position := b.position)];
    hide Inv, Completed, Cut;
  }

  lemma MoveAgain(w: World, p: nat, id: nat, first: seq<Bytes>, second: seq<Bytes>, a: Position, b: Position)
    requires p in w.publishers && id in w.uploads
    ensures WithParts(WithParts(w, p, id, first, a), p, id, second, b) == WithParts(w, p, id, second, b)
  {
    var between := WithParts(w, p, id, first, a);
    assert between.uploads[id := between.uploads[id].(parts := second)] == w.uploads[id := w.uploads[id].(parts := second)];
    assert between.publishers[p := between.publishers[p].(position := b)] == w.publishers[p := w.publishers[p].(position := b)];
  }

  /** How a publication ends that nobody disturbs, and what is stored then. */
  ghost predicate EndsAs(w: World, after: World, p: nat)
    requires p in w.publishers
  {
    var r := w.publishers[p].request;
    && p in after.publishers && after.publishers[p].request == r
    && if !HasObject(w, r.source, r.size, r.checksum) then
         after.objects == w.objects && after.publishers[p].position == Done(VerificationFailed)
       else if r.final in w.objects then
         && after.objects == w.objects
         && after.publishers[p].position
            == Done(if HasObject(w, r.final, r.size, r.checksum) then Receipt(true) else ChecksumConflict)
       else
         && after.publishers[p].position == Done(Receipt(false))
         && r.final in after.objects && after.objects.Keys == w.objects.Keys + {r.final}
         && after.objects[r.final].body == w.objects[r.source].body && after.objects[r.final].checksum == r.checksum
         && forall key | key in w.objects :: after.objects[key] == w.objects[key]
  }

  /**
   From any reachable world a publisher that begins and is left alone comes to an end: a receipt for the source's bytes under
   the final key where the source is as asked for and the key is free, a receipt for the object that is there where it is as asked
   for, and otherwise the failure or the conflict, with nothing stored.
   */
  lemma PublicationLeftAlone(partSize: nat, run: seq<Step>, p: nat) returns (more: seq<Step>)
    requires partSize > 0 && p in After(Start(partSize), run).publishers
    requires After(Start(partSize), run).publishers[p].position.Verifying?
    ensures EndsAs(After(Start(partSize), run), After(After(Start(partSize), run), more), p)
  {
    RunKeeps(partSize, run);
    more := LeftAlone(After(Start(partSize), run), p);
  }

  lemma LeftAlone(w: World, p: nat) returns (more: seq<Step>)
    requires Inv(w) && p in w.publishers && w.publishers[p].position.Verifying?
    ensures EndsAs(w, After(w, more), p)
  {
    var r := w.publishers[p].request;
    PartsArePositive(w);
    LooksAnswer(w, p);
    AfterOne(w, VerifySource(p));
    more := [VerifySource(p)];
    if HasObject(w, r.source, r.size, r.checksum) {
      StepKeeps(w, VerifySource(p));
      hide Inv, After, Apply;
      var w1 := After(w, more);
      LooksAnswer(w1, p);
      if r.final in w.objects {
        AfterOne(w1, HeadFinal(p));
        AfterJoins(w, more, [HeadFinal(p)]);
        more := more + [HeadFinal(p)];
      } else {
        var rest := CreatesObject(w1, p);
        AfterJoins(w, more, rest);
        more := more + rest;
      }
    }
    hide Inv, After, Apply;
  }

  /** From the first look at the free key to the receipt. */
  lemma CreatesObject(w: World, p: nat) returns (more: seq<Step>)
    requires Inv(w) && p in w.publishers && w.publishers[p].position.Heading?
    requires var r := w.publishers[p].request;
             && r.source in w.objects && w.objects[r.source].etag == w.publishers[p].position.etag && r.final !in w.objects
             && |w.objects[r.source].body| == r.size && w.objects[r.source].checksum == r.checksum
    ensures var r, after := w.publishers[p].request, After(w, more);
            && p in after.publishers && after.publishers[p] == Publisher(r, Done(Receipt(false)))
            && r.final in after.objects && after.objects == w.objects[r.final := after.objects[r.final]]
            && after.objects[r.final].body == w.objects[r.source].body && after.objects[r.final].checksum == r.checksum
  {
    var r, e, id := w.publishers[p].request, w.publishers[p].position.etag, w.nextUpload;
    PartsArePositive(w);
    var copying := StartsUpload(w, p);
    hide Inv, After, Apply;
    var copies, parts := CopiesAll(copying, p);
    var filled := WithParts(copying, p, id, parts, Completing(e, id));
    CompletesUpload(filled, p, id);
    var done := Apply(filled, CompleteUpload(p, true));
    LooksAnswer(done, p);
    AfterOne(filled, CompleteUpload(p, true));
    AfterOne(done, Recheck(p));
    AfterJoins(filled, [CompleteUpload(p, true)], [Recheck(p)]);
    AfterJoins(copying, copies, [CompleteUpload(p, true)] + [Recheck(p)]);
    more := [HeadFinal(p), CreateUpload(p)] + (copies + ([CompleteUpload(p, true)] + [Recheck(p)]));
    AfterJoins(w, [HeadFinal(p), CreateUpload(p)], copies + ([CompleteUpload(p, true)] + [Recheck(p)]));
  }

  lemma StartsUpload(w: World, p: nat) returns (copying: World)
    requires Inv(w) && p in w.publishers && w.publishers[p].position.Heading? && w.publishers[p].request.final !in w.objects
    requires w.publishers[p].request.source in w.objects
    requires w.objects[w.publishers[p].request.source].etag == w.publishers[p].position.etag
    ensures copying == After(w, [HeadFinal(p), CreateUpload(p)]) && Inv(copying) && SourceStands(copying, p)
    ensures var r := w.publishers[p].request;
            && copying.objects == w.objects && copying.partSize == w.partSize
            && copying.publishers[p] == Publisher(r, Copying(w.publishers[p].position.etag, w.nextUpload))
            && w.nextUpload in copying.uploads && copying.uploads[w.nextUpload] == Upload(r.final, r.checksum, [])
  {
    var head := Apply(w, HeadFinal(p));
    PartsArePositive(w);
    StepKeeps(w, HeadFinal(p));
    StepKeeps(head, CreateUpload(p));
    LooksAnswer(w, p);
    hide Inv;
    copying := Apply(head, CreateUpload(p));
    AfterOne(w, HeadFinal(p));
    AfterOne(head, CreateUpload(p));
    AfterJoins(w, [HeadFinal(p)], [CreateUpload(p)]);
    assert [HeadFinal(p)] + [CreateUpload(p)] == [HeadFinal(p), CreateUpload(p)];
  }

  lemma CompletesUpload(w: World, p: nat, id: nat)
    requires w.partSize > 0 && p in w.publishers && w.publishers[p].position.Completing? && w.publishers[p].position.upload == id
    requires id in w.uploads && w.uploads[id].key !in w.objects
    ensures var u, after := w.uploads[id], Apply(w, CompleteUpload(p, true));
            && p in after.publishers && after.publishers[p] == Publisher(w.publishers[p].request, Rechecking)
            && after.objects == w.objects[u.key := Object(Joined(u.parts), u.checksum, w.nextEtag)] && after.partSize == w.partSize
  {
    hide Joined;
  }
}
