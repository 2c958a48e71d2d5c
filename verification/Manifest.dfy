/**
 The chunk manifest stream, ingestion/artifacts.py: a stream that runs to completion has written one
 record for every chunk, and the chunks, overlapping or not, cover the parsed text without a gap.
 */
module Manifest {
  import opened Prelude
  import opened Utf8

  type Text = seq<Scalar>

  /** A chunk object satisfies this once it has been constructed. */
  predicate ChunkOk(c: Chunk) { c.text != [] && c.start < c.end && c.end - c.start == |c.text| }

  datatype Chunk = Chunk(index: nat, text: Text, hash: nat, start: nat, end: nat, titles: seq<Text>)

  /** What an iterator of chunks may hand over. */
  datatype Item = Made(chunk: Chunk) | NotAChunk

  datatype Line = Header(chunkCount: int) | Record(chunk: Chunk)

  predicate Continues(previous: Chunk, c: Chunk) {
    previous.start < c.start <= previous.end < c.end
  }

  predicate SpanOf(text: Text, c: Chunk) { c.start <= c.end <= |text| && c.text == text[c.start..c.end] }

  /** The checks the stream makes, as conditions on whole sequences. */
  predicate Matches(text: Text, expected: seq<Chunk>, chunks: seq<Chunk>) {
    && chunks <= expected
    && (forall i | 0 <= i < |chunks| :: chunks[i].index == i && SpanOf(text, chunks[i]))
    && (chunks != [] ==> chunks[0].start == 0)
    && (forall i | 0 < i < |chunks| :: Continues(chunks[i-1], chunks[i]))
  }

  predicate Finished(text: Text, expected: seq<Chunk>, chunks: seq<Chunk>, chunkCount: int) {
    && Matches(text, expected, chunks) && chunks == expected && |chunks| == chunkCount
    && (chunks != [] ==> chunks[|chunks|-1].end == |text|)
    && (text != [] ==> chunks != [])
  }

  function Chunks(items: seq<Item>): Option<seq<Chunk>> {
    if items == [] then Some([])
    else
      var front := Chunks(items[..|items|-1]);
      if front.None? || items[|items|-1].NotAChunk? then None else Some(front.value + [items[|items|-1].chunk])
  }

  function Records(chunks: seq<Chunk>): seq<Line> {
    if chunks == [] then [] else Records(chunks[..|chunks|-1]) + [Record(chunks[|chunks|-1])]
  }

  // ---- what a finished stream means ------------------------------------------------------------------------------

  /** Each chunk's part beyond the end of the one before it, concatenated. */
  function Rebuilt(chunks: seq<Chunk>): Text
    requires forall i | 0 <= i < |chunks| :: ChunkOk(chunks[i])
    requires forall i | 0 < i < |chunks| :: Continues(chunks[i-1], chunks[i])
  {
    if chunks == [] then []
    else
      var last, n := chunks[|chunks|-1], |chunks| - 1;
      if n == 0 then last.text
      else
        assert Continues(chunks[n-1], chunks[n]) && ChunkOk(chunks[n]);
        Rebuilt(chunks[..n]) + last.text[chunks[n-1].end - last.start..]
  }

  predicate Within(c: Chunk, p: nat) { c.start <= p < c.end }

  ghost predicate Covered(chunks: seq<Chunk>, p: nat) { exists i | 0 <= i < |chunks| :: Within(chunks[i], p) }

  lemma {:induction false} RebuiltIsPrefix(text: Text, expected: seq<Chunk>, chunks: seq<Chunk>)
    requires forall i | 0 <= i < |expected| :: ChunkOk(expected[i])
    requires Matches(text, expected, chunks) && chunks != []
    ensures chunks[|chunks|-1].end <= |text|
    ensures forall i | 0 <= i < |chunks| :: ChunkOk(chunks[i])
    ensures Rebuilt(chunks) == text[..chunks[|chunks|-1].end]
  {
    var n := |chunks| - 1;
    var last := chunks[n];
    assert SpanOf(text, last);
    assert chunks[..n] <= expected;
    if n > 0 {
      RebuiltIsPrefix(text, expected, chunks[..n]);
      assert Continues(chunks[n-1], last);
      TailOfSpan(text, last, chunks[n-1].end);
    }
  }

  lemma TailOfSpan(text: Text, c: Chunk, e: nat)
    requires SpanOf(text, c) && c.start <= e <= c.end && |c.text| == c.end - c.start
    ensures text[..e] + c.text[e - c.start..] == text[..c.end]
  {
    assert c.text[e - c.start..] == text[e..c.end];
  }

  lemma {:induction false} EveryPositionCovered(text: Text, expected: seq<Chunk>, chunks: seq<Chunk>, p: nat) returns (i: nat)
    requires Matches(text, expected, chunks) && chunks != [] && p < chunks[|chunks|-1].end
    ensures i < |chunks| && Within(chunks[i], p) && chunks[i].end <= |text| && chunks[i].text[p - chunks[i].start] == text[p]
  {
    var n := |chunks| - 1;
    assert SpanOf(text, chunks[n]);
    if chunks[n].start <= p {
      i := n;
    } else {
      assert Continues(chunks[n-1], chunks[n]);
      assert chunks[..n] <= expected;
      i := EveryPositionCovered(text, expected, chunks[..n], p);
    }
  }

  /** A finished stream's chunks rebuild the text exactly and leave no position out. */
  lemma FinishedRebuildsText(text: Text, expected: seq<Chunk>, chunks: seq<Chunk>, chunkCount: int)
    requires forall i | 0 <= i < |expected| :: ChunkOk(expected[i])
    requires Finished(text, expected, chunks, chunkCount)
    ensures forall i | 0 <= i < |chunks| :: ChunkOk(chunks[i])
    ensures Rebuilt(chunks) == text
    ensures forall p: nat | p < |text| :: Covered(chunks, p)
  {
    if chunks != [] {
      RebuiltIsPrefix(text, expected, chunks);
      assert text[..|text|] == text;
      forall p: nat | p < |text| ensures Covered(chunks, p) {
        var i := EveryPositionCovered(text, expected, chunks, p);
        assert Within(chunks[i], p);
      }
    }
  }

  // ---- the stream ---------------------------------------------------------------------------------------------------

  lemma {:induction false} ChunksTake(items: seq<Item>, i: nat)
    requires i < |items|
    ensures Chunks(items[..i+1]) ==
              if Chunks(items[..i]).None? || items[i].NotAChunk? then None else Some(Chunks(items[..i]).value + [items[i].chunk])
  {
    var taken := items[..i+1];
    assert taken[..|taken|-1] == items[..i];
  }

  lemma {:induction false} ChunksPrefix(items: seq<Item>, i: nat)
    requires i <= |items| && Chunks(items).Some?
    ensures Chunks(items[..i]).Some? && Chunks(items[..i]).value <= Chunks(items).value && |Chunks(items[..i]).value| == i
    ensures |Chunks(items).value| == |items|
    decreases |items|
  {
    if i == |items| {
      assert items[..i] == items;
      if items != [] {
        ChunksPrefix(items[..i-1], i - 1);
      }
    } else {
      ChunksPrefix(items[..|items|-1], i);
      assert items[..|items|-1][..i] == items[..i];
    }
  }

  /** A check that fails on one chunk fails the whole sequence. */
  lemma {:induction false} RejectedChunk(text: Text, expected: seq<Chunk>, items: seq<Item>, i: nat, chunkCount: int)
    requires i < |items| && Chunks(items[..i]).Some? && |Chunks(items[..i]).value| == i
    requires items[i].NotAChunk? || i >= |expected| || i >= chunkCount
             || !Matches(text, expected, Chunks(items[..i]).value + [items[i].chunk])
    ensures Chunks(items).Some? ==> !Finished(text, expected, Chunks(items).value, chunkCount)
  {
    if Chunks(items).Some? {
      ChunksPrefix(items, i + 1);
      ChunksTake(items, i);
      var taken, all := Chunks(items[..i+1]).value, Chunks(items).value;
      assert forall k | 0 <= k <= i :: taken[k] == all[k];
      if Finished(text, expected, all, chunkCount) {
        assert forall k | 0 < k <= i :: Continues(all[k-1], all[k]);
        assert Matches(text, expected, taken);
        assert false;
      }
    }
  }

  /** The condition of the check, in the order the code tests it. */
  predicate Acceptable(text: Text, next: Chunk, c: Chunk, emitted: nat, chunkCount: int, previousStart: int, previousEnd: int) {
    && emitted < chunkCount && c.index == emitted && c == next && c.start <= c.end <= |text|
    && c.text == text[c.start..c.end] && (emitted == 0 ==> c.start == 0)
    && (emitted > 0 ==> previousStart < c.start <= previousEnd < c.end)
  }

  lemma {:induction false} AcceptableMatches(text: Text, expected: seq<Chunk>, done: seq<Chunk>, c: Chunk, chunkCount: int,
                                             previousStart: int, previousEnd: int)
    requires Matches(text, expected, done) && |done| < |expected|
    requires done != [] ==> previousStart == done[|done|-1].start && previousEnd == done[|done|-1].end
    ensures Acceptable(text, expected[|done|], c, |done|, chunkCount, previousStart, previousEnd) ==>
              |done| < chunkCount && Matches(text, expected, done + [c])
    ensures |done| < chunkCount && Matches(text, expected, done + [c]) ==>
              Acceptable(text, expected[|done|], c, |done|, chunkCount, previousStart, previousEnd)
  {
    var n, next := |done|, done + [c];
    assert next[n] == c && forall i | 0 <= i < n :: next[i] == done[i];
    if Acceptable(text, expected[n], c, n, chunkCount, previousStart, previousEnd) {
      assert next == expected[..n+1];
      forall i | 0 < i < |next| ensures Continues(next[i-1], next[i]) {
        assert i < n ==> Continues(done[i-1], done[i]);
      }
    }
    if n < chunkCount && Matches(text, expected, next) {
      assert SpanOf(text, next[n]);
      assert n > 0 ==> Continues(next[n-1], next[n]);
    }
  }

  lemma NothingYet(text: Text, expected: seq<Chunk>, items: seq<Item>)
    ensures Chunks(items[..0]) == Some([]) && Matches(text, expected, []) && Records([]) == []
  {}

  /** The count alone refutes the manifest. */
  lemma CountRefutes(text: Text, expected: seq<Chunk>, chunks: seq<Chunk>, chunkCount: int)
    requires chunkCount < 0 || (text != [] && chunkCount == 0)
    ensures !Finished(text, expected, chunks, chunkCount)
  {}

  /** The conditions after the last chunk. */
  lemma AtEnd(text: Text, expected: seq<Chunk>, done: seq<Chunk>, chunkCount: int, previousEnd: int)
    requires Matches(text, expected, done) && (text != [] ==> chunkCount != 0)
    requires done != [] ==> previousEnd == done[|done|-1].end
    ensures |done| == chunkCount && |done| >= |expected| && (done != [] ==> previousEnd == |text|) <==>
              Finished(text, expected, done, chunkCount)
    ensures Finished(text, expected, done, chunkCount) ==> done == expected
  {}

  lemma RecordsNext(done: seq<Chunk>, c: Chunk)
    ensures Records(done + [c]) == Records(done) + [Record(c)]
  {
    assert (done + [c])[..|done|] == done;
  }

  /**
   `_iter_chunk_manifest_lines`, drained: the lines it yields before it ends or raises. It ends exactly
   when the actual chunks are the expected ones and pass every check.
   */
  method IterChunkManifestLines(text: Text, expected: seq<Chunk>, actual: seq<Item>, chunkCount: int)
    returns (ok: bool, lines: seq<Line>)
    ensures ok <==> Chunks(actual).Some? && Finished(text, expected, Chunks(actual).value, chunkCount)
    ensures ok ==> lines == [Header(chunkCount)] + Records(expected)
  {
    hide Matches, Finished, Acceptable, Chunks, Records;
    lines := [];
    if chunkCount < 0 || (text != [] && chunkCount == 0) {
      forall chunks ensures !Finished(text, expected, chunks, chunkCount) {
        CountRefutes(text, expected, chunks, chunkCount);
      }
      return false, lines;
    }
    lines := [Header(chunkCount)];
    var emitted := 0;
    var previousStart: int, previousEnd: int := -1, 0;
    ghost var done: seq<Chunk> := [];
    NothingYet(text, expected, actual);
    for i := 0 to |actual|
      invariant emitted == i && Chunks(actual[..i]) == Some(done) && |done| == i <= chunkCount
      invariant i <= |expected| && Matches(text, expected, done)
      invariant lines == [Header(chunkCount)] + Records(done)
      invariant i > 0 ==> previousStart == done[i-1].start && previousEnd == done[i-1].end
    {
      if emitted >= |expected| || actual[i].NotAChunk? {
        RejectedChunk(text, expected, actual, i, chunkCount);
        return false, lines;
      }
      var chunk := actual[i].chunk;
      AcceptableMatches(text, expected, done, chunk, chunkCount, previousStart, previousEnd);
      if !Acceptable(text, expected[emitted], chunk, emitted, chunkCount, previousStart, previousEnd) {
        RejectedChunk(text, expected, actual, i, chunkCount);
        return false, lines;
      }
      ChunksTake(actual, i);
      RecordsNext(done, chunk);
      lines := lines + [Record(chunk)];
      previousStart, previousEnd := chunk.start, chunk.end;
      emitted := emitted + 1;
      done := done + [chunk];
    }
    assert actual[..|actual|] == actual;
    AtEnd(text, expected, done, chunkCount, previousEnd);
    ok := emitted == chunkCount && emitted >= |expected| && (emitted > 0 ==> previousEnd == |text|);
  }
}
