/**
 Upload validation, ingestion/validation.py: a validator fed one chunk at a time accepts exactly the
 documents a fixed description of the whole content admits, wherever the chunks are cut.
 */
module TextValidation {
  import opened Prelude
  import opened Utf8

  const BYTE_ORDER_MARK: Scalar := 0xFEFF
  const LINE_FEED: Scalar := 10
  const CARRIAGE_RETURN: Scalar := 13

  /** The rejection codes; InvalidState is the ValueError of a validator used after it finished. */
  datatype Rejection = FileTooLarge | InvalidTextEncoding | BinaryContentRejected | EmptyDocument | InvalidState

  /** The summary of an accepted document; `digest` is what was hashed. */
  datatype Verdict = Accepted(size: nat, digest: seq<byte>) | Rejected(reason: Rejection)

  /** Category Cc without tab, line feed, carriage return and form feed. */
  predicate IsDisallowedControl(c: Scalar) {
    (c < 32 || 127 <= c < 160) && c !in {9, 10, 13, 12}
  }

  /** `str.isspace`. */
  predicate IsSpace(c: Scalar) {
    || 9 <= c <= 13 || 28 <= c <= 32 || c == 0x85 || c == 0xA0 || c == 0x1680 || 0x2000 <= c <= 0x200A
    || c == 0x2028 || c == 0x2029 || c == 0x202F || c == 0x205F || c == 0x3000
  }

  function Controls(text: seq<Scalar>): nat {
    if text == [] then 0 else Controls(text[..|text|-1]) + if IsDisallowedControl(text[|text|-1]) then 1 else 0
  }

  predicate HasText(text: seq<Scalar>) { exists i | 0 <= i < |text| :: !IsSpace(text[i]) }

  /** `control_count / max(1, character_count) >= 0.05`, for any count the byte limit allows. */
  predicate TooManyControls(controls: nat, characters: nat) {
    controls > 0 && 20 * controls >= if characters > 1 then characters else 1
  }

  function WithoutMark(text: seq<Scalar>): seq<Scalar> {
    if text != [] && text[0] == BYTE_ORDER_MARK then text[1..] else text
  }

  // ---- what is accepted, without chunks ------------------------------------------------------------------

  predicate IsText(text: seq<Scalar>) {
    0 !in text && !TooManyControls(Controls(text), |text|) && HasText(text)
  }

  /** The whole content is a UTF-8 text within the limit that has some text and few controls. */
  ghost predicate Acceptable(maxBytes: nat, content: seq<byte>) {
    |content| <= maxBytes && exists text: seq<Scalar> :: content == Encode(text) && IsText(WithoutMark(text))
  }

  // ---- the validator, on values -----------------------------------------------------------------------------

  datatype State = State(
    pending: seq<byte>, hashed: seq<byte>, total: nat, controls: nat, characters: nat, hasText: bool, sawCodepoint: bool,
    finished: bool)

  const FRESH := State([], [], 0, 0, 0, false, false, false)

  datatype Fed = Fed(state: State, error: Option<Rejection>)

  function AfterInspect(s: State, decoded: seq<Scalar>): Fed {
    if decoded == [] then Fed(s, None) else
    var text := if s.sawCodepoint then decoded else WithoutMark(decoded);
    if 0 in text then Fed(s.(sawCodepoint := true), Some(BinaryContentRejected))
    else Fed(s.(sawCodepoint := true, characters := s.characters + |text|, controls := s.controls + Controls(text),
                hasText := s.hasText || HasText(text)), None)
  }

  function AfterFeed(s: State, maxBytes: nat, chunk: seq<byte>): Fed {
    if s.finished then Fed(s, Some(InvalidState))
    else if chunk == [] then Fed(s, None)
    else if s.total + |chunk| > maxBytes then Fed(s, Some(FileTooLarge))
    else
      var counted := s.(total := s.total + |chunk|, hashed := s.hashed + chunk);
      var d := Decode(s.pending + chunk);
      if !d.ok then Fed(counted, Some(InvalidTextEncoding)) else AfterInspect(counted.(pending := d.rest), d.text)
  }

  function VerdictOf(s: State): Verdict {
    if s.finished then Rejected(InvalidState)
    else if s.pending != [] then Rejected(InvalidTextEncoding)
    else if TooManyControls(s.controls, s.characters) then Rejected(BinaryContentRejected)
    else if !s.hasText then Rejected(EmptyDocument)
    else Accepted(s.total, s.hashed)
  }

  /** A caller feeds every chunk, stops at the first rejection and finishes otherwise. */
  function Run(s: State, maxBytes: nat, chunks: seq<seq<byte>>): Verdict
    decreases |chunks|
  {
    if chunks == [] then VerdictOf(s)
    else
      var fed := AfterFeed(s, maxBytes, chunks[0]);
      if fed.error.Some? then Rejected(fed.error.value) else Run(fed.state, maxBytes, chunks[1..])
  }

  function Flat(chunks: seq<seq<byte>>): seq<byte> {
    if chunks == [] then [] else chunks[0] + Flat(chunks[1..])
  }

  // ---- the state is a function of the content so far -----------------------------------------------------------

  /** What can be fed without a rejection. */
  predicate Feedable(maxBytes: nat, content: seq<byte>) {
    |content| <= maxBytes && Decode(content).ok && 0 !in WithoutMark(Decode(content).text)
  }

  function Summarised(content: seq<byte>): State {
    var text := Decode(content).text;
    var t := WithoutMark(text);
    State(Decode(content).rest, content, |content|, Controls(t), |t|, HasText(t), text != [], false)
  }

  lemma {:induction false} ControlsAppend(a: seq<Scalar>, b: seq<Scalar>)
    ensures Controls(a + b) == Controls(a) + Controls(b)
  {
    if b == [] {
      assert a + b == a;
    } else {
      assert (a + b)[..|a + b|-1] == a + b[..|b|-1];
      ControlsAppend(a, b[..|b|-1]);
    }
  }

  lemma HasTextAppend(a: seq<Scalar>, b: seq<Scalar>)
    ensures HasText(a + b) <==> HasText(a) || HasText(b)
  {
    var ab := a + b;
    if HasText(a) {
      var i :| 0 <= i < |a| && !IsSpace(a[i]);
      assert !IsSpace(ab[i]);
    }
    if HasText(b) {
      var i :| 0 <= i < |b| && !IsSpace(b[i]);
      assert !IsSpace(ab[|a| + i]);
    }
    if HasText(ab) {
      var i :| 0 <= i < |ab| && !IsSpace(ab[i]);
      assert if i < |a| then ab[i] == a[i] else ab[i] == b[i - |a|];
    }
  }

  lemma MarkAppend(a: seq<Scalar>, b: seq<Scalar>)
    ensures WithoutMark(a + b) == if a == [] then WithoutMark(b) else WithoutMark(a) + b
  {
    if a == [] {
      assert a + b == b;
    }
  }

  /** The counters of a text, as `_inspect` keeps them; the decoder's fields are as in `base`. */
  function Counted(base: State, text: seq<Scalar>): State {
    var t := WithoutMark(text);
    base.(controls := Controls(t), characters := |t|, hasText := HasText(t), sawCodepoint := text != [])
  }

  lemma InspectCounts(base: State, text: seq<Scalar>, more: seq<Scalar>)
    requires 0 !in WithoutMark(text)
    ensures var fed := AfterInspect(Counted(base, text), more);
            if 0 in WithoutMark(text + more) then fed.error.Some? else fed == Fed(Counted(base, text + more), None)
  {
    var added := if text == [] then WithoutMark(more) else more;
    MarkAppend(text, more);
    assert WithoutMark(text + more) == WithoutMark(text) + added;
    ControlsAppend(WithoutMark(text), added);
    HasTextAppend(WithoutMark(text), added);
    if more == [] {
      assert text + more == text;
    }
  }

  /** One more chunk: rejected exactly when the longer content cannot be fed, and otherwise summarised. */
  lemma FeedSummarises(maxBytes: nat, content: seq<byte>, chunk: seq<byte>)
    requires Feedable(maxBytes, content)
    ensures !Feedable(maxBytes, content + chunk) ==> AfterFeed(Summarised(content), maxBytes, chunk).error.Some?
    ensures Feedable(maxBytes, content + chunk) ==>
              AfterFeed(Summarised(content), maxBytes, chunk) == Fed(Summarised(content + chunk), None)
  {
    if chunk == [] {
      assert content + chunk == content;
    } else if |content + chunk| <= maxBytes {
      DecodeAppend(content, chunk);
      var text, d := Decode(content).text, Decode(Decode(content).rest + chunk);
      if d.ok {
        var base := State(d.rest, content + chunk, |content| + |chunk|, 0, 0, false, false, false);
        InspectCounts(base, text, d.text);
        FeedInspects(maxBytes, content, chunk, base);
        assert Decode(content + chunk).text == text + d.text;
        assert Summarised(content + chunk) == Counted(base, text + d.text);
      }
    }
  }

  lemma FeedInspects(maxBytes: nat, content: seq<byte>, chunk: seq<byte>, base: State)
    requires chunk != [] && |content + chunk| <= maxBytes
    requires Decode(Decode(content).rest + chunk).ok
    requires base == State(Decode(Decode(content).rest + chunk).rest, content + chunk, |content| + |chunk|, 0, 0, false, false, false)
    ensures AfterFeed(Summarised(content), maxBytes, chunk) ==
              AfterInspect(Counted(base, Decode(content).text), Decode(Decode(content).rest + chunk).text)
  {}

  lemma FeedableIsPrefixClosed(maxBytes: nat, content: seq<byte>, more: seq<byte>)
    requires Feedable(maxBytes, content + more)
    ensures Feedable(maxBytes, content)
  {
    DecodeAppend(content, more);
    var text, added := Decode(content).text, Decode(Decode(content).rest + more).text;
    MarkAppend(text, added);
    if text != [] {
      forall i | 0 <= i < |WithoutMark(text)| ensures WithoutMark(text)[i] != 0 {
        assert WithoutMark(text + added)[i] == WithoutMark(text)[i];
      }
    }
  }

  lemma UnfeedableStaysSo(maxBytes: nat, content: seq<byte>, more: seq<byte>)
    requires !Feedable(maxBytes, content)
    ensures !Feedable(maxBytes, content + more)
  {
    if Feedable(maxBytes, content + more) {
      FeedableIsPrefixClosed(maxBytes, content, more);
    }
  }

  lemma {:induction false} RunSummarises(maxBytes: nat, content: seq<byte>, chunks: seq<seq<byte>>)
    requires Feedable(maxBytes, content)
    ensures var whole := content + Flat(chunks);
            if Feedable(maxBytes, whole) then Run(Summarised(content), maxBytes, chunks) == VerdictOf(Summarised(whole))
            else Run(Summarised(content), maxBytes, chunks).Rejected?
    decreases |chunks|
  {
    if chunks == [] {
      assert content + Flat(chunks) == content;
    } else {
      var next := content + chunks[0];
      assert content + Flat(chunks) == next + Flat(chunks[1..]);
      FeedSummarises(maxBytes, content, chunks[0]);
      if Feedable(maxBytes, next) {
        RunSummarises(maxBytes, next, chunks[1..]);
      } else {
        UnfeedableStaysSo(maxBytes, next, Flat(chunks[1..]));
      }
    }
  }

  lemma AcceptableMeansSummary(maxBytes: nat, content: seq<byte>)
    ensures Acceptable(maxBytes, content) <==>
              Feedable(maxBytes, content) && VerdictOf(Summarised(content)).Accepted?
  {
    DecodedIsPrefix(content);
    if Acceptable(maxBytes, content) {
      var text: seq<Scalar> :| content == Encode(text) && IsText(WithoutMark(text));
      DecodeOfEncoded(text);
    } else if Decode(content).ok && Decode(content).rest == [] {
      assert content == Encode(Decode(content).text);
    }
  }

  // ---- main results -------------------------------------------------------------------------------------------

  /** Every run over chunks of the content accepts it exactly when the content is acceptable, with its size and bytes. */
  lemma RunAcceptsExactly(maxBytes: nat, chunks: seq<seq<byte>>)
    ensures Run(FRESH, maxBytes, chunks).Accepted? <==> Acceptable(maxBytes, Flat(chunks))
    ensures Run(FRESH, maxBytes, chunks).Accepted? ==>
              Run(FRESH, maxBytes, chunks) == Accepted(|Flat(chunks)|, Flat(chunks))
  {
    assert Summarised([]) == FRESH;
    RunSummarises(maxBytes, [], chunks);
    assert [] + Flat(chunks) == Flat(chunks);
    AcceptableMeansSummary(maxBytes, Flat(chunks));
  }

  /** Two ways to cut the same bytes are both accepted with the same summary, or both rejected. */
  lemma ChunkingIsIrrelevant(maxBytes: nat, a: seq<seq<byte>>, b: seq<seq<byte>>)
    requires Flat(a) == Flat(b)
    ensures var va, vb := Run(FRESH, maxBytes, a), Run(FRESH, maxBytes, b);
            va == vb || (va.Rejected? && vb.Rejected?)
  {
    RunAcceptsExactly(maxBytes, a);
    RunAcceptsExactly(maxBytes, b);
  }

  /** Only the rejection code depends on the cut: a NUL before an invalid byte is met first when it comes in its own chunk. */
  lemma CodeDependsOnChunking()
    ensures Run(FRESH, 2, [[0], [0xFF]]) == Rejected(BinaryContentRejected)
    ensures Run(FRESH, 2, [[0, 0xFF]]) == Rejected(InvalidTextEncoding)
    ensures Flat([[0], [0xFF]]) == Flat([[0, 0xFF]])
  {
    var nul: seq<byte>, both: seq<byte> := [0], [0, 0xFF];
    assert nul[1..] == [] && Decode(nul) == Decoded([0], [], true);
    assert both[1..] == [0xFF];
    assert Head([0xFF]) == Invalid;
    assert !Decode(both).ok;
    assert [] + nul == nul && [] + both == both;
    var cut: seq<seq<byte>> := [nul, [0xFF]];
    assert Flat(cut) == nul + Flat(cut[1..]) && Flat(cut[1..]) == [0xFF] + Flat(cut[1..][1..]);
    assert Flat([both]) == both + Flat([both][1..]);
    assert 0 in WithoutMark([0]) by { assert WithoutMark([0]) == [0]; }
  }

  // ---- what is accepted, written out ----------------------------------------------------------------------------

  /** A control character other than tab, line feed, form feed and carriage return. */
  predicate IsStrayControl(c: Scalar) {
    (c <= 0x1F || 0x7F <= c <= 0x9F) && c != 0x09 && c != 0x0A && c != 0x0C && c != 0x0D
  }

  /** Where such characters stand. */
  function StrayPlaces(text: seq<Scalar>): set<nat> { set i: nat | i < |text| && IsStrayControl(text[i]) }

  lemma {:induction false} ControlsArePlaces(text: seq<Scalar>)
    ensures Controls(text) == |StrayPlaces(text)|
  {
    if text != [] {
      var front, n := text[..|text|-1], |text| - 1;
      ControlsArePlaces(front);
      if IsStrayControl(text[n]) {
        assert StrayPlaces(text) == StrayPlaces(front) + {n};
      } else {
        assert StrayPlaces(text) == StrayPlaces(front);
      }
    }
  }

  /** `str.isspace`, range by range. */
  predicate IsBlank(c: Scalar) {
    || 0x09 <= c <= 0x0D || 0x1C <= c <= 0x20 || c == 0x85 || c == 0xA0 || c == 0x1680 || 0x2000 <= c <= 0x200A
    || 0x2028 <= c <= 0x2029 || c == 0x202F || c == 0x205F || c == 0x3000
  }

  /** The text after one byte order mark, if it starts with one. */
  predicate IsBody(text: seq<Scalar>, body: seq<Scalar>) {
    if text != [] && text[0] == 0xFEFF then text == [0xFEFF] + body else text == body
  }

  /** The bytes encode this text, whose body has no NUL, something other than white space, and few stray controls. */
  ghost predicate IsDocument(content: seq<byte>, text: seq<Scalar>, body: seq<Scalar>) {
    && content == Encode(text) && IsBody(text, body)
    && (forall i | 0 <= i < |body| :: body[i] != 0)
    && (exists i | 0 <= i < |body| :: !IsBlank(body[i]))
    && 20 * |StrayPlaces(body)| < |body|
  }

  /**
   A document is accepted if and only if it is no longer than the limit and the UTF-8 encoding of a text that, after a byte
   order mark, has no NUL, has something other than white space, and less than one stray control in twenty characters.
   */
  lemma AcceptedDocuments(maxBytes: nat, chunks: seq<seq<byte>>)
    ensures Run(FRESH, maxBytes, chunks).Accepted? <==>
              |Flat(chunks)| <= maxBytes && exists text, body :: IsDocument(Flat(chunks), text, body)
  {
    RunAcceptsExactly(maxBytes, chunks);
    hide Run, Encode, IsText, IsDocument;
    var content := Flat(chunks);
    if Acceptable(maxBytes, content) {
      var text: seq<Scalar> :| content == Encode(text) && IsText(WithoutMark(text));
      DocumentIsText(content, text, WithoutMark(text));
    }
    if text, body :| |content| <= maxBytes && IsDocument(content, text, body) {
      DocumentIsText(content, text, body);
    }
  }

  lemma DocumentIsText(content: seq<byte>, text: seq<Scalar>, body: seq<Scalar>)
    ensures IsDocument(content, text, body) <==> content == Encode(text) && body == WithoutMark(text) && IsText(body)
  {
    BodyIsText(text, body);
    hide Encode, IsText, IsBody;
  }

  lemma BodyIsText(text: seq<Scalar>, body: seq<Scalar>)
    ensures IsBody(text, body) <==> body == WithoutMark(text)
    ensures IsText(body) <==>
              && (forall i | 0 <= i < |body| :: body[i] != 0) && (exists i | 0 <= i < |body| :: !IsBlank(body[i]))
              && 20 * |StrayPlaces(body)| < |body|
  {
    ControlsArePlaces(body);
    if text != [] && text[0] == 0xFEFF {
      assert text == [text[0]] + text[1..];
      assert ([0xFEFF] + body)[1..] == body;
    }
    assert 0 !in body <==> forall i | 0 <= i < |body| :: body[i] != 0;
    assert HasText(body) <==> exists i | 0 <= i < |body| :: !IsBlank(body[i]) by {
      forall i | 0 <= i < |body| ensures IsSpace(body[i]) <==> IsBlank(body[i]) {}
      if HasText(body) {
        var i :| 0 <= i < |body| && !IsSpace(body[i]);
        assert !IsBlank(body[i]);
      }
      if i :| 0 <= i < |body| && !IsBlank(body[i]) {
        assert !IsSpace(body[i]);
      }
    }
  }

  // ---- why a document is rejected ---------------------------------------------------------------------------------

  /** What a rejection code tells about the whole content. */
  ghost predicate Tells(maxBytes: nat, content: seq<byte>, reason: Rejection) {
    match reason
    case FileTooLarge => |content| > maxBytes
    case InvalidTextEncoding => !exists text: seq<Scalar> :: content == Encode(text)
    case BinaryContentRejected => (exists n | 0 <= n <= |content| :: HasNul(content[..n])) || ManyControls(content)
    case EmptyDocument => exists text: seq<Scalar> :: content == Encode(text) && !HasText(WithoutMark(text))
    case InvalidState => false
  }

  ghost predicate HasNul(content: seq<byte>) {
    Decode(content).ok && exists i | 0 <= i < |Decode(content).text| :: Decode(content).text[i] == 0
  }

  ghost predicate ManyControls(content: seq<byte>) {
    exists text: seq<Scalar> ::
      content == Encode(text) && var body := WithoutMark(text); StrayPlaces(body) != {} && 20 * |StrayPlaces(body)| >= |body|
  }

  lemma NoEncoding(content: seq<byte>, more: seq<byte>)
    requires !Decode(content).ok
    ensures !exists text: seq<Scalar> :: content + more == Encode(text)
  {
    RejectedHasNoContinuation(content);
  }

  lemma UnfinishedIsNoEncoding(content: seq<byte>)
    requires Decode(content).rest != []
    ensures !exists text: seq<Scalar> :: content == Encode(text)
  {
    if text: seq<Scalar> :| content == Encode(text) {
      DecodeOfEncoded(text);
      assert false;
    }
  }

  lemma FeedTells(maxBytes: nat, content: seq<byte>, chunk: seq<byte>, more: seq<byte>)
    requires Feedable(maxBytes, content) && AfterFeed(Summarised(content), maxBytes, chunk).error.Some?
    ensures Tells(maxBytes, content + chunk + more, AfterFeed(Summarised(content), maxBytes, chunk).error.value)
  {
    var reached := content + chunk;
    DecodeAppend(content, chunk);
    FeedSummarises(maxBytes, content, chunk);
    if |reached| <= maxBytes {
      if !Decode(reached).ok {
        NoEncoding(reached, more);
      } else {
        assert (reached + more)[..|reached|] == reached;
        NulIsThere(Decode(reached).text);
      }
    }
  }

  lemma NulIsThere(text: seq<Scalar>)
    ensures 0 in WithoutMark(text) ==> exists i | 0 <= i < |text| :: text[i] == 0
  {
    if 0 in WithoutMark(text) {
      var i :| 0 <= i < |WithoutMark(text)| && WithoutMark(text)[i] == 0;
      assert text[if WithoutMark(text) == text then i else i + 1] == 0;
    }
  }

  lemma VerdictTells(maxBytes: nat, content: seq<byte>)
    requires Feedable(maxBytes, content) && VerdictOf(Summarised(content)).Rejected?
    ensures Tells(maxBytes, content, VerdictOf(Summarised(content)).reason)
  {
    DecodedIsPrefix(content);
    if Decode(content).rest != [] {
      UnfinishedIsNoEncoding(content);
    } else {
      assert content == Encode(Decode(content).text);
      ControlsArePlaces(WithoutMark(Decode(content).text));
      assert StrayPlaces(WithoutMark(Decode(content).text)) == {} ==> Controls(WithoutMark(Decode(content).text)) == 0;
    }
  }

  lemma {:induction false} RunTells(maxBytes: nat, content: seq<byte>, chunks: seq<seq<byte>>)
    requires Feedable(maxBytes, content) && Run(Summarised(content), maxBytes, chunks).Rejected?
    ensures Tells(maxBytes, content + Flat(chunks), Run(Summarised(content), maxBytes, chunks).reason)
    decreases |chunks|
  {
    hide Tells;
    if chunks == [] {
      assert content + Flat(chunks) == content;
      VerdictTells(maxBytes, content);
    } else {
      var next := content + chunks[0];
      assert content + Flat(chunks) == next + Flat(chunks[1..]);
      FeedSummarises(maxBytes, content, chunks[0]);
      if Feedable(maxBytes, next) {
        RunTells(maxBytes, next, chunks[1..]);
      } else {
        FeedTells(maxBytes, content, chunks[0], Flat(chunks[1..]));
      }
    }
  }

  /** Each rejection code tells the truth about the whole content, wherever the chunks were cut. */
  lemma RejectionIsTrue(maxBytes: nat, chunks: seq<seq<byte>>)
    requires Run(FRESH, maxBytes, chunks).Rejected?
    ensures Tells(maxBytes, Flat(chunks), Run(FRESH, maxBytes, chunks).reason)
  {
    assert Summarised([]) == FRESH;
    RunTells(maxBytes, [], chunks);
    assert [] + Flat(chunks) == Flat(chunks);
  }

  /** A validator that has finished takes nothing more. */
  lemma FinishedTakesNothing(s: State, maxBytes: nat, chunk: seq<byte>)
    requires s.finished
    ensures AfterFeed(s, maxBytes, chunk) == Fed(s, Some(InvalidState)) && VerdictOf(s) == Rejected(InvalidState)
  {}

  // ---- the validator object ------------------------------------------------------------------------------------

  class IncrementalTextValidator {
    const maxBytes: nat
    var pending: seq<byte>
    var hashed: seq<byte>
    var total: nat
    var controlCount: nat
    var textCharacterCount: nat
    var hasText: bool
    var sawCodepoint: bool
    var finished: bool

    ghost function Now(): State
      reads this
    {
      State(pending, hashed, total, controlCount, textCharacterCount, hasText, sawCodepoint, finished)
    }

    constructor (maxBytes: nat)
      requires maxBytes > 0
      ensures Now() == FRESH && this.maxBytes == maxBytes
    {
      this.maxBytes := maxBytes;
      pending, hashed, total, controlCount, textCharacterCount := [], [], 0, 0, 0;
      hasText, sawCodepoint, finished := false, false, false;
    }

    method Feed(chunk: seq<byte>) returns (error: Option<Rejection>)
      modifies this
      ensures Fed(Now(), error) == AfterFeed(old(Now()), maxBytes, chunk)
    {
      if finished {
        return Some(InvalidState);
      }
      if chunk == [] {
        return None;
      }
      var nextTotal := total + |chunk|;
      if nextTotal > maxBytes {
        return Some(FileTooLarge);
      }
      total := nextTotal;
      hashed := hashed + chunk;
      var decoded := Decode(pending + chunk);
      if !decoded.ok {
        return Some(InvalidTextEncoding);
      }
      pending := decoded.rest;
      error := Inspect(decoded.text);
    }

    method Inspect(decoded: seq<Scalar>) returns (error: Option<Rejection>)
      modifies this
      ensures Fed(Now(), error) == AfterInspect(old(Now()), decoded)
    {
      if decoded == [] {
        return None;
      }
      var text := decoded;
      if !sawCodepoint {
        sawCodepoint := true;
        if text[0] == BYTE_ORDER_MARK {
          text := text[1..];
        }
      }
      if 0 in text {
        return Some(BinaryContentRejected);
      }
      textCharacterCount := textCharacterCount + |text|;
      controlCount := controlCount + Controls(text);
      hasText := hasText || HasText(text);
      error := None;
    }

    method Finish() returns (verdict: Verdict)
      modifies this
      ensures verdict == VerdictOf(old(Now()))
      ensures Now() == old(Now()).(finished := true)
    {
      if finished {
        return Rejected(InvalidState);
      }
      finished := true;
      if pending != [] {
        return Rejected(InvalidTextEncoding);
      }
      if controlCount > 0 && 20 * controlCount >= if textCharacterCount > 1 then textCharacterCount else 1 {
        return Rejected(BinaryContentRejected);
      }
      if !hasText {
        return Rejected(EmptyDocument);
      }
      verdict := Accepted(total, hashed);
    }
  }

  // ---- validate_document -----------------------------------------------------------------------------------------

  /** `replace("\r\n", "\n")`. */
  function JoinPairs(text: seq<Scalar>): seq<Scalar> {
    if text == [] then []
    else if |text| > 1 && text[0] == CARRIAGE_RETURN && text[1] == LINE_FEED then [LINE_FEED] + JoinPairs(text[2..])
    else [text[0]] + JoinPairs(text[1..])
  }

  /** `replace("\r", "\n")`. */
  function ReplaceReturns(text: seq<Scalar>): seq<Scalar> {
    if text == [] then []
    else [if text[0] == CARRIAGE_RETURN then LINE_FEED else text[0]] + ReplaceReturns(text[1..])
  }

  function Normalized(text: seq<Scalar>): seq<Scalar> { ReplaceReturns(JoinPairs(text)) }

  /** The lines of a text whose lines end in CR LF, CR or LF. */
  function Lines(text: seq<Scalar>): (r: seq<seq<Scalar>>)
    ensures r != []
  {
    if text == [] then [[]]
    else if |text| > 1 && text[0] == CARRIAGE_RETURN && text[1] == LINE_FEED then [[]] + Lines(text[2..])
    else if text[0] == CARRIAGE_RETURN || text[0] == LINE_FEED then [[]] + Lines(text[1..])
    else
      var more := Lines(text[1..]);
      [[text[0]] + more[0]] + more[1..]
  }

  lemma {:induction false} NormalizedKeepsLines(text: seq<Scalar>)
    ensures CARRIAGE_RETURN !in Normalized(text)
    ensures Lines(Normalized(text)) == Lines(text)
    decreases |text|
  {
    if text != [] {
      var n := if |text| > 1 && text[0] == CARRIAGE_RETURN && text[1] == LINE_FEED then 2 else 1;
      var head := if text[0] == CARRIAGE_RETURN then LINE_FEED else text[0];
      var joined := JoinPairs(text);
      NormalizedKeepsLines(text[n..]);
      assert joined[1..] == JoinPairs(text[n..]);
      assert Normalized(text) == [head] + Normalized(text[n..]);
      assert Normalized(text)[1..] == Normalized(text[n..]);
    }
  }

  /** `validate_document`: its decode cannot fail after the validator has accepted. */
  method ValidateDocument(content: seq<byte>, maxBytes: nat)
    returns (verdict: Verdict, normalizedText: seq<Scalar>, normalizedBytes: seq<byte>)
    requires maxBytes > 0
    ensures verdict.Accepted? <==> Acceptable(maxBytes, content)
    ensures verdict.Rejected? ==> Tells(maxBytes, content, verdict.reason)
    ensures verdict.Accepted? ==>
              && verdict == Accepted(|content|, content)
              && Decode(content).ok && Encode(Decode(content).text) == content
              && normalizedText == Normalized(WithoutMark(Decode(content).text))
              && Decode(normalizedBytes) == Decoded(normalizedText, [], true)
    ensures verdict.Accepted? ==>
              CARRIAGE_RETURN !in normalizedText && Lines(normalizedText) == Lines(WithoutMark(Decode(content).text))
  {
    normalizedText, normalizedBytes := [], [];
    var validator := new IncrementalTextValidator(maxBytes);
    assert Flat([content]) == content by { assert [content][1..] == []; }
    RunAcceptsExactly(maxBytes, [content]);
    if Run(FRESH, maxBytes, [content]).Rejected? {
      RejectionIsTrue(maxBytes, [content]);
    }
    hide Tells;
    var error := validator.Feed(content);
    if error.Some? {
      return Rejected(error.value), [], [];
    }
    assert [content][1..] == [];
    verdict := validator.Finish();
    if verdict.Rejected? {
      return;
    }
    AcceptableMeansSummary(maxBytes, content);
    DecodedIsPrefix(content);
    var decoded := Decode(content).text;
    if decoded != [] && decoded[0] == BYTE_ORDER_MARK {
      decoded := decoded[1..];
    }
    NormalizedKeepsLines(decoded);
    normalizedText := ReplaceReturns(JoinPairs(decoded));
    normalizedBytes := Encode(normalizedText);
    DecodeOfEncoded(normalizedText);
  }
}
