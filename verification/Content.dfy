/** Documents, their versions and their index states: the rows a cutover reads and a repair needs. */
module Content {
  import opened Prelude

  type DocumentId = nat
  type VersionId = nat

  /** The identity uuid5 derives from (actor, knowledge base, idempotency key), or any other UUID. */
  datatype CreationKey = CreationKey(actor: nat, knowledgeBase: nat, key: string)
  datatype GenerationId = StableGeneration(origin: CreationKey) | OtherGeneration(n: nat)

  datatype Document = Document(
    id: DocumentId,
    knowledgeBase: nat,
    active: bool,
    deleted: bool,
    checksum: string,
    currentVersion: Option<VersionId>)

  /** Parser, chunker and artifact columns; present only when all of them are set and their configuration hash agrees. */
  datatype Provenance = Provenance(parsedChecksum: string, manifestKey: string, chunkConfigHash: string)

  datatype Version = Version(
    document: DocumentId,
    ready: bool,
    activated: bool,
    sourceChecksum: string,
    chunkCount: Option<nat>,
    manifestChecksum: Option<string>,
    provenance: Option<Provenance>)

  datatype StateKey = StateKey(version: VersionId, generation: GenerationId)

  datatype IndexState = IndexState(
    validated: bool,
    validatedAt: Option<nat>,
    expectedPoints: Option<nat>,
    actualPoints: Option<nat>,
    nextChunk: nat,
    manifestChecksum: Option<string>,
    embeddingHash: Option<string>)

  /** `documents` is the table in id order. */
  datatype Content = Content(
    documents: seq<Document>,
    versions: map<VersionId, Version>,
    states: map<StateKey, IndexState>)

  predicate Live(d: Document, kb: nat) {
    d.knowledgeBase == kb && d.active && !d.deleted
  }

  // ---- enrol_live_versions and live_point_total -------------------------------------------

  /** The enrolment query selects this document's current version. */
  predicate Enrollable(c: Content, d: Document, kb: nat) {
    && Live(d, kb)
    && d.currentVersion.Some?
    && d.currentVersion.value in c.versions
    && var v := c.versions[d.currentVersion.value];
       v.ready && v.chunkCount.Some? && v.manifestChecksum.Some?
  }

  function EnrolledState(v: Version, embeddingHash: string, now: nat): IndexState
    requires v.chunkCount.Some?
  {
    IndexState(true, Some(now), v.chunkCount, v.chunkCount, v.chunkCount.value, v.manifestChecksum, Some(embeddingHash))
  }

  /** INSERT ... SELECT ... ON CONFLICT DO NOTHING over the documents in `rest`, and the number of rows inserted. */
  function EnrolFrom(c: Content, rest: seq<Document>, kb: nat, g: GenerationId, embeddingHash: string, now: nat)
    : (r: (map<StateKey, IndexState>, nat))
  {
    if rest == [] then (c.states, 0)
    else
      var (states, count) := EnrolFrom(c, rest[..|rest|-1], kb, g, embeddingHash, now);
      var d := rest[|rest|-1];
      if Enrollable(c, d, kb) && StateKey(d.currentVersion.value, g) !in states then
        (states[StateKey(d.currentVersion.value, g) := EnrolledState(c.versions[d.currentVersion.value], embeddingHash, now)],
         count + 1)
      else (states, count)
  }

  function Enrol(c: Content, kb: nat, g: GenerationId, embeddingHash: string, now: nat): (Content, nat) {
    var (states, count) := EnrolFrom(c, c.documents, kb, g, embeddingHash, now);
    (c.(states := states), count)
  }

  /** One document's contribution to live_point_total; the manifest checksum is not looked at there. */
  function LivePoints(c: Content, d: Document, kb: nat): nat {
    if Live(d, kb) && d.currentVersion.Some? && d.currentVersion.value in c.versions
       && c.versions[d.currentVersion.value].ready && c.versions[d.currentVersion.value].chunkCount.Some?
    then c.versions[d.currentVersion.value].chunkCount.value
    else 0
  }

  function LivePointsOf(c: Content, rest: seq<Document>, kb: nat): nat {
    if rest == [] then 0
    else LivePointsOf(c, rest[..|rest|-1], kb) + LivePoints(c, rest[|rest|-1], kb)
  }

  function LivePointTotal(c: Content, kb: nat): nat { LivePointsOf(c, c.documents, kb) }

  // ---- _canonical_targets -------------------------------------------------------------------

  datatype Target = Target(document: DocumentId, version: VersionId, manifestChecksum: string, chunkCount: nat)

  /** The conditions on the document and version columns alone. */
  predicate CompleteVersion(c: Content, d: Document) {
    && d.currentVersion.Some?
    && d.currentVersion.value in c.versions
    && var v := c.versions[d.currentVersion.value];
       && v.document == d.id
       && d.checksum == v.sourceChecksum
       && v.ready
       && v.activated
       && v.provenance.Some?
       && v.chunkCount.Some?
       && v.chunkCount.value >= 1
       && v.manifestChecksum.Some?
  }

  /** The conditions on the index-state columns. */
  predicate MatchingState(s: IndexState, v: Version, embeddingHash: string)
    requires v.chunkCount.Some?
  {
    && s.validated
    && s.validatedAt.Some?
    && s.expectedPoints == v.chunkCount
    && s.actualPoints == v.chunkCount
    && s.manifestChecksum == v.manifestChecksum
    && s.embeddingHash == Some(embeddingHash)
    && s.nextChunk == v.chunkCount.value
  }

  predicate Repairable(c: Content, d: Document, g: GenerationId, embeddingHash: string) {
    && CompleteVersion(c, d)
    && StateKey(d.currentVersion.value, g) in c.states
    && MatchingState(c.states[StateKey(d.currentVersion.value, g)], c.versions[d.currentVersion.value], embeddingHash)
  }

  function TargetOf(c: Content, d: Document): Target
    requires CompleteVersion(c, d)
  {
    var v := c.versions[d.currentVersion.value];
    Target(d.id, d.currentVersion.value, v.manifestChecksum.value, v.chunkCount.value)
  }

  /** The targets and point total the loop of `_canonical_targets` builds, or None where it raises. */
  function CanonicalTargetsOf(c: Content, rest: seq<Document>, kb: nat, g: GenerationId, embeddingHash: string)
    : (r: Option<(seq<Target>, nat)>)
  {
    if rest == [] then Some(([], 0))
    else
      var before := CanonicalTargetsOf(c, rest[..|rest|-1], kb, g, embeddingHash);
      var d := rest[|rest|-1];
      if before.None? || !Live(d, kb) then before
      else if !Repairable(c, d, g, embeddingHash) then None
      else Some((before.value.0 + [TargetOf(c, d)], before.value.1 + TargetOf(c, d).chunkCount))
  }

  function CanonicalTargets(c: Content, kb: nat, g: GenerationId, embeddingHash: string): Option<(seq<Target>, nat)> {
    CanonicalTargetsOf(c, c.documents, kb, g, embeddingHash)
  }

  // ---- loops, as the repair service and the SQL aggregate run them -----------------------------

  /** The row loop of `_canonical_targets`. */
  method BuildCanonicalTargets(c: Content, kb: nat, g: GenerationId, embeddingHash: string)
    returns (ok: bool, targets: seq<Target>, pointTotal: nat)
    ensures ok <==> CanonicalTargets(c, kb, g, embeddingHash).Some?
    ensures ok ==> (targets, pointTotal) == CanonicalTargets(c, kb, g, embeddingHash).value
  {
    targets, pointTotal := [], 0;
    assert c.documents[..0] == [];
    for i := 0 to |c.documents|
      invariant CanonicalTargetsOf(c, c.documents[..i], kb, g, embeddingHash) == Some((targets, pointTotal))
    {
      var d := c.documents[i];
      assert c.documents[..i+1][..|c.documents[..i+1]|-1] == c.documents[..i];
      if Live(d, kb) {
        if !Repairable(c, d, g, embeddingHash) {
          NoTargetsAfterFailure(c, c.documents, i + 1, kb, g, embeddingHash);
          return false, [], 0;
        }
        targets := targets + [TargetOf(c, d)];
        pointTotal := pointTotal + TargetOf(c, d).chunkCount;
      }
    }
    assert c.documents[..|c.documents|] == c.documents;
    ok := true;
  }

  lemma {:induction false} NoTargetsAfterFailure(c: Content, docs: seq<Document>, n: nat, kb: nat, g: GenerationId, h: string)
    requires n <= |docs|
    requires CanonicalTargetsOf(c, docs[..n], kb, g, h).None?
    ensures CanonicalTargetsOf(c, docs, kb, g, h).None?
    decreases |docs| - n
  {
    if n < |docs| {
      assert docs[..n+1][..|docs[..n+1]|-1] == docs[..n];
      NoTargetsAfterFailure(c, docs, n + 1, kb, g, h);
    } else {
      assert docs[..n] == docs;
    }
  }

  lemma {:induction false} LivePointsIgnoreStates(c: Content, states: map<StateKey, IndexState>, rest: seq<Document>, kb: nat)
    ensures LivePointsOf(c.(states := states), rest, kb) == LivePointsOf(c, rest, kb)
  {
    if rest != [] {
      LivePointsIgnoreStates(c, states, rest[..|rest|-1], kb);
    }
  }
}
