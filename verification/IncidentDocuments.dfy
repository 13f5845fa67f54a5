/** The signed documents of the incident feed and the requests built from them.

    Bytes are symbolic: a payload is the document its canonical bytes decode to, so that equal
    payloads are equal bytes, and SHA-256 is the injective constructor `Sha`. A signature is a
    constructor too: only `Signed(key, bytes)` verifies. */
module IncidentDocuments {

  import opened Options

  /** An incident id is twelve hexadecimal digits; a natural number orders the same way. */
  type IncidentId = nat
  type Millis = int

  datatype Digest = Sha(preimage: Payload) | Unrelated(tag: nat)

  datatype Signature = Signed(vaultKey: nat, message: Payload) | Forged(tag: nat)

  datatype Lifecycle = Detected | Queued | Reassessing | Active | RecoveryObserved | Resolved

  /** The signing identity every publisher and reader of one deployment is configured with. */
  datatype Trust = Trust(keyId: nat, fingerprint: nat)
  datatype Anchor = Anchor(trust: Trust, vaultKey: nat)

  /** Everything an incident state says except its own result digest. */
  datatype StateBody = StateBody(
    incident: IncidentId, transition: nat, scenario: string, lifecycle: Lifecycle, role: string,
    detectedAt: Millis, updatedAt: Millis, narrative: string)

  /** `version` is the hexadecimal directory name under incidents/<id>/versions/; the four paths of
      a pointer all sit in that one directory. */
  datatype Pointer = Pointer(
    incident: IncidentId, version: Digest, stateSha: Digest, attestationSha: Digest,
    trust: Trust, publishedAt: Millis)

  datatype Entry = Entry(
    scenario: string, role: string, version: Digest, pointerSha: Digest,
    detectedAt: Millis, updatedAt: Millis)

  /** The entries are sorted by a unique incident id, so the list is the same thing as a map. */
  datatype Index = Index(
    entries: map<IncidentId, Entry>, attestationVersion: Digest, trust: Trust, publishedAt: Millis)

  datatype Manifest = Manifest(run: string, assets: seq<Digest>, publishedAt: Millis)

  datatype Payload =
    | StatePreimage(body: StateBody)
    | StateDoc(body: StateBody, resultDigest: Digest)
    | StateAttestation(resultDigest: Digest, vaultKey: nat, signature: Signature)
    | PointerDoc(pointer: Pointer)
    | PointerAttestation(pointerDigest: Digest, vaultKey: nat, signature: Signature)
    | IndexSeed(entries: map<IncidentId, Entry>, trust: Trust, publishedAt: Millis)
    | IndexDoc(index: Index)
    | IndexAttestation(indexDigest: Digest, vaultKey: nat, signature: Signature)
    | ManifestDoc(manifest: Manifest)
    | Other(bytes: seq<nat>)

  predicate Verifies(anchor: Anchor, message: Payload, signature: Signature) {
    signature == Signed(anchor.vaultKey, message)
  }

  /** Blob names. `Current`, `ActiveIndex` and `RuntimeManifest` are the mutable ones. */
  datatype Name =
    | State(incident: IncidentId, version: Digest)
    | StateAtt(incident: IncidentId, version: Digest)
    | PointerCopy(incident: IncidentId, version: Digest)
    | PointerAtt(incident: IncidentId, version: Digest)
    | IndexAtt(version: Digest)
    | Live(run: string, slot: nat)
    | Current(incident: IncidentId)
    | ActiveIndex
    | RuntimeManifest

  predicate Mutable(n: Name) {
    n.Current? || n.ActiveIndex? || n.RuntimeManifest?
  }

  datatype Asset = Asset(name: Name, payload: Payload)

  // ---------------------------------------------------------------- what a publisher publishes

  /** One publication. The digests a `PresentationAsset` carries are always those of its payload. */
  datatype Request =
    | IncidentRequest(
        pointer: Pointer, state: Payload, stateAtt: Payload, pointerAtt: Payload,
        index: Index, indexAtt: Payload, previous: Option<Digest>)
    | HeartbeatRequest(index: Index, indexAtt: Payload, previous: Option<Digest>)
    | LiveRequest(run: string, live: seq<Payload>, publishedAt: Millis)

  /** The create-only uploads of a request, in upload order. */
  function Assets(r: Request): (assets: seq<Asset>)
    ensures forall a <- assets :: !Mutable(a.name)
    ensures forall i, j :: 0 <= i < j < |assets| ==> assets[i].name != assets[j].name
  {
    match r
    case IncidentRequest(p, state, stateAtt, pointerAtt, index, indexAtt, _) =>
      [Asset(State(p.incident, p.version), state),
       Asset(StateAtt(p.incident, p.version), stateAtt),
       Asset(PointerCopy(p.incident, p.version), PointerDoc(p)),
       Asset(PointerAtt(p.incident, p.version), pointerAtt),
       Asset(IndexAtt(index.attestationVersion), indexAtt)]
    case HeartbeatRequest(index, indexAtt, _) =>
      [Asset(IndexAtt(index.attestationVersion), indexAtt)]
    case LiveRequest(run, live, _) =>
      seq(|live|, i requires 0 <= i < |live| => Asset(Live(run, i), live[i]))
  }

  function ManifestOf(r: Request): Manifest
    requires r.LiveRequest?
  {
    Manifest(r.run, seq(|r.live|, i requires 0 <= i < |r.live| => Sha(r.live[i])), r.publishedAt)
  }

  /** A change of the active index: an incident state to publish, or a heartbeat. */
  datatype Change = Publish(body: StateBody, at: Millis) | Beat(at: Millis)

  function Max(a: int, b: int): int {
    if a < b then b else a
  }

  function Preimage(body: StateBody): Payload {
    StatePreimage(body)
  }

  function SignedState(body: StateBody): Payload {
    StateDoc(body, Sha(Preimage(body)))
  }

  function StateAttestationOf(anchor: Anchor, body: StateBody): Payload {
    StateAttestation(Sha(Preimage(body)), anchor.vaultKey, Signed(anchor.vaultKey, Preimage(body)))
  }

  function PointerOf(anchor: Anchor, body: StateBody, at: Millis): Pointer {
    Pointer(body.incident, Sha(Preimage(body)), Sha(SignedState(body)),
            Sha(StateAttestationOf(anchor, body)), anchor.trust, Max(at, body.updatedAt))
  }

  function PointerAttestationOf(anchor: Anchor, p: Pointer): Payload {
    PointerAttestation(Sha(PointerDoc(p)), anchor.vaultKey, Signed(anchor.vaultKey, PointerDoc(p)))
  }

  function IndexAttestationOf(anchor: Anchor, ix: Index): Payload {
    IndexAttestation(Sha(IndexDoc(ix)), anchor.vaultKey, Signed(anchor.vaultKey, IndexDoc(ix)))
  }

  function EntryOf(anchor: Anchor, body: StateBody, at: Millis): Entry {
    var p := PointerOf(anchor, body, at);
    Entry(body.scenario, body.role, p.version, Sha(PointerDoc(p)), body.detectedAt, body.updatedAt)
  }

  function EntriesOf(basis: Option<Index>): map<IncidentId, Entry> {
    if basis.None? then map[] else basis.value.entries
  }

  function NextEntries(anchor: Anchor, c: Change, basis: Option<Index>): map<IncidentId, Entry> {
    match c
    case Beat(_) => EntriesOf(basis)
    case Publish(body, at) =>
      if body.lifecycle == Active then EntriesOf(basis)[body.incident := EntryOf(anchor, body, at)]
      else EntriesOf(basis) - {body.incident}
  }

  /** The index a change makes of the snapshot it was built from. A publication that leaves the
      entries as they were reuses the snapshot; a heartbeat never does. */
  function NextIndex(anchor: Anchor, c: Change, basis: Option<Index>): Index {
    var entries := NextEntries(anchor, c, basis);
    var at := if c.Beat? then c.at else Max(c.at, c.body.updatedAt);
    if c.Publish? && basis.Some? && entries == basis.value.entries && basis.value.trust == anchor.trust then
      basis.value
    else
      var floor := if basis.None? then at else Max(at, basis.value.publishedAt);
      var stamp := if basis.Some? && floor == basis.value.publishedAt then floor + 1 else floor;
      Index(entries, Sha(IndexSeed(entries, anchor.trust, stamp)), anchor.trust, stamp)
  }

  const MAX_ACTIVE_INCIDENTS := 64

  function Build(anchor: Anchor, c: Change, basis: Option<Index>): Option<Request> {
    var index := NextIndex(anchor, c, basis);
    var previous := if basis.None? then None else Some(Sha(IndexDoc(basis.value)));
    if |index.entries| > MAX_ACTIVE_INCIDENTS then None
    else match c
      case Beat(_) => Some(HeartbeatRequest(index, IndexAttestationOf(anchor, index), previous))
      case Publish(body, at) =>
        var p := PointerOf(anchor, body, at);
        Some(IncidentRequest(p, SignedState(body), StateAttestationOf(anchor, body),
                             PointerAttestationOf(anchor, p), index,
                             IndexAttestationOf(anchor, index), previous))
  }

  // ---------------------------------------------------------------- what the request types check

  /** `IncidentPublicationRequest.__post_init__` together with the occurrence preflight of
      `publish_incident` and its trust-anchor test. */
  predicate AcceptedRequest(anchor: Anchor, r: Request) {
    match r
    case HeartbeatRequest(index, indexAtt, _) => AcceptedIndexAssets(anchor, index, indexAtt)
    case LiveRequest(_, live, _) => |live| == 6
    case IncidentRequest(p, state, stateAtt, pointerAtt, index, indexAtt, _) =>
      && AcceptedIndexAssets(anchor, index, indexAtt)
      && pointerAtt.PointerAttestation? && pointerAtt.pointerDigest == Sha(PointerDoc(p))
      && pointerAtt.vaultKey == anchor.vaultKey
      && p.trust == anchor.trust
      && p.stateSha == Sha(state) && p.attestationSha == Sha(stateAtt)
      && state.StateDoc? && stateAtt.StateAttestation?
      && AcceptedEntry(p, state.body, index)
      && state.resultDigest == Sha(Preimage(state.body))
      && p.version == state.resultDigest
      && stateAtt.resultDigest == state.resultDigest
      && stateAtt.vaultKey == pointerAtt.vaultKey
      && p.incident == state.body.incident
      && state.body.updatedAt <= p.publishedAt
  }

  predicate AcceptedIndexAssets(anchor: Anchor, index: Index, indexAtt: Payload) {
    && index.trust == anchor.trust
    && indexAtt.IndexAttestation? && indexAtt.indexDigest == Sha(IndexDoc(index))
    && indexAtt.vaultKey == anchor.vaultKey
  }

  predicate AcceptedEntry(p: Pointer, body: StateBody, index: Index) {
    if body.lifecycle == Active then
      && body.incident in index.entries
      && index.entries[body.incident]
           == Entry(body.scenario, body.role, p.version, Sha(PointerDoc(p)), body.detectedAt, body.updatedAt)
    else body.incident !in index.entries
  }

  /** Whatever the builder produces from a snapshot signed by the same deployment passes every check
      of the request type and of the publisher's preflight. */
  lemma BuiltRequestsAreAccepted(anchor: Anchor, c: Change, basis: Option<Index>)
    requires basis.Some? ==> basis.value.trust == anchor.trust
    requires Build(anchor, c, basis).Some?
    ensures AcceptedRequest(anchor, Build(anchor, c, basis).value)
  {
  }

  /** A built index is either the snapshot itself or strictly newer than it, and never the snapshot
      for a heartbeat. */
  lemma NextIndexIsNewer(anchor: Anchor, c: Change, basis: Option<Index>)
    requires basis.Some?
    ensures NextIndex(anchor, c, basis) == basis.value || NextIndex(anchor, c, basis).publishedAt > basis.value.publishedAt
    ensures c.Beat? ==> NextIndex(anchor, c, basis).publishedAt > basis.value.publishedAt
  {
  }
}
