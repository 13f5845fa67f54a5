/** The readers, each a series of separate storage reads that race with the publishers. A reader's
    `i`-th read finds the store `seen[i]`. */
module PublicationReaders {
  import opened Options
  import opened IncidentDocuments
  import opened Publication
  import opened PublicationSystem
  import opened PublicationTheorems

  datatype Read<+T> = Absent | Found(value: T) | Rejected

  datatype CurrentState = CurrentState(
    body: StateBody, pointer: Pointer, occurrence: Option<Occurrence>)

  /** The version-pinned references of an occurrence receipt. */
  datatype Occurrence = Occurrence(
    state: PinnedRef, stateAtt: PinnedRef, pointer: PinnedRef, pointerAtt: PinnedRef, publishedAt: Millis)

  predicate Present(s: Store, n: Name) {
    n in s.blobs && Intact(s.blobs[n])
  }

  function PinnedAt(s: Store, n: Name): PinnedRef
    requires n in s.blobs
  {
    PinnedRef(n, s.blobs[n].stamp, Sha(s.blobs[n].payload))
  }

  /** `read_active_incident_index`: the index, then its attestation. */
  function ReadActiveIndex(anchor: Anchor, first: Store, second: Store): Read<Index> {
    if ActiveIndex !in first.blobs then Absent
    else if !first.blobs[ActiveIndex].payload.IndexDoc? then Rejected
    else
      var index := first.blobs[ActiveIndex].payload.index;
      var att := IndexAtt(index.attestationVersion);
      if index.trust != anchor.trust || att !in second.blobs then Rejected
      else
        var a := second.blobs[att].payload;
        if a.IndexAttestation? && a.indexDigest == Sha(IndexDoc(index)) && a.vaultKey == anchor.vaultKey
           && Verifies(anchor, IndexDoc(index), a.signature)
        then Found(index) else Rejected
  }

  predicate PointerAttested(anchor: Anchor, p: Pointer, a: Payload) {
    && a.PointerAttestation? && a.pointerDigest == Sha(PointerDoc(p)) && a.vaultKey == anchor.vaultKey
    && Verifies(anchor, PointerDoc(p), a.signature)
  }

  predicate StateTrusted(anchor: Anchor, p: Pointer, state: Payload, att: Payload) {
    && state.StateDoc? && att.StateAttestation?
    && p.stateSha == Sha(state) && state.body.incident == p.incident
    && state.resultDigest == Sha(StatePreimage(state.body)) && p.version == state.resultDigest
    && p.attestationSha == Sha(att) && att.resultDigest == state.resultDigest
    && att.vaultKey == anchor.vaultKey && Verifies(anchor, StatePreimage(state.body), att.signature)
  }

  /** `read_current_incident_state`: the mutable pointer, then four immutable blobs. */
  function ReadCurrentState(anchor: Anchor, seen: seq<Store>, id: IncidentId): Read<CurrentState>
    requires |seen| == 5
  {
    if Current(id) !in seen[0].blobs then Absent
    else if !Intact(seen[0].blobs[Current(id)]) || !seen[0].blobs[Current(id)].payload.PointerDoc? then Rejected
    else
      var p := seen[0].blobs[Current(id)].payload.pointer;
      var (copy, pointerAtt) := (PointerCopy(id, p.version), PointerAtt(id, p.version));
      var (state, stateAtt) := (State(id, p.version), StateAtt(id, p.version));
      if p.incident != id || p.trust != anchor.trust
         || !Present(seen[1], copy) || !Present(seen[2], pointerAtt)
         || !Present(seen[3], state) || !Present(seen[4], stateAtt)
         || seen[1].blobs[copy].payload != PointerDoc(p)
         || !PointerAttested(anchor, p, seen[2].blobs[pointerAtt].payload)
         || !StateTrusted(anchor, p, seen[3].blobs[state].payload, seen[4].blobs[stateAtt].payload)
      then Rejected
      else
        var body := seen[3].blobs[state].payload.body;
        Found(CurrentState(body, p,
          if p.publishedAt < body.updatedAt then None
          else Some(Occurrence(PinnedAt(seen[3], state), PinnedAt(seen[4], stateAtt),
                               PinnedAt(seen[1], copy), PinnedAt(seen[2], pointerAtt), p.publishedAt))))
  }

  datatype Response = Ok(payload: Payload) | NotFound | Unavailable

  function LoadPointer(anchor: Anchor, id: IncidentId, e: Entry, third: Store, fourth: Store): Read<Pointer> {
    if !Present(third, PointerCopy(id, e.version)) || !third.blobs[PointerCopy(id, e.version)].payload.PointerDoc?
    then Rejected
    else
      var p := third.blobs[PointerCopy(id, e.version)].payload.pointer;
      if Sha(PointerDoc(p)) != e.pointerSha || p.incident != id || p.trust != anchor.trust || p.version != e.version
         || !Present(fourth, PointerAtt(id, p.version))
         || !PointerAttested(anchor, p, fourth.blobs[PointerAtt(id, p.version)].payload)
      then Rejected else Found(p)
  }

  /** Which incident directory a requested path lies in, if any. */
  function Directory(target: Name): Option<IncidentId> {
    match target
    case State(id, _) => Some(id)
    case StateAtt(id, _) => Some(id)
    case PointerCopy(id, _) => Some(id)
    case PointerAtt(id, _) => Some(id)
    case _ => None
  }

  function ServeDigest(s: Store, target: Name, digest: Digest): Response {
    if !Present(s, target) || Sha(s.blobs[target].payload) != digest then Unavailable
    else Ok(s.blobs[target].payload)
  }

  /** The gateway's answer to GET /incidents/..., without the second feed. */
  function ServeIncident(anchor: Anchor, seen: seq<Store>, target: Name): Response
    requires |seen| == 5
  {
    if !Present(seen[0], ActiveIndex) then Unavailable
    else match ReadActiveIndex(anchor, seen[0], seen[1])
      case Found(index) =>
        if !Present(seen[1], IndexAtt(index.attestationVersion)) then Unavailable
        else if target == ActiveIndex then Ok(IndexDoc(index))
        else if target == IndexAtt(index.attestationVersion) then
          if Present(seen[2], target) && ReadActiveIndex(anchor, seen[0], seen[2]).Found?
          then Ok(seen[2].blobs[target].payload) else Unavailable
        else if Directory(target).None? || Directory(target).value !in index.entries then NotFound
        else ServeEntry(anchor, seen, target, Directory(target).value, index.entries[Directory(target).value])
      case _ => Unavailable
  }

  function ServeEntry(anchor: Anchor, seen: seq<Store>, target: Name, id: IncidentId, e: Entry): Response
    requires |seen| == 5
  {
    match LoadPointer(anchor, id, e, seen[2], seen[3])
    case Found(p) =>
      if target == PointerCopy(id, e.version) then Ok(PointerDoc(p))
      else if target == PointerAtt(id, p.version) then
        if Present(seen[4], target) && PointerAttested(anchor, p, seen[4].blobs[target].payload)
        then Ok(seen[4].blobs[target].payload) else Unavailable
      else if target == State(id, p.version) then ServeDigest(seen[4], target, p.stateSha)
      else if target == StateAtt(id, p.version) then ServeDigest(seen[4], target, p.attestationSha)
      else NotFound
    case _ => Unavailable
  }

  /** The gateway's answer for the runtime manifest and the live assets it names. */
  function ServeLive(first: Store, second: Store, target: Name): Response {
    if !Present(first, RuntimeManifest) || !first.blobs[RuntimeManifest].payload.ManifestDoc? then Unavailable
    else
      var m := first.blobs[RuntimeManifest].payload.manifest;
      if target == RuntimeManifest then Ok(ManifestDoc(m))
      else if target.Live? && target.run == m.run && target.slot < |m.assets|
      then ServeDigest(second, target, m.assets[target.slot])
      else NotFound
  }

  // ---------------------------------------------------------------- what one consistent store says

  /** The answers read off a single store, with no checks: what a reader should return. */
  function CurrentStateAt(s: Store, id: IncidentId): Read<CurrentState> {
    var current := CurrentPointer(s, id);
    if current.None? then Absent
    else
      var p := current.value;
      var names := [State(id, p.version), StateAtt(id, p.version), PointerCopy(id, p.version), PointerAtt(id, p.version)];
      if (exists n <- names :: n !in s.blobs) || !s.blobs[names[0]].payload.StateDoc? then Rejected
      else Found(CurrentState(s.blobs[names[0]].payload.body, p,
             Some(Occurrence(PinnedAt(s, names[0]), PinnedAt(s, names[1]), PinnedAt(s, names[2]),
                             PinnedAt(s, names[3]), p.publishedAt))))
  }

  function Fetch(s: Store, n: Name): Response {
    if n in s.blobs then Ok(s.blobs[n].payload) else Unavailable
  }

  function IncidentAt(s: Store, target: Name): Response {
    var index := Snapshot(s);
    if index.None? then Unavailable
    else match target
      case ActiveIndex => Fetch(s, target)
      case IndexAtt(v) => if v == index.value.attestationVersion then Fetch(s, target) else NotFound
      case State(id, v) => InDirectory(s, index.value, target, id, v)
      case StateAtt(id, v) => InDirectory(s, index.value, target, id, v)
      case PointerCopy(id, v) => InDirectory(s, index.value, target, id, v)
      case PointerAtt(id, v) => InDirectory(s, index.value, target, id, v)
      case _ => NotFound
  }

  function InDirectory(s: Store, index: Index, target: Name, id: IncidentId, v: Digest): Response {
    if id in index.entries && index.entries[id].version == v then Fetch(s, target) else NotFound
  }

  function LiveAt(s: Store, target: Name): Response {
    if RuntimeManifest !in s.blobs || !s.blobs[RuntimeManifest].payload.ManifestDoc? then Unavailable
    else
      var m := s.blobs[RuntimeManifest].payload.manifest;
      if target == RuntimeManifest || (target.Live? && target.run == m.run && target.slot < |m.assets|)
      then Fetch(s, target) else NotFound
  }

  // ---------------------------------------------------------------- linearization

  /** The reads of one request, taken at later and later moments of one run. */
  ghost predicate Racing(anchor: Anchor, seen: seq<Store>, moments: seq<seq<Action>>) {
    && |seen| == |moments|
    && (forall i :: 0 <= i < |seen| ==> seen[i] == After(anchor, moments[i]).store)
    && (forall i, j :: 0 <= i < j < |moments| ==> moments[i] <= moments[j])
  }

  lemma {:induction false} ExecuteSplit(sys: Sys, early: seq<Action>, more: seq<Action>)
    ensures Execute(sys, early + more) == Execute(Execute(sys, early), more)
    decreases |early|
  {
    if early == [] {
      assert early + more == more;
    } else {
      assert (early + more)[1..] == early[1..] + more;
      ExecuteSplit(Step(sys, early[0]), early[1..], more);
    }
  }

  lemma LaterReadsGrow(anchor: Anchor, seen: seq<Store>, moments: seq<seq<Action>>, i: nat)
    requires Racing(anchor, seen, moments) && i < |seen|
    ensures Grows(seen[0], seen[i])
  {
    Reached(anchor, moments[0]);
    if i == 0 {
    } else {
      var more := moments[i][|moments[0]|..];
      assert moments[0] <= moments[i];
      assert moments[i] == moments[0] + more;
      ExecuteSplit(Init(anchor), moments[0], more);
      ExecutionKeepsInv(After(anchor, moments[0]), more);
    }
  }

  lemma GrownReads(anchor: Anchor, seen: seq<Store>, moments: seq<seq<Action>>)
    requires Racing(anchor, seen, moments) && |seen| > 0
    ensures forall i :: 0 <= i < |seen| ==> Grows(seen[0], seen[i])
    ensures Inv(After(anchor, moments[0])) && After(anchor, moments[0]).anchor == anchor
  {
    Reached(anchor, moments[0]);
    forall i | 0 <= i < |seen| ensures Grows(seen[0], seen[i]) { LaterReadsGrow(anchor, seen, moments, i); }
  }

  /** The four blobs of the directory of `p` are in `s`, and `t` still has the same ones. */
  ghost predicate Kept(s: Store, t: Store, p: Pointer) {
    forall n :: Directory(n) == Some(p.incident) && n in Versioned(p) ==>
      n in s.blobs && Present(t, n) && t.blobs[n] == s.blobs[n]
  }

  function Versioned(p: Pointer): set<Name> {
    {State(p.incident, p.version), StateAtt(p.incident, p.version),
     PointerCopy(p.incident, p.version), PointerAtt(p.incident, p.version)}
  }

  lemma StoredPointerIsKept(anchor: Anchor, s: Store, t: Store, p: Pointer)
    requires PointerStored(anchor, s, p) && Grows(s, t)
    ensures Kept(s, t, p)
  {
  }

  lemma KeptStateIsTrusted(anchor: Anchor, seen: seq<Store>, p: Pointer)
    requires |seen| == 5 && PointerStored(anchor, seen[0], p)
    requires Holds(seen[0], Asset(Current(p.incident), PointerDoc(p)))
    requires forall i :: 0 <= i < 5 ==> Kept(seen[0], seen[i], p)
    ensures ReadCurrentState(anchor, seen, p.incident) == CurrentStateAt(seen[0], p.incident)
    ensures ReadCurrentState(anchor, seen, p.incident).Found?
  {
    assert Kept(seen[0], seen[0], p) && Kept(seen[0], seen[1], p) && Kept(seen[0], seen[2], p)
        && Kept(seen[0], seen[3], p) && Kept(seen[0], seen[4], p);
  }

  /** Reading an incident's current state never rejects, whatever publishers do in the meantime, and
      returns exactly what the store said at the first read. */
  lemma CurrentStateLinearizes(anchor: Anchor, seen: seq<Store>, moments: seq<seq<Action>>, id: IncidentId)
    requires |seen| == 5 && Racing(anchor, seen, moments)
    ensures ReadCurrentState(anchor, seen, id) == CurrentStateAt(seen[0], id)
    ensures !ReadCurrentState(anchor, seen, id).Rejected?
  {
    GrownReads(anchor, seen, moments);
    var sys := After(anchor, moments[0]);
    if Current(id) in seen[0].blobs {
      CurrentIsLogged(sys, id);
      var p := CurrentPointer(seen[0], id).value;
      assert CurrentInv(seen[0], sys.pointers, id);
      forall i | 0 <= i < 5 ensures Kept(seen[0], seen[i], p) { StoredPointerIsKept(anchor, seen[0], seen[i], p); }
      KeptStateIsTrusted(anchor, seen, p);
    }
  }

  // ---- the index

  /** The publisher's own read of the index never rejects either. */
  lemma ActiveIndexLinearizes(anchor: Anchor, seen: seq<Store>, moments: seq<seq<Action>>)
    requires |seen| == 2 && Racing(anchor, seen, moments)
    ensures var index := Snapshot(seen[0]);
            ReadActiveIndex(anchor, seen[0], seen[1]) == if index.None? then Absent else Found(index.value)
  {
    GrownReads(anchor, seen, moments);
    if ActiveIndex in seen[0].blobs { IndexReads(After(anchor, moments[0]), seen[1]); }
  }

  lemma IndexReads(sys: Sys, later: Store)
    requires CommitsInv(sys) && ActiveIndex in sys.store.blobs && Grows(sys.store, later)
    ensures Present(sys.store, ActiveIndex) && Snapshot(sys.store).Some?
    ensures ReadActiveIndex(sys.anchor, sys.store, later) == Found(Snapshot(sys.store).value)
    ensures var att := IndexAtt(Snapshot(sys.store).value.attestationVersion);
            att in sys.store.blobs && Present(later, att) && later.blobs[att] == sys.store.blobs[att]
  {
    LastCommitIsGood(sys);
    GrowthKeepsIndex(sys.anchor, sys.store, later, Snapshot(sys.store).value);
    assert IndexStored(sys.anchor, later, Snapshot(sys.store).value);
  }

  lemma DirectoryAt(s: Store, target: Name, p: Pointer)
    requires Snapshot(s).Some? && Directory(target) == Some(p.incident) && p.incident in Snapshot(s).value.entries
    requires Snapshot(s).value.entries[p.incident].version == p.version
    ensures IncidentAt(s, target) == if target in Versioned(p) then Fetch(s, target) else NotFound
  {
  }

  lemma EntryReads(sys: Sys, seen: seq<Store>, target: Name, id: IncidentId)
    requires PointersInv(sys) && CommitsInv(sys) && |seen| == 5 && seen[0] == sys.store
    requires forall i :: 0 <= i < 5 ==> Grows(seen[0], seen[i])
    requires Snapshot(sys.store).Some? && id in Snapshot(sys.store).value.entries && Directory(target) == Some(id)
    ensures var index := Snapshot(sys.store).value;
            ServeEntry(sys.anchor, seen, target, id, index.entries[id]) == IncidentAt(sys.store, target)
    ensures !IncidentAt(sys.store, target).Unavailable?
  {
    var p := EntryIsLogged(sys, id);
    assert PointerStored(sys.anchor, sys.store, p);
    StoredPointerIsKept(sys.anchor, seen[0], seen[2], p);
    StoredPointerIsKept(sys.anchor, seen[0], seen[3], p);
    StoredPointerIsKept(sys.anchor, seen[0], seen[4], p);
    KeptEntryIsServed(sys.anchor, seen, target, p, Snapshot(sys.store).value.entries[id]);
    DirectoryAt(sys.store, target, p);
  }

  lemma KeptEntryIsServed(anchor: Anchor, seen: seq<Store>, target: Name, p: Pointer, e: Entry)
    requires |seen| == 5 && PointerStored(anchor, seen[0], p) && Directory(target) == Some(p.incident)
    requires e.version == p.version && e.pointerSha == Sha(PointerDoc(p))
    requires Kept(seen[0], seen[2], p) && Kept(seen[0], seen[3], p) && Kept(seen[0], seen[4], p)
    ensures ServeEntry(anchor, seen, target, p.incident, e)
              == (if target in Versioned(p) then Fetch(seen[0], target) else NotFound)
    ensures target in Versioned(p) ==> target in seen[0].blobs
  {
  }

  lemma IndexAnswers(anchor: Anchor, seen: seq<Store>, target: Name, index: Index)
    requires |seen| == 5 && Present(seen[0], ActiveIndex) && seen[0].blobs[ActiveIndex].payload == IndexDoc(index)
    requires ReadActiveIndex(anchor, seen[0], seen[1]) == Found(index)
    requires ReadActiveIndex(anchor, seen[0], seen[2]) == Found(index)
    requires var att := IndexAtt(index.attestationVersion);
             && att in seen[0].blobs && Present(seen[1], att) && Present(seen[2], att)
             && seen[2].blobs[att] == seen[0].blobs[att]
    requires Directory(target).Some? && Directory(target).value in index.entries ==>
               var id := Directory(target).value;
               ServeEntry(anchor, seen, target, id, index.entries[id]) == IncidentAt(seen[0], target)
               && !IncidentAt(seen[0], target).Unavailable?
    ensures ServeIncident(anchor, seen, target) == IncidentAt(seen[0], target)
    ensures !ServeIncident(anchor, seen, target).Unavailable?
  {
  }

  /** Every request under /incidents/ is answered as if all its reads had happened at the moment of
      the first one, and never with "unavailable" once an index has been published. */
  lemma IncidentRequestsLinearize(anchor: Anchor, seen: seq<Store>, moments: seq<seq<Action>>, target: Name)
    requires |seen| == 5 && Racing(anchor, seen, moments)
    ensures ServeIncident(anchor, seen, target) == IncidentAt(seen[0], target)
    ensures ActiveIndex in seen[0].blobs ==> !ServeIncident(anchor, seen, target).Unavailable?
  {
    GrownReads(anchor, seen, moments);
    var sys := After(anchor, moments[0]);
    if ActiveIndex in seen[0].blobs {
      IndexReads(sys, seen[1]);
      IndexReads(sys, seen[2]);
      var index := Snapshot(sys.store).value;
      if Directory(target).Some? && Directory(target).value in index.entries {
        EntryReads(sys, seen, target, Directory(target).value);
      }
      IndexAnswers(anchor, seen, target, index);
    }
  }

  /** So is every request for the runtime manifest and the live assets. */
  lemma LiveRequestsLinearize(anchor: Anchor, seen: seq<Store>, moments: seq<seq<Action>>, target: Name)
    requires |seen| == 2 && Racing(anchor, seen, moments)
    ensures ServeLive(seen[0], seen[1], target) == LiveAt(seen[0], target)
    ensures RuntimeManifest in seen[0].blobs ==> !ServeLive(seen[0], seen[1], target).Unavailable?
  {
    GrownReads(anchor, seen, moments);
    if RuntimeManifest in seen[0].blobs {
      var m := seen[0].blobs[RuntimeManifest].payload.manifest;
      if target.Live? && target.run == m.run && target.slot < |m.assets| {
        assert LiveStored(seen[0], m, target.slot);
      }
    }
  }
}
