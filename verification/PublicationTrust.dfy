/** What is accepted of storage that anyone may have written: the checks of a request before it is
    published, and those of the readers, on stores that need not come from any publisher. */
module PublicationTrust {
  import opened Options
  import opened IncidentDocuments
  import opened Publication
  import opened PublicationReaders

  // ---------------------------------------------------------------- requests

  /** Everything about the state `body`, with whatever signatures; the index lists the incident exactly
      while it is active. */
  predicate Consistent(anchor: Anchor, r: Request, body: StateBody)
    requires r.IncidentRequest?
  {
    && r.state == SignedState(body)
    && r.stateAtt.StateAttestation?
    && r.stateAtt == StateAttestation(Sha(Preimage(body)), anchor.vaultKey, r.stateAtt.signature)
    && r.pointer == Pointer(body.incident, Sha(Preimage(body)), Sha(r.state), Sha(r.stateAtt), anchor.trust, r.pointer.publishedAt)
    && body.updatedAt <= r.pointer.publishedAt
    && r.pointerAtt.PointerAttestation?
    && r.pointerAtt == PointerAttestation(Sha(PointerDoc(r.pointer)), anchor.vaultKey, r.pointerAtt.signature)
    && ConsistentIndex(anchor, r.index, r.indexAtt)
    && (body.incident in r.index.entries <==> body.lifecycle == Active)
    && (body.incident in r.index.entries ==> EntryFits(r.index.entries[body.incident], body, r.pointer))
  }

  predicate ConsistentIndex(anchor: Anchor, index: Index, indexAtt: Payload) {
    && index.trust == anchor.trust && indexAtt.IndexAttestation?
    && indexAtt == IndexAttestation(Sha(IndexDoc(index)), anchor.vaultKey, indexAtt.signature)
  }

  predicate EntryFits(e: Entry, body: StateBody, p: Pointer) {
    && e.scenario == body.scenario && e.role == body.role && e.version == p.version && e.pointerSha == Sha(PointerDoc(p))
    && e.detectedAt == body.detectedAt && e.updatedAt == body.updatedAt
  }

  /** A request is let through to storage exactly when all of its parts are about one state of one incident. */
  lemma AcceptedExactly(anchor: Anchor, r: Request)
    ensures AcceptedRequest(anchor, r)
       <==> match r
            case IncidentRequest(_, _, _, _, _, _, _) => exists body :: Consistent(anchor, r, body)
            case HeartbeatRequest(index, indexAtt, _) => ConsistentIndex(anchor, index, indexAtt)
            case LiveRequest(_, live, _) => |live| == 6
  {
    if r.IncidentRequest? && AcceptedRequest(anchor, r) { assert Consistent(anchor, r, r.state.body); }
  }

  /** A change of an index that is not overfull can only fail by making a sixty-fifth incident active. */
  lemma OnlyASixtyFifthFails(anchor: Anchor, c: Change, basis: Option<Index>)
    requires |EntriesOf(basis)| <= 64
    ensures Build(anchor, c, basis).None?
       <==> && c.Publish? && c.body.lifecycle == Active && |EntriesOf(basis)| == 64
            && c.body.incident !in EntriesOf(basis)
  {
    var entries := EntriesOf(basis);
    if c.Publish? {
      var next := NextEntries(anchor, c, basis);
      if c.body.lifecycle == Active {
        assert next.Keys == entries.Keys + {c.body.incident};
      } else {
        assert next.Keys == entries.Keys - {c.body.incident};
        assert next.Keys <= entries.Keys;
        assert |next.Keys| <= |entries.Keys| by { FewerKeys(next.Keys, entries.Keys); }
      }
    }
  }

  lemma {:induction false} FewerKeys(a: set<IncidentId>, b: set<IncidentId>)
    requires a <= b
    ensures |a| <= |b|
  {
    if a != {} {
      var x :| x in a;
      FewerKeys(a - {x}, b - {x});
    }
  }

  // ---------------------------------------------------------------- readers

  /** The store holds this payload, as JSON and with its digest beside it. */
  predicate StoresAs(s: Store, n: Name, payload: Payload) {
    n in s.blobs && s.blobs[n].payload == payload && s.blobs[n].json && s.blobs[n].metadata == Some(Sha(payload))
  }

  /** The five blobs are what a publisher with this key would have written of the state `body`. */
  predicate Published(anchor: Anchor, seen: seq<Store>, id: IncidentId, body: StateBody, p: Pointer)
    requires |seen| == 5
  {
    && body.incident == id
    && p == Pointer(id, Sha(Preimage(body)), Sha(SignedState(body)), Sha(StateAttestationOf(anchor, body)), anchor.trust, p.publishedAt)
    && StoresAs(seen[0], Current(id), PointerDoc(p))
    && StoresAs(seen[1], PointerCopy(id, p.version), PointerDoc(p))
    && StoresAs(seen[2], PointerAtt(id, p.version), PointerAttestationOf(anchor, p))
    && StoresAs(seen[3], State(id, p.version), SignedState(body))
    && StoresAs(seen[4], StateAtt(id, p.version), StateAttestationOf(anchor, body))
  }

  /** The references of a receipt name the very versions that were read. */
  predicate Receipted(seen: seq<Store>, id: IncidentId, p: Pointer, o: Occurrence)
    requires |seen| == 5
  {
    && StampedAs(seen[1], PointerCopy(id, p.version), o.pointer) && StampedAs(seen[2], PointerAtt(id, p.version), o.pointerAtt)
    && StampedAs(seen[3], State(id, p.version), o.state) && StampedAs(seen[4], StateAtt(id, p.version), o.stateAtt)
    && o.publishedAt == p.publishedAt
  }

  predicate StampedAs(s: Store, n: Name, ref: PinnedRef) {
    n in s.blobs && ref.name == n && ref.version == s.blobs[n].stamp && ref.digest == Sha(s.blobs[n].payload)
  }

  /** Whatever is in storage, a current state is returned exactly when it is what this deployment publishes,
      and with a receipt unless it claims to be older than the state; it is absent exactly when no pointer is
      there. */
  lemma CurrentExactly(anchor: Anchor, seen: seq<Store>, id: IncidentId, c: CurrentState)
    requires |seen| == 5
    ensures ReadCurrentState(anchor, seen, id) == Found(c)
       <==> && Published(anchor, seen, id, c.body, c.pointer)
            && (c.occurrence.None? <==> c.pointer.publishedAt < c.body.updatedAt)
            && (c.occurrence.Some? ==> Receipted(seen, id, c.pointer, c.occurrence.value))
    ensures ReadCurrentState(anchor, seen, id) == Absent <==> Current(id) !in seen[0].blobs
  {
    if ReadCurrentState(anchor, seen, id).Found? {
      FoundIsPublished(anchor, seen, id, ReadCurrentState(anchor, seen, id).value);
    }
    if Published(anchor, seen, id, c.body, c.pointer) { PublishedIsFound(anchor, seen, id, c.body, c.pointer); }
    if c.occurrence.Some? {
      var o := c.occurrence.value;
      assert o == Occurrence(o.state, o.stateAtt, o.pointer, o.pointerAtt, o.publishedAt);
    }
  }

  lemma FoundIsPublished(anchor: Anchor, seen: seq<Store>, id: IncidentId, c: CurrentState)
    requires |seen| == 5 && ReadCurrentState(anchor, seen, id) == Found(c)
    ensures Published(anchor, seen, id, c.body, c.pointer)
    ensures c.occurrence == OccurrenceOf(seen, id, c.body, c.pointer)
  {
  }

  function OccurrenceOf(seen: seq<Store>, id: IncidentId, body: StateBody, p: Pointer): Option<Occurrence>
    requires |seen| == 5 && State(id, p.version) in seen[3].blobs && StateAtt(id, p.version) in seen[4].blobs
    requires PointerCopy(id, p.version) in seen[1].blobs && PointerAtt(id, p.version) in seen[2].blobs
  {
    if p.publishedAt < body.updatedAt then None
    else Some(Occurrence(PinnedAt(seen[3], State(id, p.version)), PinnedAt(seen[4], StateAtt(id, p.version)),
                         PinnedAt(seen[1], PointerCopy(id, p.version)), PinnedAt(seen[2], PointerAtt(id, p.version)),
                         p.publishedAt))
  }

  lemma PublishedIsFound(anchor: Anchor, seen: seq<Store>, id: IncidentId, body: StateBody, p: Pointer)
    requires |seen| == 5 && Published(anchor, seen, id, body, p)
    ensures ReadCurrentState(anchor, seen, id) == Found(CurrentState(body, p, OccurrenceOf(seen, id, body, p)))
  {
  }

  /** The active index is returned exactly when its attestation is what this deployment publishes of it. */
  lemma ActiveExactly(anchor: Anchor, first: Store, second: Store, index: Index)
    ensures ReadActiveIndex(anchor, first, second) == Found(index)
       <==> && ActiveIndex in first.blobs && first.blobs[ActiveIndex].payload == IndexDoc(index)
            && index.trust == anchor.trust && IndexAtt(index.attestationVersion) in second.blobs
            && second.blobs[IndexAtt(index.attestationVersion)].payload == IndexAttestationOf(anchor, index)
    ensures ReadActiveIndex(anchor, first, second) == Absent <==> ActiveIndex !in first.blobs
  {
  }

  // ---------------------------------------------------------------- the gateway

  /** The pointer that the signed index vouches for. */
  predicate Vouched(anchor: Anchor, index: Index, id: IncidentId, p: Pointer) {
    && id in index.entries && index.entries[id].pointerSha == Sha(PointerDoc(p)) && index.entries[id].version == p.version
    && p.incident == id && p.trust == anchor.trust
  }

  /** What a path under an incident may be answered with: a document whose digest the signed index or the
      pointer it vouches for names, or a signature of this deployment over one. */
  predicate Answers(anchor: Anchor, p: Pointer, target: Name, x: Payload) {
    match target
    case PointerCopy(_, v) => v == p.version && x == PointerDoc(p)
    case PointerAtt(_, v) => v == p.version && x == PointerAttestationOf(anchor, p)
    case State(_, v) => v == p.version && Sha(x) == p.stateSha
    case StateAtt(_, v) => v == p.version && Sha(x) == p.attestationSha
    case _ => false
  }

  predicate AnswersWith(anchor: Anchor, index: Index, target: Name, x: Payload, p: Pointer) {
    || (target == ActiveIndex && x == IndexDoc(index))
    || (target == IndexAtt(index.attestationVersion) && x == IndexAttestationOf(anchor, index))
    || (Directory(target).Some? && Vouched(anchor, index, Directory(target).value, p) && Answers(anchor, p, target, x))
  }

  /** Whatever is in storage, nothing is served under /incidents/ that a signed index does not vouch for. */
  lemma ServedIsVouched(anchor: Anchor, seen: seq<Store>, target: Name)
    requires |seen| == 5 && ServeIncident(anchor, seen, target).Ok?
    ensures exists index, p :: ReadActiveIndex(anchor, seen[0], seen[1]) == Found(index)
                               && AnswersWith(anchor, index, target, ServeIncident(anchor, seen, target).payload, p)
  {
    var index, x := ReadActiveIndex(anchor, seen[0], seen[1]).value, ServeIncident(anchor, seen, target).payload;
    var some := Pointer(0, Unrelated(0), Unrelated(0), Unrelated(0), anchor.trust, 0);
    if target == ActiveIndex {
      assert AnswersWith(anchor, index, target, x, some);
    } else if target == IndexAtt(index.attestationVersion) {
      ActiveExactly(anchor, seen[0], seen[2], index);
      assert AnswersWith(anchor, index, target, x, some);
    } else {
      var id := Directory(target).value;
      var p := LoadPointer(anchor, id, index.entries[id], seen[2], seen[3]).value;
      EntryIsVouched(anchor, seen, target, id, index, p);
      assert AnswersWith(anchor, index, target, x, p);
    }
  }

  lemma EntryIsVouched(anchor: Anchor, seen: seq<Store>, target: Name, id: IncidentId, index: Index, p: Pointer)
    requires |seen| == 5 && id in index.entries && Directory(target) == Some(id)
    requires LoadPointer(anchor, id, index.entries[id], seen[2], seen[3]) == Found(p)
    requires ServeEntry(anchor, seen, target, id, index.entries[id]).Ok?
    ensures Vouched(anchor, index, id, p)
    ensures Answers(anchor, p, target, ServeEntry(anchor, seen, target, id, index.entries[id]).payload)
  {
  }

  /** And of the live assets nothing but the manifest and what it names, slot by slot. */
  lemma LiveIsNamed(first: Store, second: Store, target: Name, x: Payload)
    ensures ServeLive(first, second, target) == Ok(x)
       <==> && Present(first, RuntimeManifest) && first.blobs[RuntimeManifest].payload.ManifestDoc?
            && var m := first.blobs[RuntimeManifest].payload.manifest;
               || (target == RuntimeManifest && x == ManifestDoc(m))
               || (&& target.Live? && target.run == m.run && target.slot < |m.assets|
                   && StoresAs(second, target, x) && Sha(x) == m.assets[target.slot])
  {
  }
}
