/** A request that was just built from what is stored goes through: whatever happened before, a calm
    heartbeat always succeeds, and a calm publication exactly if its pointer is news. */
module PublicationProgress {

  import opened Options
  import opened IncidentDocuments
  import opened Publication
  import opened PublicationRetry
  import opened PublicationSystem
  import opened PublicationTheorems
  import opened PublicationSuccess

  /** The name of a state, of its attestation and of an index attestation says what is stored there. */
  ghost predicate Named(anchor: Anchor, n: Name, b: Blob) {
    match n
    case State(_, v) => v.Sha? && v.preimage.StatePreimage? && Genuine(b, SignedState(v.preimage.body))
    case StateAtt(_, v) => v.Sha? && v.preimage.StatePreimage? && Genuine(b, StateAttestationOf(anchor, v.preimage.body))
    case IndexAtt(v) =>
      && v.Sha? && v.preimage.IndexSeed?
      && Genuine(b, IndexAttestationOf(anchor, Index(v.preimage.entries, v, v.preimage.trust, v.preimage.publishedAt)))
    case _ => true
  }

  ghost predicate AllNamed(anchor: Anchor, s: Store) { forall n :: n in s.blobs ==> Named(anchor, n, s.blobs[n]) }

  /** One call writes at most one blob: an asset of the request, or a mutable one. */
  lemma AdvanceWrites(anchor: Anchor, p: Proc, s: Store, f: Fault)
    requires WellPlaced(p)
    ensures var t := Advance(anchor, p, s, f).1;
            t == s || exists a: Asset :: t == Write(s, a) && (a in Assets(p.request) || Mutable(a.name))
  {
    var t := Advance(anchor, p, s, f).1;
    if t != s {
      match p.pc
      case Uploading(i) => assert t == Write(s, Assets(p.request)[i]);
      case WritingPointer(_) => assert t == Write(s, PointerAsset(p.request));
      case WritingIndex(_) => assert t == Write(s, IndexAsset(p.request));
      case WritingManifest => assert t == Write(s, ManifestAsset(p.request));
      case _ =>
    }
  }

  lemma BuiltIndexIsGood(anchor: Anchor, c: Change, basis: Option<Index>)
    requires basis.Some? ==> GoodIndex(anchor, basis.value)
    ensures var ix := NextIndex(anchor, c, basis);
            ix.attestationVersion == Sha(IndexSeed(ix.entries, ix.trust, ix.publishedAt)) && ix.trust == anchor.trust
  {
  }

  lemma IndexAssetIsNamed(anchor: Anchor, ix: Index, b: Blob)
    requires ix.attestationVersion == Sha(IndexSeed(ix.entries, ix.trust, ix.publishedAt))
    ensures Named(anchor, IndexAtt(ix.attestationVersion), b) <==> Genuine(b, IndexAttestationOf(anchor, ix))
  {
    var v := ix.attestationVersion;
    assert Index(v.preimage.entries, v, v.preimage.trust, v.preimage.publishedAt) == ix;
  }

  function Uploaded(a: Asset, stamp: nat): Blob { Blob(a.payload, Some(Sha(a.payload)), true, stamp) }

  lemma IndexUploadIsNamed(anchor: Anchor, c: Change, basis: Option<Index>, r: Request, stamp: nat)
    requires (basis.Some? ==> GoodIndex(anchor, basis.value)) && Build(anchor, c, basis) == Some(r)
    ensures var a := Asset(IndexAtt(r.index.attestationVersion), r.indexAtt); Named(anchor, a.name, Uploaded(a, stamp))
  {
    BuiltIndexIsGood(anchor, c, basis);
    var a := Asset(IndexAtt(r.index.attestationVersion), r.indexAtt);
    IndexAssetIsNamed(anchor, r.index, Uploaded(a, stamp));
  }

  lemma StateUploadsAreNamed(anchor: Anchor, body: StateBody, stamp: nat)
    ensures var v := Sha(Preimage(body));
            && Named(anchor, State(body.incident, v), Uploaded(Asset(State(body.incident, v), SignedState(body)), stamp))
            && Named(anchor, StateAtt(body.incident, v),
                     Uploaded(Asset(StateAtt(body.incident, v), StateAttestationOf(anchor, body)), stamp))
  {
  }

  lemma PublicationAssets(anchor: Anchor, body: StateBody, at: Millis, basis: Option<Index>, r: Request, a: Asset)
    requires Build(anchor, Publish(body, at), basis) == Some(r) && a in Assets(r)
    ensures var v := Sha(Preimage(body));
            || a == Asset(State(body.incident, v), SignedState(body))
            || a == Asset(StateAtt(body.incident, v), StateAttestationOf(anchor, body))
            || a.name.PointerCopy? || a.name.PointerAtt?
            || a == Asset(IndexAtt(r.index.attestationVersion), r.indexAtt)
  {
  }

  lemma BuiltAssetIsNamed(anchor: Anchor, c: Change, basis: Option<Index>, r: Request, a: Asset, stamp: nat)
    requires (basis.Some? ==> GoodIndex(anchor, basis.value)) && Build(anchor, c, basis) == Some(r) && a in Assets(r)
    ensures Named(anchor, a.name, Uploaded(a, stamp))
  {
    IndexUploadIsNamed(anchor, c, basis, r, stamp);
    match c
    case Beat(_) =>
    case Publish(body, at) =>
      PublicationAssets(anchor, body, at, basis, r, a);
      StateUploadsAreNamed(anchor, body, stamp);
  }

  lemma WritingKeepsNamed(anchor: Anchor, s: Store, a: Asset)
    requires AllNamed(anchor, s) && Named(anchor, a.name, Uploaded(a, s.clock))
    ensures AllNamed(anchor, Write(s, a))
  {
  }

  lemma BasisIsGood(sys: Sys, w: Work)
    requires Inv(sys) && WorkInv(sys, w) && w.IndexWork? && w.basis.Some?
    ensures GoodIndex(sys.anchor, w.basis.value)
  {
    var c :| c in sys.commits && c.index == w.basis.value;
    var k :| 0 <= k < |sys.commits| && sys.commits[k] == c;
    assert CommitInv(sys.anchor, sys.store, sys.pointers, sys.commits, k);
  }

  lemma WorkAssetIsNamed(sys: Sys, w: Work, a: Asset, stamp: nat)
    requires Inv(sys) && WorkInv(sys, w) && (a in Assets(w.proc.request) || Mutable(a.name))
    ensures Named(sys.anchor, a.name, Uploaded(a, stamp))
  {
    if a in Assets(w.proc.request) && w.IndexWork? {
      if w.basis.Some? { BasisIsGood(sys, w); }
      BuiltAssetIsNamed(sys.anchor, w.change, w.basis, w.proc.request, a, stamp);
    }
  }

  lemma CallKeepsNamed(sys: Sys, w: Work, f: Fault)
    requires Inv(sys) && AllNamed(sys.anchor, sys.store) && WorkInv(sys, w) && WellPlaced(w.proc)
    ensures AllNamed(sys.anchor, Advance(sys.anchor, w.proc, sys.store, f).1)
  {
    var s, t := sys.store, Advance(sys.anchor, w.proc, sys.store, f).1;
    AdvanceWrites(sys.anchor, w.proc, s, f);
    if t != s {
      var a: Asset :| t == Write(s, a) && (a in Assets(w.proc.request) || Mutable(a.name));
      WorkAssetIsNamed(sys, w, a, s.clock);
      WritingKeepsNamed(sys.anchor, s, a);
    }
  }

  lemma {:induction false} ReachedNamed(anchor: Anchor, actions: seq<Action>)
    ensures AllNamed(anchor, After(anchor, actions).store)
    decreases |actions|
  {
    if actions != [] {
      var front, last := actions[..|actions| - 1], actions[|actions| - 1];
      assert actions == front + [last];
      ReachedNamed(anchor, front);
      Reached(anchor, front);
      ExecuteOneMore(Init(anchor), front, last);
      var sys := After(anchor, front);
      if last.Call? && last.pid in sys.works { CallKeepsNamed(sys, sys.works[last.pid], last.fault); }
    }
  }

  // ---------------------------------------------------------------- what gives way

  lemma SnapshotIsGood(anchor: Anchor, actions: seq<Action>)
    ensures var s := After(anchor, actions).store;
            Snapshot(s).Some? ==> GoodIndex(anchor, Snapshot(s).value) && s.blobs[ActiveIndex].payload == IndexDoc(Snapshot(s).value)
    ensures ActiveIndex in After(anchor, actions).store.blobs <==> Snapshot(After(anchor, actions).store).Some?
  {
    var sys := After(anchor, actions);
    Reached(anchor, actions);
    if ActiveIndex in sys.store.blobs { LastCommitIsGood(sys); }
  }

  /** The stored index gives way to what was built from it. */
  lemma SnapshotGivesWay(anchor: Anchor, actions: seq<Action>, c: Change, r: Request)
    requires Build(anchor, c, Snapshot(After(anchor, actions).store)) == Some(r)
    ensures IndexGivesWay(anchor, After(anchor, actions).store, r.index, r.previous)
  {
    var basis := Snapshot(After(anchor, actions).store);
    SnapshotIsGood(anchor, actions);
    if basis.Some? { NextIndexIsNewer(anchor, c, basis); }
  }

  lemma IndexAssetIsPlaceable(anchor: Anchor, actions: seq<Action>, c: Change, r: Request)
    requires Build(anchor, c, Snapshot(After(anchor, actions).store)) == Some(r)
    ensures Placeable(After(anchor, actions).store, Asset(IndexAtt(r.index.attestationVersion), r.indexAtt))
  {
    var s := After(anchor, actions).store;
    var n := IndexAtt(r.index.attestationVersion);
    SnapshotIsGood(anchor, actions);
    BuiltIndexIsGood(anchor, c, Snapshot(s));
    ReachedNamed(anchor, actions);
    if n in s.blobs { IndexAssetIsNamed(anchor, r.index, s.blobs[n]); }
  }

  /** In every reachable state a heartbeat that is built there succeeds in calm weather. */
  lemma HeartbeatSucceeds(anchor: Anchor, actions: seq<Action>, at: Millis, r: Request)
    requires Build(anchor, Beat(at), Snapshot(After(anchor, actions).store)) == Some(r)
    ensures Undisturbed(anchor, r, After(anchor, actions).store).0.pc.Finished?
  {
    var s := After(anchor, actions).store;
    IndexAssetIsPlaceable(anchor, actions, Beat(at), r);
    SnapshotGivesWay(anchor, actions, Beat(at), r);
    SucceedsExactly(anchor, r, s);
  }

  /** The pointer is news: no other one was written into the directory of this state, and the incident has
      none that is as new. */
  ghost predicate IsNews(anchor: Anchor, s: Store, p: Pointer) {
    && Placeable(s, Asset(PointerCopy(p.incident, p.version), PointerDoc(p)))
    && Placeable(s, Asset(PointerAtt(p.incident, p.version), PointerAttestationOf(anchor, p)))
    && (CurrentPointer(s, p.incident).Some? ==>
          var current := CurrentPointer(s, p.incident).value; current == p || current.publishedAt < p.publishedAt)
  }

  lemma CurrentGivesWay(anchor: Anchor, actions: seq<Action>, p: Pointer)
    ensures var s := After(anchor, actions).store;
            PointerGivesWay(anchor, s, p)
            <==> (CurrentPointer(s, p.incident).Some? ==>
                    var current := CurrentPointer(s, p.incident).value; current == p || current.publishedAt < p.publishedAt)
  {
    var sys := After(anchor, actions);
    Reached(anchor, actions);
    if Current(p.incident) in sys.store.blobs { CurrentPointerIsGenuine(sys, p.incident); }
  }

  lemma CurrentPointerIsGenuine(sys: Sys, id: IncidentId)
    requires Inv(sys) && Current(id) in sys.store.blobs
    ensures CurrentPointer(sys.store, id).Some?
    ensures var b, current := sys.store.blobs[Current(id)], CurrentPointer(sys.store, id).value;
            Genuine(b, PointerDoc(current)) && current.incident == id && current.trust == sys.anchor.trust
  {
    CurrentIsLogged(sys, id);
    assert CurrentInv(sys.store, sys.pointers, id);
    assert PointerStored(sys.anchor, sys.store, CurrentPointer(sys.store, id).value);
  }

  lemma StateAssetsArePlaceable(anchor: Anchor, actions: seq<Action>, body: StateBody)
    ensures var s, v := After(anchor, actions).store, Sha(Preimage(body));
            && Placeable(s, Asset(State(body.incident, v), SignedState(body)))
            && Placeable(s, Asset(StateAtt(body.incident, v), StateAttestationOf(anchor, body)))
  {
    ReachedNamed(anchor, actions);
  }

  lemma FiveAssets(s: Store, r: Request)
    requires r.IncidentRequest?
    ensures AllPlaceable(s, r)
       <==> && Placeable(s, Assets(r)[0]) && Placeable(s, Assets(r)[1]) && Placeable(s, Assets(r)[2])
            && Placeable(s, Assets(r)[3]) && Placeable(s, Assets(r)[4])
  {
  }

  /** In every reachable state a publication that is built there succeeds in calm weather exactly if its
      pointer is news. */
  lemma PublicationSucceeds(anchor: Anchor, actions: seq<Action>, body: StateBody, at: Millis, r: Request)
    requires Build(anchor, Publish(body, at), Snapshot(After(anchor, actions).store)) == Some(r)
    ensures var s := After(anchor, actions).store;
            Undisturbed(anchor, r, s).0.pc.Finished? <==> IsNews(anchor, s, r.pointer)
  {
    var s := After(anchor, actions).store;
    IndexAssetIsPlaceable(anchor, actions, Publish(body, at), r);
    SnapshotGivesWay(anchor, actions, Publish(body, at), r);
    StateAssetsArePlaceable(anchor, actions, body);
    CurrentGivesWay(anchor, actions, r.pointer);
    FiveAssets(s, r);
    SucceedsExactly(anchor, r, s);
  }
}
