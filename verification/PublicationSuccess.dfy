/** Exactly when a publication succeeds with nobody else writing and no call failing, told of the store it
    finds. */
module PublicationSuccess {

  import opened Options
  import opened IncidentDocuments
  import opened Publication
  import opened PublicationRetry

  // ---------------------------------------------------------------- what the store must allow

  /** The stored copy is the one this deployment uploads. */
  ghost predicate Genuine(b: Blob, payload: Payload) { b.payload == payload && b.json && b.metadata == Some(Sha(payload)) }

  /** The name is free, or holds this very asset. */
  ghost predicate Placeable(s: Store, a: Asset) { a.name in s.blobs ==> Genuine(s.blobs[a.name], a.payload) }

  ghost predicate AllPlaceable(s: Store, r: Request) { PlaceableFrom(s, Assets(r), 0) }

  /** There is no pointer of the incident yet, or it is this one, or one of the same incident and deployment
      that is strictly older. */
  ghost predicate PointerGivesWay(anchor: Anchor, s: Store, own: Pointer) {
    Current(own.incident) in s.blobs ==>
      var b := s.blobs[Current(own.incident)];
      && Genuine(b, b.payload)
      && (b.payload == PointerDoc(own)
          || (&& b.payload.PointerDoc? && b.payload.pointer.incident == own.incident
              && b.payload.pointer.trust == anchor.trust && b.payload.pointer.publishedAt < own.publishedAt))
  }

  /** There is no index and none is expected, or it is this one, or the expected one, of the same deployment
      and strictly older. */
  ghost predicate IndexGivesWay(anchor: Anchor, s: Store, own: Index, previous: Option<Digest>) {
    if ActiveIndex !in s.blobs then previous == None
    else
      var payload := s.blobs[ActiveIndex].payload;
      || payload == IndexDoc(own)
      || (&& previous == Some(Sha(payload)) && payload.IndexDoc?
          && payload.index.trust == anchor.trust && payload.index.publishedAt < own.publishedAt)
  }

  ghost predicate Allows(anchor: Anchor, s: Store, r: Request) {
    && AllPlaceable(s, r)
    && (r.IncidentRequest? ==> PointerGivesWay(anchor, s, r.pointer))
    && (!r.LiveRequest? ==> IndexGivesWay(anchor, s, r.index, r.previous))
  }

  /** The names a request writes. */
  ghost predicate Writes(r: Request, n: Name) {
    || (exists a :: a in Assets(r) && a.name == n)
    || (r.IncidentRequest? && n == Current(r.pointer.incident))
    || (!r.LiveRequest? && n == ActiveIndex)
    || (r.LiveRequest? && n == RuntimeManifest)
  }

  ghost predicate SameElsewhere(s: Store, t: Store, r: Request) {
    forall n: Name :: !Writes(r, n) ==> (n in s.blobs <==> n in t.blobs) && (n in s.blobs ==> s.blobs[n] == t.blobs[n])
  }

  // ---------------------------------------------------------------- the uploads

  ghost predicate PlaceableFrom(s: Store, assets: seq<Asset>, n: nat) {
    forall j :: n <= j < |assets| ==> Placeable(s, assets[j])
  }

  ghost predicate Among(assets: seq<Asset>, m: Name) { exists j :: 0 <= j < |assets| && assets[j].name == m }

  ghost predicate SameBeside(s: Store, t: Store, assets: seq<Asset>) {
    forall m: Name :: !Among(assets, m) ==> (m in s.blobs <==> m in t.blobs) && (m in s.blobs ==> s.blobs[m] == t.blobs[m])
  }

  ghost predicate Apart(assets: seq<Asset>) { forall i, j :: 0 <= i < j < |assets| ==> assets[i].name != assets[j].name }

  lemma WritingKeepsPlaceable(s: Store, assets: seq<Asset>, n: nat, t: Store)
    requires n < |assets| && Apart(assets) && t == Write(s, assets[n])
    ensures PlaceableFrom(t, assets, n + 1) <==> PlaceableFrom(s, assets, n + 1)
  {
    forall j | n < j < |assets| ensures Placeable(t, assets[j]) <==> Placeable(s, assets[j]) {
      assert assets[j].name != assets[n].name;
    }
  }

  lemma WritingKeepsBeside(s: Store, assets: seq<Asset>, n: nat, t: Store)
    requires n < |assets| && t == Write(s, assets[n])
    ensures SameBeside(s, t, assets)
  {
    assert Among(assets, assets[n].name);
  }

  lemma StuckUpload(anchor: Anchor, r: Request, s: Store, n: nat)
    requires n < |Assets(r)| && InPlace(s, r, n) && !Placeable(s, Assets(r)[n])
    ensures Calm(anchor, AtAsset(s, r, n), s) == (Stop(AtAsset(s, r, n), Conflict), s)
  {
    var p := AtAsset(s, r, n);
    var q := p.(pc := Recovering(n));
    CalmStep(anchor, p, s);
    assert Advance(anchor, p, s, Smooth) == (q, s);
    CalmStep(anchor, q, s);
    assert Advance(anchor, q, s, Smooth) == (Stop(p, Conflict), s);
  }

  /** One upload under a placeable name: afterwards the asset is in place. */
  lemma UploadPlaces(anchor: Anchor, r: Request, s: Store, n: nat, assets: seq<Asset>) returns (t: Store)
    requires assets == Assets(r) && n < |assets| && InPlace(s, r, n) && Placeable(s, assets[n])
    ensures InPlace(t, r, n + 1) && SameBeside(s, t, assets)
    ensures Calm(anchor, AtAsset(s, r, n), s) == Calm(anchor, AtAsset(t, r, n + 1), t)
    ensures PlaceableFrom(t, assets, n + 1) <==> PlaceableFrom(s, assets, n + 1)
  {
    if Fresh(s, assets[n].name) {
      t := Write(s, assets[n]);
      UploadIsACalmStep(anchor, r, s, n);
      WritingKeepsPlaceable(s, assets, n, t);
      WritingKeepsBeside(s, assets, n, t);
    } else {
      t := s;
      assert Holds(s, assets[n]);
      assert InPlace(s, r, n + 1);
      SkipOne(anchor, r, s, n);
    }
  }

  lemma BesideTwice(s: Store, t: Store, u: Store, assets: seq<Asset>)
    requires SameBeside(s, t, assets) && SameBeside(t, u, assets)
    ensures SameBeside(s, u, assets)
  {
  }

  /** If every name is free or holds its asset, the uploads end with everything in place. */
  lemma {:induction false} UploadsSucceed(anchor: Anchor, r: Request, s: Store, n: nat, assets: seq<Asset>) returns (t: Store)
    requires assets == Assets(r) && InPlace(s, r, n) && PlaceableFrom(s, assets, n)
    ensures InPlace(t, r, |assets|) && SameBeside(s, t, assets)
    ensures Calm(anchor, AtAsset(s, r, n), s) == Calm(anchor, AtAsset(t, r, |assets|), t)
    decreases |assets| - n
  {
    t := s;
    if n < |assets| {
      var u := UploadPlaces(anchor, r, s, n, assets);
      t := UploadsSucceed(anchor, r, u, n + 1, assets);
      BesideTwice(s, u, t, assets);
    }
  }

  /** If not, they stop with a conflict. */
  lemma {:induction false} UploadsFail(anchor: Anchor, r: Request, s: Store, n: nat, assets: seq<Asset>)
    requires assets == Assets(r) && InPlace(s, r, n) && !PlaceableFrom(s, assets, n)
    ensures Calm(anchor, AtAsset(s, r, n), s).0.pc == Stopped(Conflict)
    decreases |assets| - n
  {
    if !Placeable(s, assets[n]) {
      StuckUpload(anchor, r, s, n);
    } else {
      var u := UploadPlaces(anchor, r, s, n, assets);
      UploadsFail(anchor, r, u, n + 1, assets);
    }
  }

  // ---------------------------------------------------------------- the pointer and the index

  lemma PointerSucceeds(anchor: Anchor, p: Proc, s: Store) returns (t: Store)
    requires WellPlaced(p) && p.pc == ReadingPointer && PointerGivesWay(anchor, s, p.request.pointer)
    ensures t == s || t == Write(s, PointerAsset(p.request))
    ensures Calm(anchor, p, s) == Calm(anchor, p.(pc := ReadingIndex), t)
  {
    var own := p.request.pointer;
    var name := Current(own.incident);
    CalmStep(anchor, p, s);
    if name in s.blobs && s.blobs[name].payload == PointerDoc(own) {
      t := s;
    } else {
      t := Write(s, PointerAsset(p.request));
      PointerIsWritten(anchor, p, s, p.(pc := WritingPointer(if name in s.blobs then Some(s.blobs[name]) else None)));
    }
  }

  lemma PointerIsWritten(anchor: Anchor, p: Proc, s: Store, q: Proc)
    requires WellPlaced(p) && p.pc == ReadingPointer
    requires var name := Current(p.request.pointer.incident);
             q == p.(pc := WritingPointer(if name in s.blobs then Some(s.blobs[name]) else None))
    ensures Calm(anchor, q, s) == Calm(anchor, p.(pc := ReadingIndex), Write(s, PointerAsset(p.request)))
  {
    CalmStep(anchor, q, s);
  }

  lemma PointerFails(anchor: Anchor, p: Proc, s: Store)
    requires WellPlaced(p) && p.pc == ReadingPointer && !PointerGivesWay(anchor, s, p.request.pointer)
    ensures Calm(anchor, p, s).0.pc == Stopped(Conflict)
  {
    CalmStep(anchor, p, s);
  }

  lemma IndexSucceeds(anchor: Anchor, p: Proc, s: Store) returns (t: Store)
    requires WellPlaced(p) && p.pc == ReadingIndex && IndexGivesWay(anchor, s, p.request.index, p.request.previous)
    ensures t == s || t == Write(s, IndexAsset(p.request))
    ensures Calm(anchor, p, s) == (p.(pc := Finished), t)
  {
    CalmStep(anchor, p, s);
    if ActiveIndex in s.blobs && s.blobs[ActiveIndex].payload == IndexDoc(p.request.index) {
      t := s;
    } else {
      t := Write(s, IndexAsset(p.request));
      IndexIsWritten(anchor, p, s, p.(pc := WritingIndex(if ActiveIndex in s.blobs then Some(s.blobs[ActiveIndex]) else None)));
    }
  }

  lemma IndexIsWritten(anchor: Anchor, p: Proc, s: Store, q: Proc)
    requires WellPlaced(p) && p.pc == ReadingIndex
    requires q == p.(pc := WritingIndex(if ActiveIndex in s.blobs then Some(s.blobs[ActiveIndex]) else None))
    ensures Calm(anchor, q, s) == (p.(pc := Finished), Write(s, IndexAsset(p.request)))
  {
    CalmStep(anchor, q, s);
  }

  lemma IndexFails(anchor: Anchor, p: Proc, s: Store)
    requires WellPlaced(p) && p.pc == ReadingIndex && !IndexGivesWay(anchor, s, p.request.index, p.request.previous)
    ensures Calm(anchor, p, s).0.pc.Stopped?
  {
    CalmStep(anchor, p, s);
  }

  // ---------------------------------------------------------------- the whole run

  lemma MutableIsBeside(r: Request, n: Name)
    requires Mutable(n)
    ensures !Among(Assets(r), n)
  {
    forall j | 0 <= j < |Assets(r)| ensures Assets(r)[j].name != n { assert Assets(r)[j] in Assets(r); }
  }

  lemma MutableSame(s: Store, t: Store, r: Request, n: Name)
    requires SameBeside(s, t, Assets(r)) && Mutable(n)
    ensures (n in s.blobs <==> n in t.blobs) && (n in s.blobs ==> s.blobs[n] == t.blobs[n])
  {
    MutableIsBeside(r, n);
  }

  lemma UploadsChangeNoGate(anchor: Anchor, r: Request, s: Store, t: Store)
    requires SameBeside(s, t, Assets(r))
    ensures r.IncidentRequest? ==> (PointerGivesWay(anchor, t, r.pointer) <==> PointerGivesWay(anchor, s, r.pointer))
    ensures !r.LiveRequest? ==> (IndexGivesWay(anchor, t, r.index, r.previous) <==> IndexGivesWay(anchor, s, r.index, r.previous))
  {
    if r.IncidentRequest? { MutableSame(s, t, r, Current(r.pointer.incident)); }
    MutableSame(s, t, r, ActiveIndex);
  }

  lemma AssetsAreWritten(r: Request, n: Name)
    requires Among(Assets(r), n)
    ensures Writes(r, n)
  {
    var j :| 0 <= j < |Assets(r)| && Assets(r)[j].name == n;
    assert Assets(r)[j] in Assets(r);
  }

  lemma ElsewhereStays(s: Store, t: Store, u: Store, r: Request)
    requires SameBeside(s, t, Assets(r)) && SameElsewhere(t, u, r)
    ensures SameElsewhere(s, u, r)
  {
    forall n: Name | !Writes(r, n) ensures !Among(Assets(r), n) { if Among(Assets(r), n) { AssetsAreWritten(r, n); } }
  }

  lemma ElsewhereTwice(s: Store, t: Store, u: Store, r: Request)
    requires SameElsewhere(s, t, r) && SameElsewhere(t, u, r)
    ensures SameElsewhere(s, u, r)
  {
  }

  lemma WritingStaysIn(s: Store, a: Asset, r: Request)
    requires Writes(r, a.name)
    ensures SameElsewhere(s, Write(s, a), r)
  {
  }

  /** From the moment every asset is in place. */
  lemma AfterUploads(anchor: Anchor, p: Proc, s: Store) returns (t: Store)
    requires WellPlaced(p) && p.pc == PcAtAsset(p.request, |Assets(p.request)|)
    ensures var r := p.request;
            Calm(anchor, p, s).0.pc.Finished?
            <==> && (r.IncidentRequest? ==> PointerGivesWay(anchor, s, r.pointer))
                 && (!r.LiveRequest? ==> IndexGivesWay(anchor, s, r.index, r.previous))
    ensures Calm(anchor, p, s).0.pc.Finished? ==> Calm(anchor, p, s).1 == t && SameElsewhere(s, t, p.request)
  {
    match p.request
    case IncidentRequest(_, _, _, _, _, _, _) => t := AfterUploadsOfIncident(anchor, p, s);
    case HeartbeatRequest(_, _, _) => t := AfterIndexRead(anchor, p, s);
    case LiveRequest(_, _, _) =>
      t := Write(s, ManifestAsset(p.request));
      CalmStep(anchor, p, s);
  }

  lemma AfterIndexRead(anchor: Anchor, p: Proc, s: Store) returns (t: Store)
    requires WellPlaced(p) && p.pc == ReadingIndex
    ensures Calm(anchor, p, s).0.pc.Finished? <==> IndexGivesWay(anchor, s, p.request.index, p.request.previous)
    ensures Calm(anchor, p, s).0.pc.Finished? ==> Calm(anchor, p, s).1 == t && SameElsewhere(s, t, p.request)
  {
    t := s;
    if IndexGivesWay(anchor, s, p.request.index, p.request.previous) {
      t := IndexSucceeds(anchor, p, s);
      WritingStaysIn(s, IndexAsset(p.request), p.request);
    } else {
      IndexFails(anchor, p, s);
    }
  }

  lemma PointerKeepsIndex(anchor: Anchor, r: Request, s: Store, t: Store)
    requires r.IncidentRequest? && (t == s || t == Write(s, PointerAsset(r)))
    ensures IndexGivesWay(anchor, t, r.index, r.previous) <==> IndexGivesWay(anchor, s, r.index, r.previous)
    ensures SameElsewhere(s, t, r)
  {
  }

  lemma AfterUploadsOfIncident(anchor: Anchor, p: Proc, s: Store) returns (t: Store)
    requires WellPlaced(p) && p.pc == ReadingPointer
    ensures var r := p.request;
            Calm(anchor, p, s).0.pc.Finished?
            <==> PointerGivesWay(anchor, s, r.pointer) && IndexGivesWay(anchor, s, r.index, r.previous)
    ensures Calm(anchor, p, s).0.pc.Finished? ==> Calm(anchor, p, s).1 == t && SameElsewhere(s, t, p.request)
  {
    t := s;
    if PointerGivesWay(anchor, s, p.request.pointer) {
      var u := PointerSucceeds(anchor, p, s);
      PointerKeepsIndex(anchor, p.request, s, u);
      t := AfterIndexRead(anchor, p.(pc := ReadingIndex), u);
      if Calm(anchor, p, s).0.pc.Finished? { ElsewhereTwice(s, u, t, p.request); }
    } else {
      PointerFails(anchor, p, s);
    }
  }

  lemma StartIsAtAsset(r: Request, s: Store)
    ensures InPlace(s, r, 0) && Start(r) == AtAsset(s, r, 0)
  {
    assert RefsUpTo(s, r, 0) == [];
  }

  /** With nobody else writing and no call failing, a publication, a heartbeat or a live publication succeeds
      exactly if the store allows it; it then leaves every blob it does not name as it was. */
  lemma SucceedsExactly(anchor: Anchor, r: Request, s: Store)
    ensures var (q, t) := Undisturbed(anchor, r, s);
            && (q.pc.Finished? <==> Allows(anchor, s, r))
            && (q.pc.Finished? ==> SameElsewhere(s, t, r))
  {
    StartIsAtAsset(r, s);
    if AllPlaceable(s, r) {
      var t := UploadsSucceed(anchor, r, s, 0, Assets(r));
      UploadsChangeNoGate(anchor, r, s, t);
      var u := AfterUploads(anchor, AtAsset(t, r, |Assets(r)|), t);
      if Undisturbed(anchor, r, s).0.pc.Finished? { ElsewhereStays(s, t, u, r); }
    } else {
      UploadsFail(anchor, r, s, 0, Assets(r));
    }
  }
}
