/** Many publishers sharing the two blob containers, interleaved one storage call at a time, any of
    which may fail, crash and start again. */
module PublicationSystem {
  import opened Options
  import opened IncidentDocuments
  import opened Publication
  import opened PublicationRetry

  /** One replacement of incidents/active.json: the change, and the snapshot it was built from. */
  datatype Commit = Commit(change: Change, basis: Option<Index>, index: Index)

  datatype Work =
    | IndexWork(proc: Proc, change: Change, basis: Option<Index>)
    | LiveWork(proc: Proc)

  /** `pointers` and `commits` are the writes of current.json and active.json in the order in which
      the storage service applied them. */
  datatype Sys = Sys(
    anchor: Anchor, store: Store, works: map<nat, Work>, pointers: seq<Pointer>, commits: seq<Commit>)

  datatype Action =
    | Begin(pid: nat, change: Change)
    | BeginLive(pid: nat, run: string, live: seq<Payload>, at: Millis)
    | Call(pid: nat, fault: Fault)
    | Restart(pid: nat)

  function Init(anchor: Anchor): Sys {
    Sys(anchor, Store(map[], 0), map[], [], [])
  }

  function Snapshot(s: Store): Option<Index> {
    if ActiveIndex in s.blobs && s.blobs[ActiveIndex].payload.IndexDoc?
    then Some(s.blobs[ActiveIndex].payload.index) else None
  }

  function WithProc(w: Work, p: Proc): Work {
    match w
    case IndexWork(_, change, basis) => IndexWork(p, change, basis)
    case LiveWork(_) => LiveWork(p)
  }

  function CallStep(sys: Sys, pid: nat, fault: Fault): Sys
    requires pid in sys.works && WellPlaced(sys.works[pid].proc)
  {
    var w := sys.works[pid];
    var (p', s') := Advance(sys.anchor, w.proc, sys.store, fault);
    var applied := s' != sys.store;
    Sys(sys.anchor, s', sys.works[pid := WithProc(w, p')],
        if applied && w.proc.pc.WritingPointer? then sys.pointers + [w.proc.request.pointer] else sys.pointers,
        if applied && w.proc.pc.WritingIndex? && w.IndexWork?
        then sys.commits + [Commit(w.change, w.basis, w.proc.request.index)] else sys.commits)
  }

  /** A publisher reads the active index and builds its request from that snapshot; the calls that
      follow may happen at any later time. */
  function Step(sys: Sys, action: Action): Sys {
    match action
    case Begin(pid, change) =>
      var basis := Snapshot(sys.store);
      var request := Build(sys.anchor, change, basis);
      if request.None? then sys
      else sys.(works := sys.works[pid := IndexWork(Start(request.value), change, basis)])
    case BeginLive(pid, run, live, at) =>
      if |live| != 6 then sys
      else sys.(works := sys.works[pid := LiveWork(Start(LiveRequest(run, live, at)))])
    case Call(pid, fault) =>
      if pid in sys.works && WellPlaced(sys.works[pid].proc) then CallStep(sys, pid, fault) else sys
    case Restart(pid) =>
      if pid in sys.works
      then sys.(works := sys.works[pid := WithProc(sys.works[pid], Start(sys.works[pid].proc.request))])
      else sys
  }

  function Execute(sys: Sys, actions: seq<Action>): Sys
    decreases |actions|
  {
    if actions == [] then sys else Execute(Step(sys, actions[0]), actions[1..])
  }

  // ---------------------------------------------------------------- what is stored

  /** The pointer a well-formed publisher signs for the state whose digest names its directory. */
  ghost predicate GoodPointer(anchor: Anchor, p: Pointer) {
    && p.version.Sha? && p.version.preimage.StatePreimage?
    && p == PointerOf(anchor, p.version.preimage.body, p.publishedAt)
  }

  ghost predicate PointerStored(anchor: Anchor, s: Store, p: Pointer) {
    && GoodPointer(anchor, p)
    && var body := p.version.preimage.body;
       && Holds(s, Asset(State(p.incident, p.version), SignedState(body)))
       && Holds(s, Asset(StateAtt(p.incident, p.version), StateAttestationOf(anchor, body)))
       && Holds(s, Asset(PointerCopy(p.incident, p.version), PointerDoc(p)))
       && Holds(s, Asset(PointerAtt(p.incident, p.version), PointerAttestationOf(anchor, p)))
  }

  ghost predicate GoodIndex(anchor: Anchor, ix: Index) {
    && ix.trust == anchor.trust && |ix.entries| <= MAX_ACTIVE_INCIDENTS
    && ix.attestationVersion == Sha(IndexSeed(ix.entries, ix.trust, ix.publishedAt))
  }

  ghost predicate IndexStored(anchor: Anchor, s: Store, ix: Index) {
    GoodIndex(anchor, ix) && Holds(s, Asset(IndexAtt(ix.attestationVersion), IndexAttestationOf(anchor, ix)))
  }

  /** The entry is that of some pointer current.json has held. */
  ghost predicate EntryBacked(pointers: seq<Pointer>, id: IncidentId, e: Entry) {
    exists p <- pointers :: p.incident == id && p.version == e.version && e.pointerSha == Sha(PointerDoc(p))
  }

  ghost predicate EntriesBacked(pointers: seq<Pointer>, ix: Index) {
    forall id <- ix.entries :: EntryBacked(pointers, id, ix.entries[id])
  }

  ghost predicate ManifestStored(s: Store, m: Manifest) {
    |m.assets| == 6 && forall k :: 0 <= k < 6 ==> LiveStored(s, m, k)
  }

  ghost predicate LiveStored(s: Store, m: Manifest, k: nat)
    requires k < |m.assets|
  {
    Live(m.run, k) in s.blobs && Intact(s.blobs[Live(m.run, k)]) && Sha(s.blobs[Live(m.run, k)].payload) == m.assets[k]
  }

  function LastPointer(pointers: seq<Pointer>, id: IncidentId): Option<Pointer> {
    if pointers == [] then None
    else if pointers[|pointers| - 1].incident == id then Some(pointers[|pointers| - 1])
    else LastPointer(pointers[..|pointers| - 1], id)
  }

  ghost predicate Remembers(s: Store, n: Name, basis: Option<Blob>) {
    basis.Some? ==>
      && basis.value.stamp < s.clock
      && (n in s.blobs && s.blobs[n].stamp == basis.value.stamp ==> s.blobs[n] == basis.value)
  }

  // ---------------------------------------------------------------- the invariant

  ghost predicate StoreInv(sys: Sys) {
    forall n <- sys.store.blobs :: sys.store.blobs[n].stamp < sys.store.clock
  }

  ghost predicate PointerOrder(pointers: seq<Pointer>) {
    forall i, j :: 0 <= i < j < |pointers| && pointers[i].incident == pointers[j].incident ==>
      pointers[i].publishedAt < pointers[j].publishedAt
  }

  ghost predicate CurrentInv(s: Store, pointers: seq<Pointer>, id: IncidentId) {
    var last := LastPointer(pointers, id);
    if last.None? then Fresh(s, Current(id)) else Holds(s, Asset(Current(id), PointerDoc(last.value)))
  }

  ghost predicate PointersInv(sys: Sys) {
    && PointerOrder(sys.pointers)
    && (forall p <- sys.pointers :: PointerStored(sys.anchor, sys.store, p))
    && (forall id: IncidentId :: CurrentInv(sys.store, sys.pointers, id))
  }

  /** The basis of the `k`-th replacement is the value the one before it put there. */
  function BasisAt(commits: seq<Commit>, k: nat): Option<Index>
    requires k <= |commits|
  {
    if k == 0 then None else Some(commits[k - 1].index)
  }

  ghost predicate CommitInv(anchor: Anchor, s: Store, pointers: seq<Pointer>, commits: seq<Commit>, k: nat)
    requires k < |commits|
  {
    var c := commits[k];
    && c.basis == BasisAt(commits, k)
    && c.index == NextIndex(anchor, c.change, c.basis)
    && (c.basis.Some? ==> c.basis.value.publishedAt < c.index.publishedAt)
    && IndexStored(anchor, s, c.index)
    && EntriesBacked(pointers, c.index)
  }

  ghost predicate CommitsInv(sys: Sys) {
    && (forall k :: 0 <= k < |sys.commits| ==> CommitInv(sys.anchor, sys.store, sys.pointers, sys.commits, k))
    && (if sys.commits == [] then Fresh(sys.store, ActiveIndex)
        else Holds(sys.store, Asset(ActiveIndex, IndexDoc(sys.commits[|sys.commits| - 1].index))))
  }

  ghost predicate ManifestInv(sys: Sys) {
    RuntimeManifest in sys.store.blobs ==>
      && Intact(sys.store.blobs[RuntimeManifest])
      && sys.store.blobs[RuntimeManifest].payload.ManifestDoc?
      && ManifestStored(sys.store, sys.store.blobs[RuntimeManifest].payload.manifest)
  }

  /** How many assets a process has secured. */
  function SecuredCount(p: Proc): nat {
    match p.pc
    case Uploading(i) => i
    case Recovering(i) => i
    case Stopped(_) => 0
    case _ => |Assets(p.request)|
  }

  ghost predicate PastPointer(pc: Pc) {
    pc.ReadingIndex? || pc.WritingIndex? || pc.Finished?
  }

  ghost predicate ProcInv(s: Store, p: Proc) {
    && WellPlaced(p)
    && InPlace(s, p.request, SecuredCount(p))
    && (!p.pc.Stopped? ==> p.refs == RefsUpTo(s, p.request, SecuredCount(p)))
    && (p.pc.WritingPointer? ==>
          && Remembers(s, Current(p.request.pointer.incident), p.pc.basis)
          && (p.pc.basis.Some? ==>
                && p.pc.basis.value.payload.PointerDoc?
                && p.pc.basis.value.payload.pointer.incident == p.request.pointer.incident
                && p.pc.basis.value.payload.pointer.publishedAt < p.request.pointer.publishedAt))
    && (p.pc.WritingIndex? ==>
          && Remembers(s, ActiveIndex, p.pc.basis)
          && (if p.pc.basis.None? then p.request.previous == None
              else && p.request.previous == Some(Sha(p.pc.basis.value.payload))
                   && p.pc.basis.value.payload.IndexDoc?
                   && p.pc.basis.value.payload.index.publishedAt < p.request.index.publishedAt))
  }

  ghost predicate Committed(commits: seq<Commit>, ix: Index) {
    exists c <- commits :: c.index == ix
  }

  ghost predicate WorkInv(sys: Sys, w: Work) {
    && ProcInv(sys.store, w.proc)
    && match w
       case LiveWork(p) => p.request.LiveRequest? && |p.request.live| == 6
       case IndexWork(p, change, basis) =>
         && Build(sys.anchor, change, basis) == Some(p.request)
         && (basis.Some? ==> Committed(sys.commits, basis.value))
         && (PastPointer(p.pc) && p.request.IncidentRequest? ==> p.request.pointer in sys.pointers)
  }

  ghost predicate WorksInv(sys: Sys) {
    forall pid <- sys.works :: WorkInv(sys, sys.works[pid])
  }

  ghost predicate LogsInv(sys: Sys) {
    StoreInv(sys) && PointersInv(sys) && CommitsInv(sys) && ManifestInv(sys)
  }

  ghost predicate Inv(sys: Sys) {
    LogsInv(sys) && WorksInv(sys)
  }

  lemma InitInv(anchor: Anchor)
    ensures Inv(Init(anchor))
  {
  }

  // ---------------------------------------------------------------- immutable blobs stay

  /** From `s` to `t`, immutable blobs are kept as they are and everything new has a new stamp. */
  ghost predicate Grows(s: Store, t: Store) {
    && s.clock <= t.clock
    && (forall n <- s.blobs :: n in t.blobs && (!Mutable(n) ==> t.blobs[n] == s.blobs[n]))
    && (forall n <- t.blobs :: (n in s.blobs && t.blobs[n] == s.blobs[n]) || t.blobs[n].stamp >= s.clock)
  }

  lemma GrowsTransitive(s: Store, t: Store, u: Store)
    requires Grows(s, t) && Grows(t, u)
    ensures Grows(s, u)
  {
  }

  lemma GrowthKeepsPointer(anchor: Anchor, s: Store, t: Store, p: Pointer)
    requires Grows(s, t) && PointerStored(anchor, s, p)
    ensures PointerStored(anchor, t, p)
  {
  }

  lemma GrowthKeepsIndex(anchor: Anchor, s: Store, t: Store, ix: Index)
    requires Grows(s, t) && IndexStored(anchor, s, ix)
    ensures IndexStored(anchor, t, ix)
  {
  }

  lemma GrowthKeepsManifest(s: Store, t: Store, m: Manifest)
    requires Grows(s, t) && ManifestStored(s, m)
    ensures ManifestStored(t, m)
  {
    forall k | 0 <= k < 6 ensures LiveStored(t, m, k) { assert LiveStored(s, m, k); }
  }

  lemma GrowthKeepsMemory(s: Store, t: Store, n: Name, b: Option<Blob>)
    requires Grows(s, t) && Remembers(s, n, b)
    ensures Remembers(t, n, b)
  {
  }

  lemma GrowthKeepsRefs(s: Store, t: Store, r: Request, n: nat)
    requires Grows(s, t) && InPlace(s, r, n)
    ensures InPlace(t, r, n) && RefsUpTo(t, r, n) == RefsUpTo(s, r, n)
  {
    forall j | 0 <= j < n ensures Holds(t, Assets(r)[j]) && StoredRef(t, Assets(r)[j]) == StoredRef(s, Assets(r)[j]) {
      assert Holds(s, Assets(r)[j]);
    }
  }

  lemma GrowthKeepsProc(s: Store, t: Store, p: Proc)
    requires Grows(s, t) && ProcInv(s, p)
    ensures ProcInv(t, p)
  {
    if p.pc.WritingPointer? { GrowthKeepsMemory(s, t, Current(p.request.pointer.incident), p.pc.basis); }
    if p.pc.WritingIndex? { GrowthKeepsMemory(s, t, ActiveIndex, p.pc.basis); }
    GrowthKeepsRefs(s, t, p.request, SecuredCount(p));
  }

  /** A step of somebody else breaks nothing a process relies on. */
  lemma OthersKeepWork(sys: Sys, sys': Sys, w: Work)
    requires WorkInv(sys, w)
    requires sys'.anchor == sys.anchor && Grows(sys.store, sys'.store)
    requires sys.pointers <= sys'.pointers && sys.commits <= sys'.commits
    ensures WorkInv(sys', w)
  {
    GrowthKeepsProc(sys.store, sys'.store, w.proc);
  }

  lemma WriteGrows(s: Store, a: Asset)
    requires Mutable(a.name) || Fresh(s, a.name)
    requires forall n <- s.blobs :: s.blobs[n].stamp < s.clock
    ensures Grows(s, Write(s, a))
    ensures forall n <- Write(s, a).blobs :: Write(s, a).blobs[n].stamp < Write(s, a).clock
  {
  }

  // ---------------------------------------------------------------- one call keeps the invariant

  lemma AdvanceGrows(anchor: Anchor, p: Proc, s: Store, f: Fault)
    requires WellPlaced(p)
    requires forall n <- s.blobs :: s.blobs[n].stamp < s.clock
    ensures var s' := Advance(anchor, p, s, f).1;
            Grows(s, s') && forall n <- s'.blobs :: s'.blobs[n].stamp < s'.clock
    ensures var s' := Advance(anchor, p, s, f).1;
            s' == s || exists a: Asset :: Written(p, a) && s' == Write(s, a)
  {
    var s' := Advance(anchor, p, s, f).1;
    match p.pc
    case Uploading(i) => ChangeGrows(p, s, s', Assets(p.request)[i]);
    case WritingPointer(_) => ChangeGrows(p, s, s', PointerAsset(p.request));
    case WritingIndex(_) => ChangeGrows(p, s, s', IndexAsset(p.request));
    case WritingManifest => ChangeGrows(p, s, s', ManifestAsset(p.request));
    case _ =>
  }

  lemma ChangeGrows(p: Proc, s: Store, s': Store, a: Asset)
    requires forall n <- s.blobs :: s.blobs[n].stamp < s.clock
    requires Written(p, a) && (s' == s || s' == Write(s, a))
    requires s' != s ==> Mutable(a.name) || Fresh(s, a.name)
    ensures Grows(s, s') && forall n <- s'.blobs :: s'.blobs[n].stamp < s'.clock
    ensures s' == s || exists a: Asset :: Written(p, a) && s' == Write(s, a)
  {
    if s' != s { WriteGrows(s, a); }
  }

  /** The blob a program point may write. */
  ghost predicate Written(p: Proc, a: Asset) {
    match p.pc
    case Uploading(i) => i < |Assets(p.request)| && a == Assets(p.request)[i]
    case WritingPointer(_) => p.request.IncidentRequest? && a == PointerAsset(p.request)
    case WritingIndex(_) => !p.request.LiveRequest? && a == IndexAsset(p.request)
    case WritingManifest => p.request.LiveRequest? && a == ManifestAsset(p.request)
    case _ => false
  }

  lemma UploadKeepsProc(p: Proc, s: Store, f: Fault)
    requires ProcInv(s, p) && p.pc.Uploading?
    requires forall n <- s.blobs :: s.blobs[n].stamp < s.clock
    ensures var (p', s') := UploadStep(p, p.pc.i, s, f); ProcInv(s', p')
  {
    UploadedOrUnchanged(p, p.pc.i, s, f);
    var s' := UploadStep(p, p.pc.i, s, f).1;
    if s' != s { UploadedKeepsProc(p, s, s'); }
  }

  lemma UploadedKeepsProc(p: Proc, s: Store, s': Store)
    requires ProcInv(s, p) && p.pc.Uploading?
    requires forall n <- s.blobs :: s.blobs[n].stamp < s.clock
    requires var a := Assets(p.request)[p.pc.i]; Fresh(s, a.name) && s' == Write(s, a)
    ensures ProcInv(s', Secured(p, p.pc.i, s.clock)) && ProcInv(s', p.(pc := Recovering(p.pc.i)))
  {
    var i := p.pc.i;
    var r := p.request;
    WriteGrows(s, Assets(r)[i]);
    GrowthKeepsRefs(s, s', r, i);
    assert InPlace(s', r, i + 1);
    SecuredIsAtAsset(s', r, i, Uploading(i));
    SecuringProgresses(p, i, s.clock);
  }

  lemma RecoverKeepsProc(p: Proc, s: Store, f: Fault)
    requires ProcInv(s, p) && p.pc.Recovering?
    ensures ProcInv(s, RecoverStep(p, p.pc.i, s, f))
  {
    var i := p.pc.i;
    RecoverProgresses(p, i, s, f);
    if Readable(f) && Holds(s, Assets(p.request)[i]) {
      assert InPlace(s, p.request, i + 1);
      SecuredIsAtAsset(s, p.request, i, p.pc);
    }
  }

  lemma ReadPointerKeepsProc(anchor: Anchor, p: Proc, s: Store, f: Fault)
    requires ProcInv(s, p) && p.pc.ReadingPointer?
    requires forall n <- s.blobs :: s.blobs[n].stamp < s.clock
    ensures ProcInv(s, ReadPointerStep(anchor, p, s, f))
  {
    ReadPointerProgresses(anchor, p, s, f);
  }

  lemma ReadIndexKeepsProc(anchor: Anchor, p: Proc, s: Store, f: Fault)
    requires ProcInv(s, p) && p.pc.ReadingIndex?
    requires forall n <- s.blobs :: s.blobs[n].stamp < s.clock
    ensures ProcInv(s, ReadIndexStep(anchor, p, s, f))
  {
    ReadIndexProgresses(anchor, p, s, f);
  }

  lemma SwapKeepsProc(p: Proc, a: Asset, condition: bool, next: Pc, s: Store, f: Fault)
    requires ProcInv(s, p) && Mutable(a.name)
    requires forall n <- s.blobs :: s.blobs[n].stamp < s.clock
    requires p.pc.WritingPointer? || p.pc.WritingIndex? || p.pc.WritingManifest?
    requires next == if p.pc.WritingPointer? then ReadingIndex else Finished
    ensures var (p', s') := SwapStep(p, a, condition, next, s, f); ProcInv(s', p')
  {
    var (p', s') := SwapStep(p, a, condition, next, s, f);
    SwapProgresses(p, a, condition, next, s, f);
    if s' != s {
      WriteGrows(s, a);
      GrowthKeepsRefs(s, s', p.request, |Assets(p.request)|);
    }
  }

  lemma AdvanceKeepsProc(anchor: Anchor, p: Proc, s: Store, f: Fault)
    requires ProcInv(s, p)
    requires forall n <- s.blobs :: s.blobs[n].stamp < s.clock
    ensures var (p', s') := Advance(anchor, p, s, f); ProcInv(s', p') && p'.request == p.request
  {
    AdvanceProgresses(anchor, p, s, f);
    match p.pc
    case Uploading(_) => UploadKeepsProc(p, s, f);
    case Recovering(_) => RecoverKeepsProc(p, s, f);
    case ReadingPointer => ReadPointerKeepsProc(anchor, p, s, f);
    case WritingPointer(basis) =>
      var a := PointerAsset(p.request);
      SwapKeepsProc(p, a, Unchanged(s, a.name, basis), ReadingIndex, s, f);
    case ReadingIndex => ReadIndexKeepsProc(anchor, p, s, f);
    case WritingIndex(basis) =>
      SwapKeepsProc(p, IndexAsset(p.request), Unchanged(s, ActiveIndex, basis), Finished, s, f);
    case WritingManifest => SwapKeepsProc(p, ManifestAsset(p.request), true, Finished, s, f);
    case _ =>
  }

  // ---- what the three mutable writes add to the logs

  lemma {:induction false} LastPointerIsNewest(pointers: seq<Pointer>, id: IncidentId)
    requires PointerOrder(pointers)
    ensures var last := LastPointer(pointers, id);
            && (last.Some? ==> last.value in pointers && last.value.incident == id)
            && forall p <- pointers :: p.incident == id ==> last.Some? && p.publishedAt <= last.value.publishedAt
  {
    if pointers != [] {
      var front := pointers[..|pointers| - 1];
      LastPointerIsNewest(front, id);
      assert pointers == front + [pointers[|pointers| - 1]];
    }
  }

  lemma IncidentAssetsHeld(s: Store, r: Request)
    requires r.IncidentRequest? && InPlace(s, r, |Assets(r)|)
    ensures var p := r.pointer;
            && Holds(s, Asset(State(p.incident, p.version), r.state))
            && Holds(s, Asset(StateAtt(p.incident, p.version), r.stateAtt))
            && Holds(s, Asset(PointerCopy(p.incident, p.version), PointerDoc(p)))
            && Holds(s, Asset(PointerAtt(p.incident, p.version), r.pointerAtt))
            && Holds(s, Asset(IndexAtt(r.index.attestationVersion), r.indexAtt))
  {
    assert Holds(s, Assets(r)[0]) && Holds(s, Assets(r)[1]) && Holds(s, Assets(r)[2])
        && Holds(s, Assets(r)[3]) && Holds(s, Assets(r)[4]);
  }

  lemma HeartbeatAssetsHeld(s: Store, r: Request)
    requires r.HeartbeatRequest? && InPlace(s, r, |Assets(r)|)
    ensures Holds(s, Asset(IndexAtt(r.index.attestationVersion), r.indexAtt))
  {
    assert Holds(s, Assets(r)[0]);
  }

  lemma NextIndexIsGood(anchor: Anchor, change: Change, basis: Option<Index>, r: Request)
    requires Build(anchor, change, basis) == Some(r)
    requires basis.Some? ==> GoodIndex(anchor, basis.value)
    ensures !r.LiveRequest? && GoodIndex(anchor, r.index) && r.indexAtt == IndexAttestationOf(anchor, r.index)
  {
  }

  lemma BuiltPointerIsGood(anchor: Anchor, change: Change, basis: Option<Index>, r: Request)
    requires Build(anchor, change, basis) == Some(r) && r.IncidentRequest?
    ensures GoodPointer(anchor, r.pointer) && r.pointerAtt == PointerAttestationOf(anchor, r.pointer)
    ensures var body := r.pointer.version.preimage.body;
            r.state == SignedState(body) && r.stateAtt == StateAttestationOf(anchor, body)
  {
  }

  /** A built request whose assets are all stored has a stored pointer and a stored index. */
  lemma BuiltIsStored(anchor: Anchor, s: Store, change: Change, basis: Option<Index>, r: Request)
    requires Build(anchor, change, basis) == Some(r)
    requires basis.Some? ==> GoodIndex(anchor, basis.value)
    requires InPlace(s, r, |Assets(r)|)
    ensures IndexStored(anchor, s, r.index)
    ensures r.IncidentRequest? ==> PointerStored(anchor, s, r.pointer)
  {
    NextIndexIsGood(anchor, change, basis, r);
    if r.IncidentRequest? {
      IncidentAssetsHeld(s, r);
      BuiltPointerIsGood(anchor, change, basis, r);
    } else {
      HeartbeatAssetsHeld(s, r);
    }
  }

  lemma AppendKeepsOrder(pointers: seq<Pointer>, own: Pointer)
    requires PointerOrder(pointers)
    requires var last := LastPointer(pointers, own.incident);
             last.Some? ==> last.value.publishedAt < own.publishedAt
    ensures PointerOrder(pointers + [own])
  {
    LastPointerIsNewest(pointers, own.incident);
    var all := pointers + [own];
    forall i, j | 0 <= i < j < |all| && all[i].incident == all[j].incident
      ensures all[i].publishedAt < all[j].publishedAt
    {
      if j == |pointers| { assert pointers[i] in pointers; }
    }
  }

  lemma AppendKeepsCurrent(s: Store, pointers: seq<Pointer>, own: Pointer, id: IncidentId)
    requires CurrentInv(s, pointers, id)
    ensures CurrentInv(Write(s, Asset(Current(own.incident), PointerDoc(own))), pointers + [own], id)
  {
    assert (pointers + [own])[..|pointers|] == pointers;
  }

  /** The swap succeeded, so the pointer it replaced is the one the publisher compared itself with. */
  lemma SwappedPointerIsNewer(sys: Sys, p: Proc)
    requires PointersInv(sys) && ProcInv(sys.store, p) && p.pc.WritingPointer?
    requires Unchanged(sys.store, Current(p.request.pointer.incident), p.pc.basis)
    ensures var last := LastPointer(sys.pointers, p.request.pointer.incident);
            last.Some? ==> last.value.publishedAt < p.request.pointer.publishedAt
  {
    assert CurrentInv(sys.store, sys.pointers, p.request.pointer.incident);
  }

  lemma PointerLogGrows(sys: Sys, sys': Sys, w: Work)
    requires StoreInv(sys) && PointersInv(sys) && CommitsInv(sys) && WorkInv(sys, w) && w.IndexWork? && w.proc.pc.WritingPointer?
    requires Unchanged(sys.store, Current(w.proc.request.pointer.incident), w.proc.pc.basis)
    requires sys'.anchor == sys.anchor && sys'.store == Write(sys.store, PointerAsset(w.proc.request))
    requires sys'.pointers == sys.pointers + [w.proc.request.pointer]
    ensures PointersInv(sys')
  {
    var own := w.proc.request.pointer;
    WriteGrows(sys.store, PointerAsset(w.proc.request));
    CommittedIsGood(sys, w);
    BuiltIsStored(sys.anchor, sys.store, w.change, w.basis, w.proc.request);
    forall p <- sys'.pointers ensures PointerStored(sys.anchor, sys'.store, p) {
      GrowthKeepsPointer(sys.anchor, sys.store, sys'.store, p);
    }
    SwappedPointerIsNewer(sys, w.proc);
    AppendKeepsOrder(sys.pointers, own);
    forall id: IncidentId ensures CurrentInv(sys'.store, sys'.pointers, id) {
      assert CurrentInv(sys.store, sys.pointers, id);
      AppendKeepsCurrent(sys.store, sys.pointers, own, id);
    }
  }

  lemma CommittedIsGood(sys: Sys, w: Work)
    requires CommitsInv(sys) && WorkInv(sys, w) && w.IndexWork?
    ensures w.basis.Some? ==> GoodIndex(sys.anchor, w.basis.value) && EntriesBacked(sys.pointers, w.basis.value)
  {
    if w.basis.Some? {
      var k :| 0 <= k < |sys.commits| && sys.commits[k].index == w.basis.value;
      assert CommitInv(sys.anchor, sys.store, sys.pointers, sys.commits, k);
    }
  }

  lemma BackingGrows(pointers: seq<Pointer>, pointers': seq<Pointer>, ix: Index)
    requires pointers <= pointers' && EntriesBacked(pointers, ix)
    ensures EntriesBacked(pointers', ix)
  {
    forall id <- ix.entries ensures EntryBacked(pointers', id, ix.entries[id]) {
      assert EntryBacked(pointers, id, ix.entries[id]);
      var k :| 0 <= k < |pointers| && pointers[k].incident == id && pointers[k].version == ix.entries[id].version
               && ix.entries[id].pointerSha == Sha(PointerDoc(pointers[k]));
      assert pointers'[k] == pointers[k];
    }
  }

  lemma BuiltIndexEntries(anchor: Anchor, change: Change, basis: Option<Index>, r: Request)
    requires Build(anchor, change, basis) == Some(r)
    ensures !r.LiveRequest? && r.index == NextIndex(anchor, change, basis)
    ensures r.index.entries == NextEntries(anchor, change, basis)
    ensures r.previous == if basis.None? then None else Some(Sha(IndexDoc(basis.value)))
    ensures change.Publish? ==> r.IncidentRequest? && r.pointer == PointerOf(anchor, change.body, change.at)
  {
  }

  /** Entries the change leaves alone are backed already; its own is backed by its own pointer. */
  lemma NextIsBacked(anchor: Anchor, pointers: seq<Pointer>, change: Change, basis: Option<Index>)
    requires basis.Some? ==> EntriesBacked(pointers, basis.value)
    requires change.Publish? ==> PointerOf(anchor, change.body, change.at) in pointers
    ensures forall id <- NextEntries(anchor, change, basis) ::
              EntryBacked(pointers, id, NextEntries(anchor, change, basis)[id])
  {
    var next := NextEntries(anchor, change, basis);
    forall id <- next ensures EntryBacked(pointers, id, next[id]) {
      if basis.Some? && id in basis.value.entries && basis.value.entries[id] == next[id] {
        assert EntryBacked(pointers, id, basis.value.entries[id]);
      }
    }
  }

  /** The swap succeeded, so what it replaced is what the request was built from. */
  lemma SwapReplacesTheBasis(sys: Sys, w: Work)
    requires CommitsInv(sys) && WorkInv(sys, w) && w.IndexWork? && w.proc.pc.WritingIndex?
    requires Unchanged(sys.store, ActiveIndex, w.proc.pc.basis)
    ensures w.basis == BasisAt(sys.commits, |sys.commits|)
    ensures w.basis.Some? ==> w.basis.value.publishedAt < w.proc.request.index.publishedAt
  {
    BuiltIndexEntries(sys.anchor, w.change, w.basis, w.proc.request);
  }

  /** The index a process is about to publish, once everything it needs is stored. */
  lemma NextIndexIsReady(sys: Sys, w: Work)
    requires CommitsInv(sys) && WorkInv(sys, w) && w.IndexWork? && w.proc.pc.WritingIndex?
    ensures w.proc.request.index == NextIndex(sys.anchor, w.change, w.basis)
    ensures IndexStored(sys.anchor, sys.store, w.proc.request.index)
    ensures EntriesBacked(sys.pointers, w.proc.request.index)
  {
    CommittedIsGood(sys, w);
    BuiltIndexEntries(sys.anchor, w.change, w.basis, w.proc.request);
    BuiltIsStored(sys.anchor, sys.store, w.change, w.basis, w.proc.request);
    NextIsBacked(sys.anchor, sys.pointers, w.change, w.basis);
  }

  lemma NewCommitInv(sys: Sys, s': Store, w: Work)
    requires CommitsInv(sys) && WorkInv(sys, w) && w.IndexWork? && w.proc.pc.WritingIndex?
    requires Unchanged(sys.store, ActiveIndex, w.proc.pc.basis)
    requires Grows(sys.store, s')
    ensures CommitInv(sys.anchor, s', sys.pointers,
              sys.commits + [Commit(w.change, w.basis, w.proc.request.index)], |sys.commits|)
  {
    SwapReplacesTheBasis(sys, w);
    NextIndexIsReady(sys, w);
    GrowthKeepsIndex(sys.anchor, sys.store, s', w.proc.request.index);
    var commits' := sys.commits + [Commit(w.change, w.basis, w.proc.request.index)];
    assert BasisAt(commits', |sys.commits|) == BasisAt(sys.commits, |sys.commits|);
  }

  lemma OldCommitsInv(anchor: Anchor, s: Store, s': Store, pointers: seq<Pointer>, pointers': seq<Pointer>,
                      commits: seq<Commit>, commits': seq<Commit>, k: nat)
    requires k < |commits| && CommitInv(anchor, s, pointers, commits, k)
    requires Grows(s, s') && pointers <= pointers' && commits <= commits'
    ensures CommitInv(anchor, s', pointers', commits', k)
  {
    GrowthKeepsIndex(anchor, s, s', commits[k].index);
    BackingGrows(pointers, pointers', commits[k].index);
    assert commits'[k] == commits[k] && BasisAt(commits', k) == BasisAt(commits, k);
  }

  lemma ExtendedCommitsInv(sys: Sys, s': Store, w: Work, k: nat)
    requires CommitsInv(sys) && WorkInv(sys, w) && w.IndexWork? && w.proc.pc.WritingIndex?
    requires Unchanged(sys.store, ActiveIndex, w.proc.pc.basis)
    requires Grows(sys.store, s') && k <= |sys.commits|
    ensures CommitInv(sys.anchor, s', sys.pointers, sys.commits + [Commit(w.change, w.basis, w.proc.request.index)], k)
  {
    var commits' := sys.commits + [Commit(w.change, w.basis, w.proc.request.index)];
    if k == |sys.commits| {
      NewCommitInv(sys, s', w);
    } else {
      OldCommitsInv(sys.anchor, sys.store, s', sys.pointers, sys.pointers, sys.commits, commits', k);
    }
  }

  lemma CommitLogGrows(sys: Sys, sys': Sys, w: Work)
    requires StoreInv(sys) && CommitsInv(sys) && WorkInv(sys, w) && w.IndexWork? && w.proc.pc.WritingIndex?
    requires Unchanged(sys.store, ActiveIndex, w.proc.pc.basis)
    requires sys'.anchor == sys.anchor && sys'.store == Write(sys.store, IndexAsset(w.proc.request))
    requires sys'.pointers == sys.pointers
    requires sys'.commits == sys.commits + [Commit(w.change, w.basis, w.proc.request.index)]
    ensures CommitsInv(sys')
  {
    WriteGrows(sys.store, IndexAsset(w.proc.request));
    forall k | 0 <= k < |sys'.commits|
      ensures CommitInv(sys'.anchor, sys'.store, sys'.pointers, sys'.commits, k)
    {
      ExtendedCommitsInv(sys, sys'.store, w, k);
    }
  }

  /** The store grows and the mutable blob `n` is as it was. */
  ghost predicate Leaves(s: Store, t: Store, n: Name) {
    Grows(s, t) && (n in t.blobs <==> n in s.blobs) && (n in s.blobs ==> t.blobs[n] == s.blobs[n])
  }

  lemma WriteLeaves(s: Store, a: Asset)
    requires Mutable(a.name) || Fresh(s, a.name)
    requires forall n <- s.blobs :: s.blobs[n].stamp < s.clock
    ensures Grows(s, Write(s, a))
    ensures forall n: Name :: n != a.name ==> Leaves(s, Write(s, a), n)
  {
    WriteGrows(s, a);
  }

  /** A step that leaves active.json alone keeps everything said about its history. */
  lemma CommitsKept(sys: Sys, sys': Sys)
    requires CommitsInv(sys)
    requires sys'.anchor == sys.anchor && sys'.commits == sys.commits
    requires Leaves(sys.store, sys'.store, ActiveIndex) && sys.pointers <= sys'.pointers
    ensures CommitsInv(sys')
  {
    forall k | 0 <= k < |sys'.commits|
      ensures CommitInv(sys'.anchor, sys'.store, sys'.pointers, sys'.commits, k)
    {
      OldCommitsInv(sys.anchor, sys.store, sys'.store, sys.pointers, sys'.pointers, sys.commits, sys'.commits, k);
    }
  }

  lemma PointersKept(sys: Sys, sys': Sys)
    requires PointersInv(sys)
    requires sys'.anchor == sys.anchor && sys'.pointers == sys.pointers
    requires Grows(sys.store, sys'.store)
    requires forall id: IncidentId :: Leaves(sys.store, sys'.store, Current(id))
    ensures PointersInv(sys')
  {
    forall p <- sys'.pointers ensures PointerStored(sys.anchor, sys'.store, p) {
      GrowthKeepsPointer(sys.anchor, sys.store, sys'.store, p);
    }
    forall id: IncidentId ensures CurrentInv(sys'.store, sys'.pointers, id) {
      assert CurrentInv(sys.store, sys.pointers, id);
    }
  }

  lemma ManifestKept(sys: Sys, sys': Sys)
    requires ManifestInv(sys) && Leaves(sys.store, sys'.store, RuntimeManifest)
    ensures ManifestInv(sys')
  {
    if RuntimeManifest in sys.store.blobs {
      GrowthKeepsManifest(sys.store, sys'.store, sys.store.blobs[RuntimeManifest].payload.manifest);
    }
  }

  lemma ManifestWritten(s: Store, r: Request)
    requires r.LiveRequest? && |r.live| == 6 && InPlace(s, r, 6)
    requires forall n <- s.blobs :: s.blobs[n].stamp < s.clock
    ensures ManifestStored(Write(s, ManifestAsset(r)), ManifestOf(r))
  {
    forall k | 0 <= k < 6 ensures LiveStored(s, ManifestOf(r), k) { assert Holds(s, Assets(r)[k]); }
    WriteGrows(s, ManifestAsset(r));
    GrowthKeepsManifest(s, Write(s, ManifestAsset(r)), ManifestOf(r));
  }

  // ---- the step as a whole

  /** The called process itself keeps its part of the invariant. */
  lemma CallKeepsWork(sys: Sys, pid: nat, f: Fault)
    requires Inv(sys) && pid in sys.works
    ensures var sys' := CallStep(sys, pid, f); WorkInv(sys', sys'.works[pid])
  {
    var w := sys.works[pid];
    AdvanceKeepsProc(sys.anchor, w.proc, sys.store, f);
    if w.IndexWork? {
      BuiltIndexEntries(sys.anchor, w.change, w.basis, w.proc.request);
      if w.proc.request.IncidentRequest? { CallKeepsPastPointer(sys, pid, f); }
    }
  }

  lemma PointerFoundIsLogged(sys: Sys, p: Proc, f: Fault)
    requires PointersInv(sys) && p.pc.ReadingPointer? && p.request.IncidentRequest?
    requires ReadPointerStep(sys.anchor, p, sys.store, f).pc.ReadingIndex?
    ensures p.request.pointer in sys.pointers
  {
    var own := p.request.pointer;
    assert CurrentInv(sys.store, sys.pointers, own.incident);
    LastPointerIsNewest(sys.pointers, own.incident);
  }

  lemma EarlyStepsStayEarly(p: Proc, s: Store, f: Fault)
    requires WellPlaced(p) && p.request.IncidentRequest?
    ensures p.pc.Uploading? ==> !PastPointer(UploadStep(p, p.pc.i, s, f).0.pc)
    ensures p.pc.Recovering? ==> !PastPointer(RecoverStep(p, p.pc.i, s, f).pc)
  {
  }

  lemma PointerSwapIsLogged(sys: Sys, pid: nat, f: Fault)
    requires pid in sys.works && sys.works[pid].proc.pc.WritingPointer? && WellPlaced(sys.works[pid].proc)
    ensures var sys' := CallStep(sys, pid, f); var p' := sys'.works[pid].proc;
            PastPointer(p'.pc) ==> p'.request == sys.works[pid].proc.request && p'.request.pointer in sys'.pointers
  {
    var p := sys.works[pid].proc;
    var a := PointerAsset(p.request);
    SwappedOrUnchanged(p, a, Unchanged(sys.store, a.name, p.pc.basis), ReadingIndex, sys.store, f);
    assert sys.store.clock != Write(sys.store, a).clock;
  }

  lemma EarlyCallStaysEarly(sys: Sys, pid: nat, f: Fault)
    requires pid in sys.works && WellPlaced(sys.works[pid].proc) && sys.works[pid].proc.request.IncidentRequest?
    requires sys.works[pid].proc.pc.Uploading? || sys.works[pid].proc.pc.Recovering?
    ensures !PastPointer(CallStep(sys, pid, f).works[pid].proc.pc)
  {
    EarlyStepsStayEarly(sys.works[pid].proc, sys.store, f);
  }

  lemma PointerReadIsLogged(sys: Sys, pid: nat, f: Fault)
    requires PointersInv(sys) && pid in sys.works && WellPlaced(sys.works[pid].proc)
    requires sys.works[pid].proc.pc.ReadingPointer?
    ensures var p' := CallStep(sys, pid, f).works[pid].proc;
            PastPointer(p'.pc) ==> p'.request == sys.works[pid].proc.request && p'.request.pointer in sys.pointers
  {
    var p := sys.works[pid].proc;
    ReadPointerProgresses(sys.anchor, p, sys.store, f);
    assert CallStep(sys, pid, f).works[pid].proc == ReadPointerStep(sys.anchor, p, sys.store, f);
    if ReadPointerStep(sys.anchor, p, sys.store, f).pc.ReadingIndex? { PointerFoundIsLogged(sys, p, f); }
  }

  /** Whoever is past the pointer swap of an incident has that pointer in the log. */
  lemma CallKeepsPastPointer(sys: Sys, pid: nat, f: Fault)
    requires PointersInv(sys) && pid in sys.works && WellPlaced(sys.works[pid].proc)
    requires var p := sys.works[pid].proc;
             p.request.IncidentRequest? && (PastPointer(p.pc) ==> p.request.pointer in sys.pointers)
    ensures var sys' := CallStep(sys, pid, f); var p' := sys'.works[pid].proc;
            PastPointer(p'.pc) ==> p'.request.IncidentRequest? && p'.request.pointer in sys'.pointers
  {
    var p := sys.works[pid].proc;
    if p.pc.Uploading? || p.pc.Recovering? {
      EarlyCallStaysEarly(sys, pid, f);
    } else if p.pc.ReadingPointer? {
      PointerReadIsLogged(sys, pid, f);
    } else if p.pc.WritingPointer? {
      PointerSwapIsLogged(sys, pid, f);
    } else {
      AdvanceProgresses(sys.anchor, p, sys.store, f);
    }
  }

  lemma UploadKeepsLogs(sys: Sys, sys': Sys, a: Asset)
    requires LogsInv(sys) && !Mutable(a.name) && Fresh(sys.store, a.name)
    requires sys'.anchor == sys.anchor && sys'.store == Write(sys.store, a)
    requires sys'.pointers == sys.pointers && sys'.commits == sys.commits
    ensures PointersInv(sys') && CommitsInv(sys') && ManifestInv(sys')
  {
    WriteLeaves(sys.store, a);
    PointersKept(sys, sys');
    CommitsKept(sys, sys');
    ManifestKept(sys, sys');
  }

  lemma PointerSwapKeepsLogs(sys: Sys, sys': Sys, w: Work)
    requires LogsInv(sys) && WorkInv(sys, w) && w.IndexWork? && w.proc.pc.WritingPointer?
    requires Unchanged(sys.store, Current(w.proc.request.pointer.incident), w.proc.pc.basis)
    requires sys'.anchor == sys.anchor && sys'.store == Write(sys.store, PointerAsset(w.proc.request))
    requires sys'.pointers == sys.pointers + [w.proc.request.pointer] && sys'.commits == sys.commits
    ensures PointersInv(sys') && CommitsInv(sys') && ManifestInv(sys')
  {
    WriteLeaves(sys.store, PointerAsset(w.proc.request));
    PointerLogGrows(sys, sys', w);
    CommitsKept(sys, sys');
    ManifestKept(sys, sys');
  }

  lemma IndexSwapKeepsLogs(sys: Sys, sys': Sys, w: Work)
    requires LogsInv(sys) && WorkInv(sys, w) && w.IndexWork? && w.proc.pc.WritingIndex?
    requires Unchanged(sys.store, ActiveIndex, w.proc.pc.basis)
    requires sys'.anchor == sys.anchor && sys'.store == Write(sys.store, IndexAsset(w.proc.request))
    requires sys'.pointers == sys.pointers
    requires sys'.commits == sys.commits + [Commit(w.change, w.basis, w.proc.request.index)]
    ensures PointersInv(sys') && CommitsInv(sys') && ManifestInv(sys')
  {
    CommitLogGrows(sys, sys', w);
    IndexWriteKeepsOthers(sys, sys', IndexAsset(w.proc.request));
  }

  lemma IndexWriteKeepsOthers(sys: Sys, sys': Sys, a: Asset)
    requires StoreInv(sys) && PointersInv(sys) && ManifestInv(sys) && a.name == ActiveIndex
    requires sys'.anchor == sys.anchor && sys'.store == Write(sys.store, a) && sys'.pointers == sys.pointers
    ensures PointersInv(sys') && ManifestInv(sys')
  {
    WriteLeaves(sys.store, a);
    PointersKept(sys, sys');
    ManifestKept(sys, sys');
  }

  lemma ManifestWriteKeepsLogs(sys: Sys, sys': Sys, w: Work)
    requires LogsInv(sys) && WorkInv(sys, w) && w.proc.pc.WritingManifest? && w.proc.request.LiveRequest?
    requires sys'.anchor == sys.anchor && sys'.store == Write(sys.store, ManifestAsset(w.proc.request))
    requires sys'.pointers == sys.pointers && sys'.commits == sys.commits
    ensures PointersInv(sys') && CommitsInv(sys') && ManifestInv(sys')
  {
    LiveRequestsAreLive(sys, w);
    ManifestWritten(sys.store, w.proc.request);
    WriteLeaves(sys.store, ManifestAsset(w.proc.request));
    PointersKept(sys, sys');
    CommitsKept(sys, sys');
  }

  lemma LiveRequestsAreLive(sys: Sys, w: Work)
    requires WorkInv(sys, w)
    ensures w.LiveWork? <==> w.proc.request.LiveRequest?
    ensures w.LiveWork? ==> |Assets(w.proc.request)| == 6
  {
    if w.IndexWork? { BuiltIndexEntries(sys.anchor, w.change, w.basis, w.proc.request); }
  }

  /** What one call does to the store and the logs, by program point. */
  lemma CallEffect(sys: Sys, pid: nat, f: Fault)
    requires pid in sys.works && WellPlaced(sys.works[pid].proc) && CallStep(sys, pid, f).store != sys.store
    ensures var p := sys.works[pid].proc; var s' := CallStep(sys, pid, f).store;
            match p.pc
            case Uploading(i) => s' == Write(sys.store, Assets(p.request)[i]) && Fresh(sys.store, Assets(p.request)[i].name)
            case WritingPointer(basis) =>
              s' == Write(sys.store, PointerAsset(p.request))
              && Unchanged(sys.store, Current(p.request.pointer.incident), basis)
            case WritingIndex(basis) =>
              s' == Write(sys.store, IndexAsset(p.request)) && Unchanged(sys.store, ActiveIndex, basis)
            case WritingManifest => s' == Write(sys.store, ManifestAsset(p.request))
            case _ => false
  {
    var p, s := sys.works[pid].proc, sys.store;
    match p.pc
    case WritingPointer(basis) =>
      var a := PointerAsset(p.request);
      SwappedOrUnchanged(p, a, Unchanged(s, a.name, basis), ReadingIndex, s, f);
    case WritingIndex(basis) =>
      SwappedOrUnchanged(p, IndexAsset(p.request), Unchanged(s, ActiveIndex, basis), Finished, s, f);
    case WritingManifest => SwappedOrUnchanged(p, ManifestAsset(p.request), true, Finished, s, f);
    case _ =>
  }

  lemma CallKeepsLogs(sys: Sys, pid: nat, f: Fault)
    requires LogsInv(sys) && pid in sys.works && WorkInv(sys, sys.works[pid])
    ensures var sys' := CallStep(sys, pid, f); PointersInv(sys') && CommitsInv(sys') && ManifestInv(sys')
  {
    var w := sys.works[pid];
    var sys' := CallStep(sys, pid, f);
    LiveRequestsAreLive(sys, w);
    if sys'.store == sys.store {
      LogsKept(sys, sys');
    } else {
      CallEffect(sys, pid, f);
      match w.proc.pc
      case Uploading(i) => UploadKeepsLogs(sys, sys', Assets(w.proc.request)[i]);
      case WritingPointer(basis) => PointerSwapKeepsLogs(sys, sys', w);
      case WritingIndex(basis) => IndexSwapKeepsLogs(sys, sys', w);
      case WritingManifest => ManifestWriteKeepsLogs(sys, sys', w);
      case _ =>
    }
  }

  lemma LogsKept(sys: Sys, sys': Sys)
    requires LogsInv(sys)
    requires sys'.anchor == sys.anchor && sys'.store == sys.store
    requires sys'.pointers == sys.pointers && sys'.commits == sys.commits
    ensures PointersInv(sys') && CommitsInv(sys') && ManifestInv(sys')
  {
    PointersKept(sys, sys');
    CommitsKept(sys, sys');
    ManifestKept(sys, sys');
  }

  lemma CallKeepsInv(sys: Sys, pid: nat, f: Fault)
    requires Inv(sys) && pid in sys.works
    ensures Inv(CallStep(sys, pid, f)) && Grows(sys.store, CallStep(sys, pid, f).store)
  {
    var sys' := CallStep(sys, pid, f);
    AdvanceGrows(sys.anchor, sys.works[pid].proc, sys.store, f);
    CallKeepsLogs(sys, pid, f);
    CallKeepsWork(sys, pid, f);
    CallKeepsOthers(sys, pid, f);
  }

  lemma CallKeepsOthers(sys: Sys, pid: nat, f: Fault)
    requires Inv(sys) && pid in sys.works
    ensures var sys' := CallStep(sys, pid, f);
            forall q <- sys'.works :: q != pid ==> WorkInv(sys', sys'.works[q])
  {
    var sys' := CallStep(sys, pid, f);
    AdvanceGrows(sys.anchor, sys.works[pid].proc, sys.store, f);
    forall q <- sys'.works | q != pid ensures WorkInv(sys', sys'.works[q]) {
      OthersKeepWork(sys, sys', sys.works[q]);
    }
  }

  lemma StartInv(s: Store, r: Request)
    requires |Assets(r)| > 0
    ensures ProcInv(s, Start(r)) && !PastPointer(Start(r).pc)
  {
  }

  /** Nothing but the processes changes, and only by a process at the start of an honest request. */
  lemma EnlistingKeepsInv(sys: Sys, pid: nat, w: Work)
    requires Inv(sys) && WorkInv(sys, w)
    ensures Inv(sys.(works := sys.works[pid := w]))
  {
    var sys' := sys.(works := sys.works[pid := w]);
    LogsKept(sys, sys');
    forall q <- sys'.works ensures WorkInv(sys', sys'.works[q]) {
      OthersKeepWork(sys, sys', sys'.works[q]);
    }
  }

  lemma BegunIsHonest(sys: Sys, change: Change)
    requires Inv(sys)
    ensures var basis := Snapshot(sys.store); var built := Build(sys.anchor, change, basis);
            built.Some? ==> WorkInv(sys, IndexWork(Start(built.value), change, basis))
  {
    var basis := Snapshot(sys.store);
    var built := Build(sys.anchor, change, basis);
    if built.Some? {
      StartInv(sys.store, built.value);
      if basis.Some? {
        assert sys.commits[|sys.commits| - 1].index == basis.value;
        assert Committed(sys.commits, basis.value);
      }
    }
  }

  lemma StepKeepsInv(sys: Sys, action: Action)
    requires Inv(sys)
    ensures Inv(Step(sys, action)) && Grows(sys.store, Step(sys, action).store)
    ensures Step(sys, action).anchor == sys.anchor
  {
    match action
    case Begin(pid, change) =>
      var basis := Snapshot(sys.store);
      var built := Build(sys.anchor, change, basis);
      BegunIsHonest(sys, change);
      if built.Some? { EnlistingKeepsInv(sys, pid, IndexWork(Start(built.value), change, basis)); }
    case BeginLive(pid, run, live, at) =>
      if |live| == 6 {
        StartInv(sys.store, LiveRequest(run, live, at));
        EnlistingKeepsInv(sys, pid, LiveWork(Start(LiveRequest(run, live, at))));
      }
    case Call(pid, f) =>
      if pid in sys.works { CallKeepsInv(sys, pid, f); }
    case Restart(pid) =>
      if pid in sys.works {
        var w := sys.works[pid];
        LiveRequestsAreLive(sys, w);
        StartInv(sys.store, w.proc.request);
        EnlistingKeepsInv(sys, pid, WithProc(w, Start(w.proc.request)));
      }
  }

  /** The invariant holds after every finite run of every set of publishers. */
  lemma {:induction false} ExecutionKeepsInv(sys: Sys, actions: seq<Action>)
    requires Inv(sys)
    ensures Inv(Execute(sys, actions)) && Grows(sys.store, Execute(sys, actions).store)
    ensures Execute(sys, actions).anchor == sys.anchor
    decreases |actions|
  {
    if actions != [] {
      var next := Step(sys, actions[0]);
      StepKeepsInv(sys, actions[0]);
      ExecutionKeepsInv(next, actions[1..]);
      GrowsTransitive(sys.store, next.store, Execute(sys, actions).store);
    }
  }
}
