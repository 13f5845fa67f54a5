/** Retrying a publication: a run that failed anywhere, with any of its effects applied or lost,
    leaves a store from which a clean run of the same request ends exactly as a clean run would
    have ended in the first place. */
module PublicationRetry {
  import opened IncidentDocuments
  import opened Publication

  ghost predicate InPlace(s: Store, r: Request, n: nat) {
    n <= |Assets(r)| && forall j :: 0 <= j < n ==> Holds(s, Assets(r)[j])
  }

  function StoredRef(s: Store, a: Asset): PinnedRef
    requires Holds(s, a)
  {
    PinnedRef(a.name, s.blobs[a.name].stamp, Sha(a.payload))
  }

  function RefsUpTo(s: Store, r: Request, n: nat): seq<PinnedRef>
    requires InPlace(s, r, n)
  {
    if r.LiveRequest? then []
    else seq(n, j requires 0 <= j < n => StoredRef(s, Assets(r)[j]))
  }

  ghost predicate AllInPlace(p: Proc, s: Store) {
    InPlace(s, p.request, |Assets(p.request)|) && p.refs == RefsUpTo(s, p.request, |Assets(p.request)|)
  }

  ghost predicate PointerInPlace(p: Proc, s: Store) {
    p.request.IncidentRequest? ==> Holds(s, PointerAsset(p.request))
  }

  /** What an undisturbed publisher knows about the store at each program point. */
  ghost predicate Knows(anchor: Anchor, p: Proc, s: Store) {
    && WellPlaced(p)
    && match p.pc
       case Uploading(i) => InPlace(s, p.request, i) && p.refs == RefsUpTo(s, p.request, i)
       case Recovering(i) => InPlace(s, p.request, i) && p.refs == RefsUpTo(s, p.request, i)
       case ReadingPointer => AllInPlace(p, s)
       case WritingPointer(_) =>
         AllInPlace(p, s) && ReadPointerStep(anchor, p.(pc := ReadingPointer), s, Smooth) == p
       case ReadingIndex => AllInPlace(p, s) && PointerInPlace(p, s)
       case WritingIndex(_) =>
         && AllInPlace(p, s) && PointerInPlace(p, s)
         && ReadIndexStep(anchor, p.(pc := ReadingIndex), s, Smooth) == p
       case WritingManifest => AllInPlace(p, s)
       case Finished =>
         && AllInPlace(p, s) && PointerInPlace(p, s)
         && (if p.request.LiveRequest? then Holds(s, ManifestAsset(p.request))
             else ActiveIndex in s.blobs && s.blobs[ActiveIndex].payload == IndexDoc(p.request.index))
       case Stopped(_) => true
  }

  function Calm(anchor: Anchor, p: Proc, s: Store): (Proc, Store)
    requires WellPlaced(p)
  {
    Run(anchor, p, s, CALM, 0)
  }

  lemma {:induction false} CalmIgnoresTicks(anchor: Anchor, p: Proc, s: Store, t: nat, u: nat)
    requires WellPlaced(p)
    ensures Run(anchor, p, s, CALM, t) == Run(anchor, p, s, CALM, u)
    decreases Remaining(p)
  {
    if !Terminal(p.pc) {
      AdvanceProgresses(anchor, p, s, Smooth);
      var (p', s') := Advance(anchor, p, s, Smooth);
      CalmIgnoresTicks(anchor, p', s', t + 1, u + 1);
    }
  }

  lemma CalmStep(anchor: Anchor, p: Proc, s: Store)
    requires WellPlaced(p) && !Terminal(p.pc)
    ensures var (p', s') := Advance(anchor, p, s, Smooth);
            WellPlaced(p') && Calm(anchor, p, s) == Calm(anchor, p', s')
  {
    AdvanceProgresses(anchor, p, s, Smooth);
    var (p', s') := Advance(anchor, p, s, Smooth);
    CalmIgnoresTicks(anchor, p', s', 1, 0);
  }

  /** The process that has just secured the first `n` assets. */
  function AtAsset(s: Store, r: Request, n: nat): Proc
    requires InPlace(s, r, n)
  {
    Proc(r, PcAtAsset(r, n), RefsUpTo(s, r, n))
  }

  lemma SecuredIsAtAsset(s: Store, r: Request, n: nat, pc: Pc)
    requires InPlace(s, r, n + 1)
    ensures Secured(Proc(r, pc, RefsUpTo(s, r, n)), n, s.blobs[Assets(r)[n].name].stamp) == AtAsset(s, r, n + 1)
  {
  }

  lemma SkipOne(anchor: Anchor, r: Request, s: Store, n: nat)
    requires InPlace(s, r, n + 1)
    ensures Calm(anchor, AtAsset(s, r, n), s) == Calm(anchor, AtAsset(s, r, n + 1), s)
  {
    var p := AtAsset(s, r, n);
    CalmStep(anchor, p, s);
    var q := p.(pc := Recovering(n));
    assert Advance(anchor, p, s, Smooth) == (q, s);
    CalmStep(anchor, q, s);
    SecuredIsAtAsset(s, r, n, Recovering(n));
    assert Advance(anchor, q, s, Smooth) == (AtAsset(s, r, n + 1), s);
  }

  /** A clean run passes over everything that is already in place. */
  lemma {:induction false} SkipUploads(anchor: Anchor, r: Request, s: Store, n: nat)
    requires InPlace(s, r, n)
    ensures Calm(anchor, Start(r), s) == Calm(anchor, AtAsset(s, r, n), s)
  {
    if n == 0 {
      assert RefsUpTo(s, r, 0) == [];
    } else {
      SkipUploads(anchor, r, s, n - 1);
      SkipOne(anchor, r, s, n - 1);
    }
  }

  lemma WritingKeepsOthers(s: Store, r: Request, n: nat, a: Asset)
    requires InPlace(s, r, n)
    requires Mutable(a.name) || exists k :: n <= k < |Assets(r)| && Assets(r)[k] == a
    ensures InPlace(Write(s, a), r, n) && RefsUpTo(Write(s, a), r, n) == RefsUpTo(s, r, n)
  {
    forall j | 0 <= j < n ensures Assets(r)[j].name != a.name && Holds(Write(s, a), Assets(r)[j]) {
      assert Holds(s, Assets(r)[j]);
    }
  }

  // ---------------------------------------------------------------- one step

  ghost predicate SameContents(s: Store, t: Store) {
    s.blobs.Keys == t.blobs.Keys
    && forall n <- s.blobs :: s.blobs[n].(stamp := 0) == t.blobs[n].(stamp := 0)
  }

  /** Exactly the same outcome; for a live run, whose manifest is overwritten unconditionally, the
      same up to the stamps of the blobs. */
  ghost predicate SameOutcome(a: (Proc, Store), b: (Proc, Store)) {
    && a.0 == b.0
    && (if a.0.request.LiveRequest? then SameContents(a.1, b.1) else a.1 == b.1)
  }

  /** Applying the `n`-th upload is exactly the step a clean run takes. */
  lemma UploadIsACalmStep(anchor: Anchor, r: Request, s: Store, n: nat)
    requires n < |Assets(r)| && InPlace(s, r, n) && Fresh(s, Assets(r)[n].name)
    ensures var s' := Write(s, Assets(r)[n]);
            && InPlace(s', r, n + 1)
            && AtAsset(s', r, n + 1) == Secured(AtAsset(s, r, n), n, s.clock)
            && Calm(anchor, AtAsset(s, r, n), s) == Calm(anchor, AtAsset(s', r, n + 1), s')
  {
    var a := Assets(r)[n];
    var s' := Write(s, a);
    var p := AtAsset(s, r, n);
    WritingKeepsOthers(s, r, n, a);
    assert InPlace(s', r, n + 1);
    SecuredIsAtAsset(s', r, n, Uploading(n));
    assert UploadStep(p, n, s, Smooth) == (Secured(p, n, s.clock), s');
    assert Advance(anchor, p, s, Smooth) == UploadStep(p, n, s, Smooth);
    CalmStep(anchor, p, s);
  }

  /** What one upload does: it is applied only to a free name, and a publisher takes the asset for
      stored only if it was. */
  lemma UploadedOrUnchanged(p: Proc, i: nat, s: Store, f: Fault)
    requires i < |Assets(p.request)|
    ensures var (p', s') := UploadStep(p, i, s, f); var a := Assets(p.request)[i];
            && (s' == s || (Fresh(s, a.name) && s' == Write(s, a)))
            && ((p'.pc.Stopped? && p'.request == p.request) || p' == p.(pc := Recovering(i))
                || (p' == Secured(p, i, s.clock) && s' == Write(s, a)))
  {
  }

  lemma UploadKeepsKnowledge(anchor: Anchor, p: Proc, s: Store, f: Fault)
    requires Knows(anchor, p, s) && p.pc.Uploading?
    ensures var (p', s') := UploadStep(p, p.pc.i, s, f); Knows(anchor, p', s')
  {
    var i := p.pc.i;
    var r := p.request;
    var (p', s') := UploadStep(p, i, s, f);
    UploadedOrUnchanged(p, i, s, f);
    assert p == AtAsset(s, r, i);
    if s' != s {
      UploadIsACalmStep(anchor, r, s, i);
      WritingKeepsOthers(s, r, i, Assets(r)[i]);
    }
  }

  lemma UploadKeepsOutcome(anchor: Anchor, p: Proc, s: Store, f: Fault)
    requires Knows(anchor, p, s) && p.pc.Uploading?
    ensures var (p', s') := UploadStep(p, p.pc.i, s, f);
            Calm(anchor, Start(p.request), s') == Calm(anchor, Start(p.request), s)
  {
    var i := p.pc.i;
    var r := p.request;
    UploadedOrUnchanged(p, i, s, f);
    var s' := UploadStep(p, i, s, f).1;
    if s' != s {
      UploadIsACalmStep(anchor, r, s, i);
      SkipUploads(anchor, r, s, i);
      SkipUploads(anchor, r, s', i + 1);
    }
  }

  lemma RecoverKeepsKnowledge(anchor: Anchor, p: Proc, s: Store, f: Fault)
    requires Knows(anchor, p, s) && p.pc.Recovering?
    ensures Knows(anchor, RecoverStep(p, p.pc.i, s, f), s)
  {
    var i := p.pc.i;
    if Readable(f) && Holds(s, Assets(p.request)[i]) {
      assert InPlace(s, p.request, i + 1);
      SecuredIsAtAsset(s, p.request, i, p.pc);
      NextIsKnown(anchor, p.request, s, i + 1);
    }
  }

  lemma NextIsKnown(anchor: Anchor, r: Request, s: Store, n: nat)
    requires InPlace(s, r, n) && WellPlaced(AtAsset(s, r, n))
    ensures Knows(anchor, AtAsset(s, r, n), s)
  {
  }

  lemma ReadPointerKeepsKnowledge(anchor: Anchor, p: Proc, s: Store, f: Fault)
    requires Knows(anchor, p, s) && p.pc.ReadingPointer?
    ensures Knows(anchor, ReadPointerStep(anchor, p, s, f), s)
  {
    var p' := ReadPointerStep(anchor, p, s, f);
    assert p'.request == p.request;
    if p'.pc.WritingPointer? {
      assert p'.(pc := ReadingPointer) == p;
      assert ReadPointerStep(anchor, p, s, Smooth) == p';
    }
  }

  lemma ReadIndexKeepsKnowledge(anchor: Anchor, p: Proc, s: Store, f: Fault)
    requires Knows(anchor, p, s) && p.pc.ReadingIndex?
    ensures Knows(anchor, ReadIndexStep(anchor, p, s, f), s)
  {
    var p' := ReadIndexStep(anchor, p, s, f);
    assert p'.request == p.request;
    if p'.pc.WritingIndex? {
      assert p'.(pc := ReadingIndex) == p;
      assert ReadIndexStep(anchor, p, s, Smooth) == p';
    }
  }

  /** With everything up to the index swap already in place, a clean run goes straight to reading
      the index. */
  lemma SkipToIndex(anchor: Anchor, p: Proc, s: Store)
    requires AllInPlace(p, s) && PointerInPlace(p, s) && !p.request.LiveRequest?
    ensures Calm(anchor, Start(p.request), s) == Calm(anchor, p.(pc := ReadingIndex), s)
  {
    var r := p.request;
    if r.IncidentRequest? {
      SkipToPointer(anchor, p, s);
      CalmStep(anchor, p.(pc := ReadingPointer), s);
    } else {
      SkipUploads(anchor, r, s, |Assets(r)|);
    }
  }

  lemma SkipToPointer(anchor: Anchor, p: Proc, s: Store)
    requires AllInPlace(p, s) && p.request.IncidentRequest?
    ensures Calm(anchor, Start(p.request), s) == Calm(anchor, p.(pc := ReadingPointer), s)
  {
    var r := p.request;
    SkipUploads(anchor, r, s, |Assets(r)|);
    assert AtAsset(s, r, |Assets(r)|) == p.(pc := ReadingPointer);
  }

  lemma CleanPointerSwap(anchor: Anchor, p: Proc, s: Store, a: Asset)
    requires Knows(anchor, p, s) && p.pc.WritingPointer? && a == PointerAsset(p.request)
    requires Unchanged(s, a.name, p.pc.basis)
    requires AllInPlace(p, Write(s, a)) && PointerInPlace(p, Write(s, a))
    ensures Calm(anchor, Start(p.request), s) == Calm(anchor, Start(p.request), Write(s, a))
  {
    var s' := Write(s, a);
    SkipToPointer(anchor, p, s);
    CalmStep(anchor, p.(pc := ReadingPointer), s);
    CalmStep(anchor, p, s);
    assert Advance(anchor, p, s, Smooth) == (p.(pc := ReadingIndex), s');
    SkipToIndex(anchor, p, s');
  }

  lemma PointerSwapKeepsOutcome(anchor: Anchor, p: Proc, s: Store, f: Fault)
    requires Knows(anchor, p, s) && p.pc.WritingPointer?
    ensures var a := PointerAsset(p.request);
            var (p', s') := SwapStep(p, a, Unchanged(s, a.name, p.pc.basis), ReadingIndex, s, f);
            Knows(anchor, p', s') && Calm(anchor, Start(p.request), s') == Calm(anchor, Start(p.request), s)
  {
    var r := p.request;
    var a := PointerAsset(r);
    SwappedOrUnchanged(p, a, Unchanged(s, a.name, p.pc.basis), ReadingIndex, s, f);
    var s' := SwapStep(p, a, Unchanged(s, a.name, p.pc.basis), ReadingIndex, s, f).1;
    WritingKeepsOthers(s, r, |Assets(r)|, a);
    if s' != s { CleanPointerSwap(anchor, p, s, a); }
  }

  lemma IndexSwapKeepsOutcome(anchor: Anchor, p: Proc, s: Store, f: Fault)
    requires Knows(anchor, p, s) && p.pc.WritingIndex?
    ensures var (p', s') := SwapStep(p, IndexAsset(p.request), Unchanged(s, ActiveIndex, p.pc.basis), Finished, s, f);
            Knows(anchor, p', s') && Calm(anchor, Start(p.request), s') == Calm(anchor, Start(p.request), s)
  {
    var r := p.request;
    SwappedOrUnchanged(p, IndexAsset(r), Unchanged(s, ActiveIndex, p.pc.basis), Finished, s, f);
    var s' := SwapStep(p, IndexAsset(r), Unchanged(s, ActiveIndex, p.pc.basis), Finished, s, f).1;
    WritingKeepsOthers(s, r, |Assets(r)|, IndexAsset(r));
    assert PointerInPlace(p, Write(s, IndexAsset(r)));
    if s' != s { CleanIndexSwap(anchor, p, s); }
  }

  lemma CleanIndexSwap(anchor: Anchor, p: Proc, s: Store)
    requires Knows(anchor, p, s) && p.pc.WritingIndex?
    requires Unchanged(s, ActiveIndex, p.pc.basis)
    requires AllInPlace(p, Write(s, IndexAsset(p.request))) && PointerInPlace(p, Write(s, IndexAsset(p.request)))
    ensures var s' := Write(s, IndexAsset(p.request));
            Calm(anchor, Start(p.request), s) == Calm(anchor, Start(p.request), s') == (p.(pc := Finished), s')
  {
    var s' := Write(s, IndexAsset(p.request));
    var q := p.(pc := ReadingIndex);
    SkipToIndex(anchor, p, s);
    SkipToIndex(anchor, p, s');
    CalmStep(anchor, q, s);
    CalmStep(anchor, p, s);
    assert Advance(anchor, p, s, Smooth) == (p.(pc := Finished), s');
    CalmStep(anchor, q, s');
    assert Advance(anchor, q, s', Smooth) == (p.(pc := Finished), s');
  }

  /** With every asset in place, a clean live run writes its manifest over whatever is there. */
  lemma CleanManifest(anchor: Anchor, p: Proc, s: Store)
    requires AllInPlace(p, s) && p.pc.WritingManifest? && p.request.LiveRequest?
    ensures Calm(anchor, Start(p.request), s) == (p.(pc := Finished), Write(s, ManifestAsset(p.request)))
  {
    var r := p.request;
    SkipUploads(anchor, r, s, |Assets(r)|);
    assert AtAsset(s, r, |Assets(r)|) == p;
    CalmStep(anchor, p, s);
    assert Advance(anchor, p, s, Smooth) == (p.(pc := Finished), Write(s, ManifestAsset(r)));
  }

  lemma ManifestKeepsContents(anchor: Anchor, p: Proc, s: Store, f: Fault)
    requires Knows(anchor, p, s) && p.pc.WritingManifest?
    ensures var (p', s') := SwapStep(p, ManifestAsset(p.request), true, Finished, s, f);
            Knows(anchor, p', s')
            && SameOutcome(Calm(anchor, Start(p.request), s'), Calm(anchor, Start(p.request), s))
  {
    var r := p.request;
    var a := ManifestAsset(r);
    SwappedOrUnchanged(p, a, true, Finished, s, f);
    WritingKeepsOthers(s, r, |Assets(r)|, a);
    CleanManifest(anchor, p, s);
    CleanManifest(anchor, p, Write(s, a));
  }

  lemma StepKeepsOutcome(anchor: Anchor, p: Proc, s: Store, f: Fault)
    requires Knows(anchor, p, s)
    ensures var (p', s') := Advance(anchor, p, s, f);
            Knows(anchor, p', s') && p'.request == p.request
            && SameOutcome(Calm(anchor, Start(p.request), s'), Calm(anchor, Start(p.request), s))
  {
    AdvanceProgresses(anchor, p, s, f);
    match p.pc
    case Uploading(_) => UploadKeepsKnowledge(anchor, p, s, f); UploadKeepsOutcome(anchor, p, s, f);
    case Recovering(_) => RecoverKeepsKnowledge(anchor, p, s, f);
    case ReadingPointer => ReadPointerKeepsKnowledge(anchor, p, s, f);
    case ReadingIndex => ReadIndexKeepsKnowledge(anchor, p, s, f);
    case WritingPointer(_) => PointerSwapKeepsOutcome(anchor, p, s, f);
    case WritingIndex(_) => IndexSwapKeepsOutcome(anchor, p, s, f);
    case WritingManifest => ManifestKeepsContents(anchor, p, s, f);
    case _ =>
  }

  // ---------------------------------------------------------------- whole runs

  lemma {:induction false} RunKeepsOutcome(anchor: Anchor, p: Proc, s: Store, weather: Weather, tick: nat)
    requires Knows(anchor, p, s)
    ensures var (q, t) := Run(anchor, p, s, weather, tick);
            Knows(anchor, q, t) && q.request == p.request && Terminal(q.pc)
            && SameOutcome(Calm(anchor, Start(p.request), t), Calm(anchor, Start(p.request), s))
    decreases Remaining(p)
  {
    if !Terminal(p.pc) {
      StepKeepsOutcome(anchor, p, s, weather(tick));
      AdvanceProgresses(anchor, p, s, weather(tick));
      var (p', s') := Advance(anchor, p, s, weather(tick));
      RunKeepsOutcome(anchor, p', s', weather, tick + 1);
    }
  }

  /** The store after any number of attempts at the same request, each in its own weather. */
  function Attempts(anchor: Anchor, r: Request, s: Store, weathers: seq<Weather>): Store
    decreases |weathers|
  {
    if weathers == [] then s
    else Attempts(anchor, r, Run(anchor, Start(r), s, weathers[0], 0).1, weathers[1..])
  }

  /** Retry convergence. However many attempts at a request failed, and wherever they failed, a clean
      retry ends as a clean first attempt would have: same result, same references, same store. */
  lemma {:induction false} RetryConverges(anchor: Anchor, r: Request, s: Store, weathers: seq<Weather>)
    ensures SameOutcome(Undisturbed(anchor, r, Attempts(anchor, r, s, weathers)), Undisturbed(anchor, r, s))
    decreases |weathers|
  {
    if weathers != [] {
      var s' := Run(anchor, Start(r), s, weathers[0], 0).1;
      RunKeepsOutcome(anchor, Start(r), s, weathers[0], 0);
      RetryConverges(anchor, r, s', weathers[1..]);
    }
  }

  /** Whatever the weather, a publisher that reports success has everything stored, and every
      reference it returns names the stored version that holds exactly the asset's payload. */
  lemma SuccessIsStored(anchor: Anchor, r: Request, s: Store, weather: Weather)
    requires Run(anchor, Start(r), s, weather, 0).0.pc.Finished?
    ensures var (q, t) := Run(anchor, Start(r), s, weather, 0);
            && (forall a <- Assets(r) :: Holds(t, a))
            && (!r.LiveRequest? ==>
                  && |q.refs| == |Assets(r)|
                  && (forall i :: 0 <= i < |q.refs| ==>
                        && Holds(t, Assets(r)[i]) && q.refs[i] == StoredRef(t, Assets(r)[i]))
                  && ActiveIndex in t.blobs && t.blobs[ActiveIndex].payload == IndexDoc(r.index))
            && (r.IncidentRequest? ==> Holds(t, PointerAsset(r)))
            && (r.LiveRequest? ==> Holds(t, ManifestAsset(r)))
  {
    RunKeepsOutcome(anchor, Start(r), s, weather, 0);
    var (q, t) := Run(anchor, Start(r), s, weather, 0);
    assert InPlace(t, r, |Assets(r)|);
    forall a <- Assets(r) ensures Holds(t, a) {
      var j :| 0 <= j < |Assets(r)| && Assets(r)[j] == a;
    }
  }
}
