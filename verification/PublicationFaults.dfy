/** How one publication ends under any failures, with nobody else writing: which failed calls are made good
    within the call itself, and what the first one that is not leaves behind. */
module PublicationFaults {

  import opened Options
  import opened IncidentDocuments
  import opened Publication
  import opened PublicationRetry
  import opened PublicationSuccess

  // ---------------------------------------------------------------- what a fault means

  /** The request arrived, whatever became of the answer. */
  ghost predicate Arrives(f: Fault) { f != NotSent && f != ErrorBefore }

  /** The answer came back and is no error. */
  ghost predicate Answered(f: Fault) { f == Smooth || f == NoVersion }

  /** The faults a publisher makes good itself: a missing version id, and, for the documents of an incident,
      a connection lost while uploading, unless it was lost before anything got there. */
  ghost predicate MadeGood(p: Proc, s: Store, f: Fault)
    requires WellPlaced(p)
  {
    || Answered(f)
    || (&& p.pc.Uploading? && !p.request.LiveRequest?
        && (f == LostResponse || (f == NotSent && Assets(p.request)[p.pc.i].name in s.blobs)))
  }

  /** What the call writes if it arrives. */
  ghost function Written(p: Proc, s: Store): Option<Asset>
    requires WellPlaced(p)
  {
    match p.pc
    case Uploading(i) => if Assets(p.request)[i].name in s.blobs then None else Some(Assets(p.request)[i])
    case WritingPointer(basis) => if Unchanged(s, Current(p.request.pointer.incident), basis) then Some(PointerAsset(p.request)) else None
    case WritingIndex(basis) => if Unchanged(s, ActiveIndex, basis) then Some(IndexAsset(p.request)) else None
    case WritingManifest => Some(ManifestAsset(p.request))
    case _ => None
  }

  ghost function Left(p: Proc, s: Store, f: Fault): Store
    requires WellPlaced(p)
  {
    if Arrives(f) && Written(p, s).Some? then Write(s, Written(p, s).value) else s
  }

  /** What the caller is told: a document that cannot be found again is a conflict, and so is a pointer that
      the service refuses to return; everything else is a transport error. */
  ghost function Told(p: Proc, f: Fault): Error {
    match p.pc
    case Uploading(_) => if f == NotSent && !p.request.LiveRequest? then Conflict else Transport
    case Recovering(_) => Conflict
    case ReadingPointer => if f == ErrorBefore || f == ErrorAfter then Conflict else Transport
    case _ => Transport
  }

  // ---------------------------------------------------------------- one call

  /** A call that is made good leaves the publisher where a faultless call would, possibly after one more read. */
  lemma MadeGoodIsCalm(anchor: Anchor, p: Proc, s: Store, f: Fault)
    requires WellPlaced(p) && !Terminal(p.pc) && MadeGood(p, s, f)
    ensures var (p', s') := Advance(anchor, p, s, f);
            WellPlaced(p') && Calm(anchor, p', s') == Calm(anchor, p, s)
  {
    AdvanceProgresses(anchor, p, s, f);
    CalmStep(anchor, p, s);
    if p.pc.Uploading? && !p.request.LiveRequest? && f != Smooth {
      var (p', s') := Advance(anchor, p, s, f);
      assert p' == p.(pc := Recovering(p.pc.i));
      CalmStep(anchor, p', s');
    }
  }

  /** A call that is not made good stops the publisher, or sends it to look for a document that is not there. */
  lemma HarmStops(anchor: Anchor, p: Proc, s: Store, f: Fault)
    requires WellPlaced(p) && !Terminal(p.pc) && !MadeGood(p, s, f)
    ensures var (p', s') := Advance(anchor, p, s, f);
            && s' == Left(p, s, f)
            && (p' == Stop(p, Told(p, f))
                || (p.pc.Uploading? && Told(p, f) == Conflict && p' == p.(pc := Recovering(p.pc.i))
                    && Assets(p.request)[p.pc.i].name !in s'.blobs))
  {
  }

  lemma StoppedStays(anchor: Anchor, p: Proc, e: Error, s: Store, weather: Weather, tick: nat)
    ensures Run(anchor, Stop(p, e), s, weather, tick) == (Stop(p, e), s)
  {
  }

  /** What cannot be found cannot be recovered. */
  lemma RecoveryInVain(anchor: Anchor, p: Proc, s: Store, weather: Weather, tick: nat)
    requires WellPlaced(p) && p.pc.Recovering? && Assets(p.request)[p.pc.i].name !in s.blobs
    ensures Run(anchor, p, s, weather, tick) == (Stop(p, Conflict), s)
  {
    AdvanceProgresses(anchor, p, s, weather(tick));
    assert Advance(anchor, p, s, weather(tick)) == (Stop(p, Conflict), s);
    StoppedStays(anchor, p, Conflict, s, weather, tick + 1);
  }

  lemma HarmEnds(anchor: Anchor, p: Proc, s: Store, weather: Weather, tick: nat)
    requires WellPlaced(p) && !Terminal(p.pc) && !MadeGood(p, s, weather(tick))
    ensures Run(anchor, p, s, weather, tick) == (Stop(p, Told(p, weather(tick))), Left(p, s, weather(tick)))
  {
    var f := weather(tick);
    AdvanceProgresses(anchor, p, s, f);
    HarmStops(anchor, p, s, f);
    var (p', s') := Advance(anchor, p, s, f);
    if p'.pc.Stopped? {
      StoppedStays(anchor, p, Told(p, f), s', weather, tick + 1);
    } else {
      RecoveryInVain(anchor, p', s', weather, tick + 1);
    }
  }

  // ---------------------------------------------------------------- the whole call

  datatype Moment = Moment(p: Proc, s: Store, f: Fault)

  /** The first call of a run whose fault is not made good, with the process and the store it meets. */
  ghost function FirstHarm(anchor: Anchor, p: Proc, s: Store, weather: Weather, tick: nat): (m: Option<Moment>)
    requires WellPlaced(p)
    ensures m.Some? ==> WellPlaced(m.value.p) && m.value.p.request == p.request
    decreases Remaining(p)
  {
    if Terminal(p.pc) then None
    else if !MadeGood(p, s, weather(tick)) then Some(Moment(p, s, weather(tick)))
    else
      var (p', s') := Advance(anchor, p, s, weather(tick));
      AdvanceProgresses(anchor, p, s, weather(tick));
      FirstHarm(anchor, p', s', weather, tick + 1)
  }

  /** Under any weather a run ends as the calm one does, or with the first fault that is not made good. */
  lemma {:induction false} EndsExactly(anchor: Anchor, p: Proc, s: Store, weather: Weather, tick: nat)
    requires WellPlaced(p)
    ensures var harm := FirstHarm(anchor, p, s, weather, tick);
            Run(anchor, p, s, weather, tick) ==
            if harm.None? then Calm(anchor, p, s)
            else (Stop(p, Told(harm.value.p, harm.value.f)), Left(harm.value.p, harm.value.s, harm.value.f))
    decreases Remaining(p)
  {
    if Terminal(p.pc) {
    } else if !MadeGood(p, s, weather(tick)) {
      HarmEnds(anchor, p, s, weather, tick);
    } else {
      var (p', s') := Advance(anchor, p, s, weather(tick));
      AdvanceProgresses(anchor, p, s, weather(tick));
      MadeGoodIsCalm(anchor, p, s, weather(tick));
      EndsExactly(anchor, p', s', weather, tick + 1);
    }
  }

  /** A publication succeeds exactly when the store it finds allows it and every fault it meets is made good. */
  lemma FinishesExactly(anchor: Anchor, r: Request, s: Store, weather: Weather)
    ensures Run(anchor, Start(r), s, weather, 0).0.pc.Finished?
            <==> Allows(anchor, s, r) && FirstHarm(anchor, Start(r), s, weather, 0).None?
  {
    EndsExactly(anchor, Start(r), s, weather, 0);
    SucceedsExactly(anchor, r, s);
  }
}
