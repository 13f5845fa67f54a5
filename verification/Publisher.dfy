/** The publishers as they run: storage objects that change call by call, methods that return at the
    first error. Each method is proved to do exactly what the step machine of `Publication` does. */
module Publisher {
  import opened Options
  import opened IncidentDocuments
  import opened Publication

  datatype Outcome<+T> = Success(value: T) | Failure(error: Error) {
    predicate IsFailure() { Failure? }
    function PropagateFailure<U>(): Outcome<U>
      requires Failure?
    {
      Failure(error)
    }
    function Extract(): T
      requires Success?
    {
      value
    }
  }

  /** One blob container behind an unreliable network. */
  class BlobContainer {
    var blobs: map<Name, Blob>
    var clock: nat
    var calls: nat
    const weather: Weather

    constructor (weather: Weather)
      ensures Contents() == Store(map[], 0) && calls == 0 && this.weather == weather
    {
      this.weather := weather;
      blobs, clock, calls := map[], 0, 0;
    }

    ghost function Contents(): Store
      reads this
    {
      Store(blobs, clock)
    }

    /** A conditional upload; `etag` is the stamp the current blob must have, if any. */
    method Upload(a: Asset, ifMissing: bool, etag: Option<nat>) returns (reply: Reply)
      modifies this
      ensures calls == old(calls) + 1
      ensures var condition := if ifMissing then Fresh(old(Contents()), a.name)
                               else etag.Some? ==> a.name in old(blobs) && old(blobs)[a.name].stamp == etag.value;
              (Contents(), reply) == Put(old(Contents()), a, condition, weather(old(calls)))
    {
      var fault := weather(calls);
      calls := calls + 1;
      if fault == NotSent { return ConnectionLost; }
      if fault == ErrorBefore { return HttpError; }
      var condition := if ifMissing then a.name !in blobs
                       else etag.Some? ==> a.name in blobs && blobs[a.name].stamp == etag.value;
      var version := clock;
      if condition {
        blobs := blobs[a.name := Blob(a.payload, Some(Sha(a.payload)), true, clock)];
        clock := clock + 1;
      }
      if fault == LostResponse { return ConnectionLost; }
      if fault == ErrorAfter { return HttpError; }
      return if !condition then Refused else if fault == NoVersion then StoredUnversioned else Stored(version);
    }

    method Download(n: Name) returns (fault: Fault, found: Option<Blob>)
      modifies this`calls
      ensures calls == old(calls) + 1 && fault == weather(old(calls))
      ensures found == if n in blobs then Some(blobs[n]) else None
    {
      fault := weather(calls);
      calls := calls + 1;
      found := if n in blobs then Some(blobs[n]) else None;
    }
  }

  // ---------------------------------------------------------------- specification of the sub-steps

  /** The reference recovered from the stored copy. */
  function Recovered(s: Store, a: Asset, f: Fault): Outcome<PinnedRef> {
    if Readable(f) && Holds(s, a) then Success(PinnedRef(a.name, s.blobs[a.name].stamp, Sha(a.payload))) else Failure(Conflict)
  }

  /** Result, store and number of calls made after uploading one immutable asset. */
  function UploadSpec(s: Store, a: Asset, weather: Weather, tick: nat): (Outcome<PinnedRef>, Store, nat) {
    var (s', reply) := Put(s, a, Fresh(s, a.name), weather(tick));
    match reply
    case Stored(version) => (Success(PinnedRef(a.name, version, Sha(a.payload))), s', tick + 1)
    case HttpError => (Failure(Transport), s', tick + 1)
    case _ =>
      (Recovered(s', a, weather(tick + 1)), s', tick + 2)
  }

  /** The process after securing its `i`-th asset under `ref`. */
  function SecuredAs(p: Proc, i: nat, ref: PinnedRef): Proc {
    Proc(p.request, PcAtAsset(p.request, i + 1), p.refs + [ref])
  }

  function AfterUpload(p: Proc, i: nat, r: Outcome<PinnedRef>): Proc {
    if r.Failure? then Stop(p, r.error) else SecuredAs(p, i, r.value)
  }

  lemma NextAsset(r: Request, i: nat, refs: seq<PinnedRef>, ref: PinnedRef)
    requires r.IncidentRequest? && i < 4
    ensures i < |Assets(r)| && SecuredAs(Proc(r, Uploading(i), refs), i, ref) == Proc(r, Uploading(i + 1), refs + [ref])
  {
  }

  lemma OneCall(anchor: Anchor, p: Proc, s: Store, weather: Weather, tick: nat)
    requires WellPlaced(p) && !Terminal(p.pc)
    ensures var (p1, s1) := Advance(anchor, p, s, weather(tick));
            WellPlaced(p1) && Run(anchor, p, s, weather, tick) == Run(anchor, p1, s1, weather, tick + 1)
  {
    AdvanceProgresses(anchor, p, s, weather(tick));
  }

  lemma RunUpload(anchor: Anchor, p: Proc, s: Store, weather: Weather, tick: nat)
    requires WellPlaced(p) && p.pc.Uploading? && !p.request.LiveRequest?
    ensures var (r, s', tick') := UploadSpec(s, Assets(p.request)[p.pc.i], weather, tick);
            WellPlaced(AfterUpload(p, p.pc.i, r))
            && Run(anchor, p, s, weather, tick) == Run(anchor, AfterUpload(p, p.pc.i, r), s', weather, tick')
  {
    var i := p.pc.i;
    var (p1, s1) := UploadStep(p, i, s, weather(tick));
    OneCall(anchor, p, s, weather, tick);
    if p1.pc.Recovering? {
      assert p1 == p.(pc := Recovering(i));
      RunRecovery(anchor, p, p1, i, s1, weather, tick + 1);
    }
  }

  lemma RecoveryIsAfterUpload(p: Proc, q: Proc, i: nat, s: Store, f: Fault)
    requires i < |Assets(p.request)| && q == p.(pc := Recovering(i)) && !p.request.LiveRequest?
    ensures RecoverStep(q, i, s, f) == AfterUpload(p, i, Recovered(s, Assets(p.request)[i], f))
  {
  }

  /** What recovery makes of the stored copy, and the run from there. */
  lemma RunRecovery(anchor: Anchor, p: Proc, q: Proc, i: nat, s: Store, weather: Weather, tick: nat)
    requires WellPlaced(q) && q == p.(pc := Recovering(i)) && i < |Assets(p.request)| && !p.request.LiveRequest?
    ensures var next := AfterUpload(p, i, Recovered(s, Assets(p.request)[i], weather(tick)));
            WellPlaced(next) && Run(anchor, q, s, weather, tick) == Run(anchor, next, s, weather, tick + 1)
  {
    OneCall(anchor, q, s, weather, tick);
    RecoveryIsAfterUpload(p, q, i, s, weather(tick));
    assert Advance(anchor, q, s, weather(tick)) == (RecoverStep(q, i, s, weather(tick)), s);
  }

  /** The process a caller has seen end with `r`. */
  function Ending(request: Request, r: Outcome<seq<PinnedRef>>): Proc {
    match r
    case Success(refs) => Proc(request, Finished, refs)
    case Failure(e) => Proc(request, Stopped(e), [])
  }

  /** A call whose run ends as `whole` has got as far as process `p` and the present container. */
  ghost predicate At(anchor: Anchor, container: BlobContainer, whole: (Proc, Store), p: Proc)
    reads container
  {
    WellPlaced(p) && Run(anchor, p, container.Contents(), container.weather, container.calls) == whole
  }

  // ---------------------------------------------------------------- the incident publisher

  class IncidentPublisher {
    const container: BlobContainer
    const anchor: Anchor

    constructor (container: BlobContainer, anchor: Anchor)
      ensures this.container == container && this.anchor == anchor
    {
      this.container := container;
      this.anchor := anchor;
    }

    method RecoverImmutableReference(a: Asset) returns (r: Outcome<PinnedRef>)
      modifies container`calls
      ensures container.calls == old(container.calls) + 1
      ensures r == Recovered(container.Contents(), a, container.weather(old(container.calls)))
    {
      var fault, found := container.Download(a.name);
      if !Readable(fault) || found.None? { return Failure(Conflict); }
      var existing := found.value;
      if existing.payload != a.payload || !existing.json || existing.metadata != Some(Sha(a.payload)) {
        return Failure(Conflict);
      }
      return Success(PinnedRef(a.name, existing.stamp, Sha(a.payload)));
    }

    /** The create-only upload; unless it reports a version or an HTTP error, the stored copy decides. */
    method UploadOrRecover(a: Asset) returns (r: Outcome<PinnedRef>)
      modifies container
      ensures (r, container.Contents(), container.calls)
           == UploadSpec(old(container.Contents()), a, container.weather, old(container.calls))
    {
      var reply := container.Upload(a, true, None);
      match reply {
        case Stored(version) => return Success(PinnedRef(a.name, version, Sha(a.payload)));
        case HttpError => return Failure(Transport);
        case _ => r := RecoverImmutableReference(a);
      }
    }

    /** Secures asset `i` for the process `p`, recovering the reference of a copy already stored. */
    method UploadImmutable(request: Request, i: nat, ghost whole: (Proc, Store), ghost p: Proc) returns (r: Outcome<PinnedRef>)
      requires !request.LiveRequest? && i < |Assets(request)|
      requires p.request == request && p.pc == Uploading(i) && At(anchor, container, whole, p)
      modifies container
      ensures At(anchor, container, whole, AfterUpload(p, i, r))
    {
      RunUpload(anchor, p, container.Contents(), container.weather, container.calls);
      r := UploadOrRecover(Assets(request)[i]);
    }

    /** Upload on the condition the basis stands for. */
    method Swap(a: Asset, basis: Option<Blob>) returns (r: Outcome<()>)
      modifies container
      ensures container.calls == old(container.calls) + 1
      ensures var s := old(container.Contents());
              var (s', reply) := Put(s, a, Unchanged(s, a.name, basis), container.weather(old(container.calls)));
              container.Contents() == s'
              && r == match reply
                      case Stored(_) => Success(())
                      case StoredUnversioned => Success(())
                      case Refused => Failure(Conflict)
                      case _ => Failure(Transport)
    {
      var reply := container.Upload(a, basis.None?, if basis.None? then None else Some(basis.value.stamp));
      match reply {
        case Stored(_) => return Success(());
        case StoredUnversioned => return Success(());
        case Refused => return Failure(Conflict);
        case _ => return Failure(Transport);
      }
    }

    /** From `p`, about to read current.json, to the process after the pointer swap. */
    method PublishCurrentPointer(request: Request, ghost whole: (Proc, Store), ghost p: Proc) returns (r: Outcome<()>)
      requires request.IncidentRequest? && p.request == request && p.pc == ReadingPointer
      requires At(anchor, container, whole, p)
      modifies container
      ensures At(anchor, container, whole, if r.Failure? then Stop(p, r.error) else p.(pc := ReadingIndex))
    {
      OneCall(anchor, p, container.Contents(), container.weather, container.calls);
      ghost var read := ReadPointerStep(anchor, p, container.Contents(), container.weather(container.calls));
      var fault, found := container.Download(Current(request.pointer.incident));
      if fault == NotSent || fault == LostResponse { return Failure(Transport); }
      if !Readable(fault) { return Failure(Conflict); }
      if found.Some? {
        var current := found.value;
        if !Intact(current) { return Failure(Conflict); }
        if current.payload == PointerDoc(request.pointer) { return Success(()); }
        if !current.payload.PointerDoc? { return Failure(Conflict); }
        var pointer := current.payload.pointer;
        if pointer.incident != request.pointer.incident || pointer.trust != anchor.trust
           || request.pointer.publishedAt <= pointer.publishedAt {
          return Failure(Conflict);
        }
      }
      assert read == p.(pc := WritingPointer(found));
      OneCall(anchor, read, container.Contents(), container.weather, container.calls);
      r := Swap(Asset(Current(request.pointer.incident), PointerDoc(request.pointer)), found);
    }

    method PublishActiveIndex(request: Request, ghost whole: (Proc, Store), ghost p: Proc) returns (r: Outcome<()>)
      requires !request.LiveRequest? && p.request == request && p.pc == ReadingIndex
      requires At(anchor, container, whole, p)
      modifies container
      ensures At(anchor, container, whole, if r.Failure? then Stop(p, r.error) else p.(pc := Finished))
    {
      OneCall(anchor, p, container.Contents(), container.weather, container.calls);
      ghost var read := ReadIndexStep(anchor, p, container.Contents(), container.weather(container.calls));
      var fault, found := container.Download(ActiveIndex);
      if !Readable(fault) { return Failure(Transport); }
      if found.None? {
        if request.previous.Some? { return Failure(Conflict); }
      } else {
        var current := found.value;
        if current.payload == IndexDoc(request.index) { return Success(()); }
        if request.previous.None? || Sha(current.payload) != request.previous.value { return Failure(Conflict); }
        if !current.payload.IndexDoc? { return Failure(Invalid); }
        var index := current.payload.index;
        if index.trust != anchor.trust || request.index.publishedAt <= index.publishedAt { return Failure(Conflict); }
      }
      assert read == p.(pc := WritingIndex(found));
      OneCall(anchor, read, container.Contents(), container.weather, container.calls);
      r := Swap(Asset(ActiveIndex, IndexDoc(request.index)), found);
    }

    /** Secures the first four assets, whose references the occurrence receipt will carry. */
    method UploadOccurrence(request: Request, ghost whole: (Proc, Store)) returns (r: Outcome<seq<PinnedRef>>)
      requires request.IncidentRequest? && At(anchor, container, whole, Start(request))
      modifies container
      ensures At(anchor, container, whole,
                 if r.Failure? then Ending(request, r) else Proc(request, Uploading(4), r.value))
    {
      var refs := [];
      var state :- UploadImmutable(request, 0, whole, Proc(request, Uploading(0), refs));
      NextAsset(request, 0, refs, state);
      refs := refs + [state];
      var stateAtt :- UploadImmutable(request, 1, whole, Proc(request, Uploading(1), refs));
      NextAsset(request, 1, refs, stateAtt);
      refs := refs + [stateAtt];
      var pointer :- UploadImmutable(request, 2, whole, Proc(request, Uploading(2), refs));
      NextAsset(request, 2, refs, pointer);
      refs := refs + [pointer];
      var pointerAtt :- UploadImmutable(request, 3, whole, Proc(request, Uploading(3), refs));
      NextAsset(request, 3, refs, pointerAtt);
      return Success(refs + [pointerAtt]);
    }

    method PublishIncident(request: Request) returns (r: Outcome<seq<PinnedRef>>)
      requires request.IncidentRequest? && AcceptedRequest(anchor, request)
      modifies container
      ensures Run(anchor, Start(request), old(container.Contents()), container.weather, old(container.calls))
                == (Ending(request, r), container.Contents())
    {
      ghost var whole := Run(anchor, Start(request), container.Contents(), container.weather, container.calls);
      var occurrence :- UploadOccurrence(request, whole);
      ghost var p4 := Proc(request, Uploading(4), occurrence);
      var indexAtt :- UploadImmutable(request, 4, whole, p4);
      ghost var p5 := SecuredAs(p4, 4, indexAtt);
      var _ :- PublishCurrentPointer(request, whole, p5);
      var _ :- PublishActiveIndex(request, whole, p5.(pc := ReadingIndex));
      return Success(occurrence + [indexAtt]);
    }

    method PublishActiveIncidentIndex(request: Request) returns (r: Outcome<seq<PinnedRef>>)
      requires request.HeartbeatRequest? && AcceptedRequest(anchor, request)
      modifies container
      ensures Run(anchor, Start(request), old(container.Contents()), container.weather, old(container.calls))
                == (Ending(request, r), container.Contents())
    {
      ghost var p0 := Start(request);
      ghost var whole := Run(anchor, p0, container.Contents(), container.weather, container.calls);
      var indexAtt :- UploadImmutable(request, 0, whole, p0);
      ghost var p1 := SecuredAs(p0, 0, indexAtt);
      assert p1 == Proc(request, ReadingIndex, [indexAtt]);
      var _ :- PublishActiveIndex(request, whole, p1);
      return Success([indexAtt]);
    }
  }

  // ---------------------------------------------------------------- the presentation publisher

  class PresentationPublisher {
    const container: BlobContainer
    const anchor: Anchor

    constructor (container: BlobContainer, anchor: Anchor)
      ensures this.container == container && this.anchor == anchor
    {
      this.container := container;
      this.anchor := anchor;
    }

    /** Puts live asset `i` in place, accepting a copy that is already stored if it is identical. */
    method PlaceAsset(request: Request, i: nat, ghost whole: (Proc, Store), ghost p: Proc) returns (r: Outcome<()>)
      requires request.LiveRequest? && i < |Assets(request)| && p == Proc(request, Uploading(i), [])
      requires At(anchor, container, whole, p)
      modifies container
      ensures At(anchor, container, whole, if r.Failure? then Stop(p, r.error) else p.(pc := PcAtAsset(request, i + 1)))
    {
      var a := Assets(request)[i];
      OneCall(anchor, p, container.Contents(), container.weather, container.calls);
      var reply := container.Upload(a, true, None);
      match reply {
        case Stored(_) => return Success(());
        case StoredUnversioned => return Success(());
        case Refused =>
          OneCall(anchor, p.(pc := Recovering(i)), container.Contents(), container.weather, container.calls);
          var fault, found := container.Download(a.name);
          if !Readable(fault) || found.None? { return Failure(Conflict); }
          var existing := found.value;
          if existing.payload != a.payload || !existing.json || existing.metadata != Some(Sha(a.payload)) {
            return Failure(Conflict);
          }
          return Success(());
        case _ => return Failure(Transport);
      }
    }

    /** Places every live asset, then overwrites the runtime manifest that names them. */
    method Publish(request: Request) returns (r: Outcome<Manifest>)
      requires request.LiveRequest? && AcceptedRequest(anchor, request)
      modifies container
      ensures Run(anchor, Start(request), old(container.Contents()), container.weather, old(container.calls))
                == (Proc(request, if r.Success? then Finished else Stopped(r.error), []), container.Contents())
      ensures r.Success? ==> r.value == ManifestOf(request)
    {
      ghost var before := Run(anchor, Start(request), container.Contents(), container.weather, container.calls);
      for i := 0 to |Assets(request)|
        invariant before == Run(anchor, Proc(request, PcAtAsset(request, i), []),
                                container.Contents(), container.weather, container.calls)
      {
        var _ :- PlaceAsset(request, i, before, Proc(request, Uploading(i), []));
      }
      OneCall(anchor, Proc(request, WritingManifest, []), container.Contents(), container.weather, container.calls);
      var reply := container.Upload(ManifestAsset(request), false, None);
      if reply.Stored? || reply.StoredUnversioned? { return Success(ManifestOf(request)); }
      return Failure(Transport);
    }
  }
}
