/** One publisher, one storage call at a time: the create-only uploads, the compare-and-swap on an
    incident's current pointer, and the compare-and-swap on the active index. */
module Publication {
  import opened Options
  import opened IncidentDocuments

  /** Every write gets a fresh stamp, which is both the version id and the etag of what it wrote. */
  datatype Blob = Blob(payload: Payload, metadata: Option<Digest>, json: bool, stamp: nat)

  datatype Store = Store(blobs: map<Name, Blob>, clock: nat)

  /** What the network does with one storage call. `NoVersion` is a good response that omits the
      version id; `LostResponse` and `ErrorAfter` reach the service and then fail. */
  datatype Fault = Smooth | NoVersion | LostResponse | NotSent | ErrorBefore | ErrorAfter

  datatype Reply = Stored(version: nat) | StoredUnversioned | Refused | ConnectionLost | HttpError

  datatype Error = Conflict | Transport | Invalid

  datatype PinnedRef = PinnedRef(name: Name, version: nat, digest: Digest)

  function Write(s: Store, a: Asset): Store {
    Store(s.blobs[a.name := Blob(a.payload, Some(Sha(a.payload)), true, s.clock)], s.clock + 1)
  }

  /** One conditional upload: applied only if the service's condition holds when it arrives. */
  function Put(s: Store, a: Asset, condition: bool, f: Fault): (Store, Reply) {
    if f == NotSent then (s, ConnectionLost)
    else if f == ErrorBefore then (s, HttpError)
    else
      (if condition then Write(s, a) else s,
       match f
       case LostResponse => ConnectionLost
       case ErrorAfter => HttpError
       case _ => if !condition then Refused
                 else if f == NoVersion then StoredUnversioned else Stored(s.clock))
  }

  predicate Fresh(s: Store, n: Name) {
    n !in s.blobs
  }

  predicate Unchanged(s: Store, n: Name, basis: Option<Blob>) {
    if basis.None? then Fresh(s, n) else n in s.blobs && s.blobs[n].stamp == basis.value.stamp
  }

  // ---------------------------------------------------------------- the program of one publisher

  datatype Pc =
    | Uploading(i: nat)
    | Recovering(i: nat)
    | ReadingPointer
    | WritingPointer(basis: Option<Blob>)
    | ReadingIndex
    | WritingIndex(basis: Option<Blob>)
    | WritingManifest
    | Finished
    | Stopped(error: Error)

  datatype Proc = Proc(request: Request, pc: Pc, refs: seq<PinnedRef>)

  predicate Terminal(pc: Pc) {
    pc.Finished? || pc.Stopped?
  }

  function PcAtAsset(r: Request, i: nat): Pc {
    if i < |Assets(r)| then Uploading(i)
    else match r
      case IncidentRequest(_, _, _, _, _, _, _) => ReadingPointer
      case HeartbeatRequest(_, _, _) => ReadingIndex
      case LiveRequest(_, _, _) => WritingManifest
  }

  function Start(r: Request): Proc {
    Proc(r, PcAtAsset(r, 0), [])
  }

  /** The pc fits the request: what the types of the source guarantee. */
  predicate WellPlaced(p: Proc) {
    match p.pc
    case Uploading(i) => i < |Assets(p.request)|
    case Recovering(i) => i < |Assets(p.request)|
    case ReadingPointer => p.request.IncidentRequest?
    case WritingPointer(_) => p.request.IncidentRequest?
    case ReadingIndex => !p.request.LiveRequest?
    case WritingIndex(_) => !p.request.LiveRequest?
    case WritingManifest => p.request.LiveRequest?
    case _ => true
  }

  /** Asset `i` is in place at `version`. Only an incident publication keeps the references. */
  function Secured(p: Proc, i: nat, version: nat): Proc
    requires i < |Assets(p.request)|
  {
    var a := Assets(p.request)[i];
    Proc(p.request, PcAtAsset(p.request, i + 1),
         if p.request.LiveRequest? then p.refs else p.refs + [PinnedRef(a.name, version, Sha(a.payload))])
  }

  function Stop(p: Proc, e: Error): Proc {
    Proc(p.request, Stopped(e), [])
  }

  function UploadStep(p: Proc, i: nat, s: Store, f: Fault): (Proc, Store)
    requires i < |Assets(p.request)|
  {
    var a := Assets(p.request)[i];
    var (s', reply) := Put(s, a, Fresh(s, a.name), f);
    (match reply
     case Stored(version) => Secured(p, i, version)
     case StoredUnversioned => if p.request.LiveRequest? then Secured(p, i, s.clock) else p.(pc := Recovering(i))
     case Refused => p.(pc := Recovering(i))
     case ConnectionLost => if p.request.LiveRequest? then Stop(p, Transport) else p.(pc := Recovering(i))
     case HttpError => Stop(p, Transport),
     s')
  }

  predicate Readable(f: Fault) {
    f == Smooth || f == NoVersion
  }

  predicate Intact(b: Blob) {
    b.json && b.metadata == Some(Sha(b.payload))
  }

  predicate Holds(s: Store, a: Asset) {
    a.name in s.blobs && s.blobs[a.name].payload == a.payload && Intact(s.blobs[a.name])
  }

  function RecoverStep(p: Proc, i: nat, s: Store, f: Fault): Proc
    requires i < |Assets(p.request)|
  {
    var a := Assets(p.request)[i];
    if !Readable(f) || !Holds(s, a) then Stop(p, Conflict)
    else Secured(p, i, s.blobs[a.name].stamp)
  }

  function ReadPointerStep(anchor: Anchor, p: Proc, s: Store, f: Fault): Proc
    requires p.request.IncidentRequest?
  {
    var own := p.request.pointer;
    var name := Current(own.incident);
    if f == NotSent || f == LostResponse then Stop(p, Transport)
    else if !Readable(f) then Stop(p, Conflict)
    else if name !in s.blobs then p.(pc := WritingPointer(None))
    else
      var b := s.blobs[name];
      if !Intact(b) then Stop(p, Conflict)
      else if b.payload == PointerDoc(own) then p.(pc := ReadingIndex)
      else if !b.payload.PointerDoc? then Stop(p, Conflict)
      else
        var current := b.payload.pointer;
        if current.incident != own.incident || current.trust != anchor.trust || own.publishedAt <= current.publishedAt
        then Stop(p, Conflict)
        else p.(pc := WritingPointer(Some(b)))
  }

  function ReadIndexStep(anchor: Anchor, p: Proc, s: Store, f: Fault): Proc
    requires !p.request.LiveRequest?
  {
    var own := p.request.index;
    var previous := p.request.previous;
    if !Readable(f) then Stop(p, Transport)
    else if ActiveIndex !in s.blobs then
      if previous.Some? then Stop(p, Conflict) else p.(pc := WritingIndex(None))
    else
      var b := s.blobs[ActiveIndex];
      if b.payload == IndexDoc(own) then p.(pc := Finished)
      else if previous != Some(Sha(b.payload)) then Stop(p, Conflict)
      else if !b.payload.IndexDoc? then Stop(p, Invalid)
      else
        var current := b.payload.index;
        if current.trust != anchor.trust || own.publishedAt <= current.publishedAt then Stop(p, Conflict)
        else p.(pc := WritingIndex(Some(b)))
  }

  function AfterSwap(p: Proc, reply: Reply, next: Pc): Proc {
    match reply
    case Stored(_) => p.(pc := next)
    case StoredUnversioned => p.(pc := next)
    case Refused => Stop(p, Conflict)
    case _ => Stop(p, Transport)
  }

  function PointerAsset(r: Request): Asset
    requires r.IncidentRequest?
  {
    Asset(Current(r.pointer.incident), PointerDoc(r.pointer))
  }

  function IndexAsset(r: Request): Asset
    requires !r.LiveRequest?
  {
    Asset(ActiveIndex, IndexDoc(r.index))
  }

  function ManifestAsset(r: Request): Asset
    requires r.LiveRequest?
  {
    Asset(RuntimeManifest, ManifestDoc(ManifestOf(r)))
  }

  function SwapStep(p: Proc, a: Asset, condition: bool, next: Pc, s: Store, f: Fault): (Proc, Store) {
    var (s', reply) := Put(s, a, condition, f);
    (AfterSwap(p, reply, next), s')
  }

  function Advance(anchor: Anchor, p: Proc, s: Store, f: Fault): (Proc, Store)
    requires WellPlaced(p)
  {
    match p.pc
    case Uploading(i) => UploadStep(p, i, s, f)
    case Recovering(i) => (RecoverStep(p, i, s, f), s)
    case ReadingPointer => (ReadPointerStep(anchor, p, s, f), s)
    case WritingPointer(basis) =>
      var a := PointerAsset(p.request);
      SwapStep(p, a, Unchanged(s, a.name, basis), ReadingIndex, s, f)
    case ReadingIndex => (ReadIndexStep(anchor, p, s, f), s)
    case WritingIndex(basis) =>
      SwapStep(p, IndexAsset(p.request), Unchanged(s, ActiveIndex, basis), Finished, s, f)
    case WritingManifest => SwapStep(p, ManifestAsset(p.request), true, Finished, s, f)
    case _ => (p, s)
  }

  function Remaining(p: Proc): nat {
    match p.pc
    case Uploading(i) => if i < |Assets(p.request)| then 2 * (|Assets(p.request)| - i) + 6 else 6
    case Recovering(i) => if i < |Assets(p.request)| then 2 * (|Assets(p.request)| - i) + 5 else 5
    case ReadingPointer => 4
    case WritingPointer(_) => 3
    case ReadingIndex => 2
    case WritingIndex(_) => 1
    case WritingManifest => 1
    case _ => 0
  }

  /** What a step does to the process itself: it stays well placed, keeps its request and gets
      nearer to its end. */
  ghost predicate Progresses(p: Proc, p': Proc) {
    WellPlaced(p') && p'.request == p.request && (!Terminal(p.pc) ==> Remaining(p') < Remaining(p))
  }

  lemma SecuringProgresses(p: Proc, i: nat, version: nat)
    requires i < |Assets(p.request)|
    requires p.pc == Uploading(i) || p.pc == Recovering(i)
    ensures Progresses(p, Secured(p, i, version))
  {
  }

  lemma UploadProgresses(p: Proc, i: nat, s: Store, f: Fault)
    requires i < |Assets(p.request)| && p.pc == Uploading(i)
    ensures Progresses(p, UploadStep(p, i, s, f).0)
  {
    SecuringProgresses(p, i, s.clock);
  }

  lemma RecoverProgresses(p: Proc, i: nat, s: Store, f: Fault)
    requires i < |Assets(p.request)| && p.pc == Recovering(i)
    ensures Progresses(p, RecoverStep(p, i, s, f))
  {
    if Holds(s, Assets(p.request)[i]) {
      SecuringProgresses(p, i, s.blobs[Assets(p.request)[i].name].stamp);
    }
  }

  lemma SwapProgresses(p: Proc, a: Asset, condition: bool, next: Pc, s: Store, f: Fault)
    requires p.pc.WritingPointer? || p.pc.WritingIndex? || p.pc.WritingManifest?
    requires WellPlaced(p)
    requires next == if p.pc.WritingPointer? then ReadingIndex else Finished
    ensures Progresses(p, SwapStep(p, a, condition, next, s, f).0)
  {
  }

  lemma ReadPointerProgresses(anchor: Anchor, p: Proc, s: Store, f: Fault)
    requires WellPlaced(p) && p.pc.ReadingPointer?
    ensures Progresses(p, ReadPointerStep(anchor, p, s, f))
  {
  }

  lemma ReadIndexProgresses(anchor: Anchor, p: Proc, s: Store, f: Fault)
    requires WellPlaced(p) && p.pc.ReadingIndex?
    ensures Progresses(p, ReadIndexStep(anchor, p, s, f))
  {
  }

  /** What a compare-and-swap does: it is applied only under its condition, and a publisher moves on
      only if it was. */
  lemma SwappedOrUnchanged(p: Proc, a: Asset, condition: bool, next: Pc, s: Store, f: Fault)
    ensures var (p', s') := SwapStep(p, a, condition, next, s, f);
            && (s' == s || s' == Write(s, a))
            && (s' != s ==> condition)
            && (p' == p.(pc := next) || (p'.pc.Stopped? && p'.request == p.request))
            && (p'.pc == next && !next.Stopped? ==> s' == Write(s, a))
  {
  }

  lemma AdvanceProgresses(anchor: Anchor, p: Proc, s: Store, f: Fault)
    requires WellPlaced(p)
    ensures Progresses(p, Advance(anchor, p, s, f).0)
  {
    match p.pc
    case Uploading(i) => UploadProgresses(p, i, s, f);
    case Recovering(i) => RecoverProgresses(p, i, s, f);
    case ReadingPointer => ReadPointerProgresses(anchor, p, s, f);
    case WritingPointer(basis) =>
      var a := PointerAsset(p.request);
      SwapProgresses(p, a, Unchanged(s, a.name, basis), ReadingIndex, s, f);
    case ReadingIndex => ReadIndexProgresses(anchor, p, s, f);
    case WritingIndex(basis) =>
      SwapProgresses(p, IndexAsset(p.request), Unchanged(s, ActiveIndex, basis), Finished, s, f);
    case WritingManifest => SwapProgresses(p, ManifestAsset(p.request), true, Finished, s, f);
    case _ =>
  }

  type Weather = nat -> Fault

  /** The whole call with nobody else writing: the `n`-th storage call meets `weather(n)`. */
  function Run(anchor: Anchor, p: Proc, s: Store, weather: Weather, tick: nat): (Proc, Store)
    requires WellPlaced(p)
    decreases Remaining(p)
  {
    if Terminal(p.pc) then (p, s)
    else
      var (p', s') := Advance(anchor, p, s, weather(tick));
      AdvanceProgresses(anchor, p, s, weather(tick));
      Run(anchor, p', s', weather, tick + 1)
  }

  const CALM: Weather := tick => Smooth

  function Undisturbed(anchor: Anchor, r: Request, s: Store): (Proc, Store) {
    Run(anchor, Start(r), s, CALM, 0)
  }
}
