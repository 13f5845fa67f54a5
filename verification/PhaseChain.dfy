/** The chain of operational phases: what a workload receipt, the inputs of a phase and its completion
    index contain, the checks the phase runner makes before and the operator after each phase, and
    the agreement of the two. */
module PhaseChain {

  import opened Options

  datatype Phase = Baseline | Faulted | Recovered
  datatype Action = Status | Inject | Reset
  datatype Power = Running | Stopped | Deallocated

  /** SHA-256 is taken as injective: two digests of contents are equal when the contents are. */
  datatype Digest = Sha(content: Content) | Unrelated(id: nat)

  datatype Content =
    | ReceiptBytes(receipt: Receipt)
    | TargetFields(target: Target)
    | IndexFields(body: Body)
    | IndexBytes(index: Index)
    | Text(text: string)
    | Bytes(id: nat)

  /** What `compute_fault_lineage_digest` digests: the fault run and its target, case-folded. */
  datatype Target = Target(faultRun: string, group: string, prefix: string, vm: string, vmId: string, eligible: seq<string>)

  /** `spelling` is what case folding forgets of the target. */
  datatype Receipt = Receipt(
    action: Action, target: Target, spelling: nat, before: Power, after: Power, started: int, completed: int)

  datatype Name = ReceiptName(run: string, phase: Phase) | ArtifactName(run: string, phase: Phase, slot: nat) | OtherName(text: string)

  datatype Reference = Reference(name: Name, version: string, digest: Digest)

  datatype Report = Report(run: string, action: Action, receipt: Receipt, reference: Reference)

  datatype Configuration = Configuration(digest: Digest, attempt: string, snapshot: string, key: string)

  datatype Bundle = Bundle(run: string, digest: Digest, baseline: Configuration, faulted: Configuration, recovered: Configuration) {
    function Select(p: Phase): Configuration {
      match p
      case Baseline => baseline
      case Faulted => faulted
      case Recovered => recovered
    }
  }

  datatype Inputs = Inputs(run: string, bundle: Digest, phase: Phase, receipt: Reference,
                           previous: Option<Reference>, lineage: Option<Digest>)

  datatype Results = Results(result: Digest, artifact: Digest, semantic: Digest, presentation: Digest)

  datatype Kind = EvaluationResult | EvidenceSnapshot | ArgusPresentation | PresentationAttestation | SourceEnvelope

  datatype Artifact = Artifact(kind: Kind, reference: Reference)

  datatype Body = Body(
    run: string, phase: Phase, bundle: Digest, configuration: Digest, receipt: Reference,
    previous: Option<Reference>, previousDigest: Option<Digest>, lineage: Digest,
    attempt: string, snapshot: string, key: Digest,
    action: Action, started: int, completed: int, before: Power, after: Power,
    results: Results, artifacts: seq<Artifact>)

  datatype Index = Index(body: Body, digest: Digest)

  /** A phase the operator has verified: its report, its completion index and where that is stored. */
  datatype Verified = Verified(report: Report, index: Index, reference: Reference)

  function PhaseOf(a: Action): Phase {
    match a
    case Status => Baseline
    case Inject => Faulted
    case Reset => Recovered
  }

  function ActionOf(p: Phase): Action {
    match p
    case Baseline => Status
    case Faulted => Inject
    case Recovered => Reset
  }

  function Before(p: Phase): Option<Phase> {
    match p
    case Baseline => None
    case Faulted => Some(Baseline)
    case Recovered => Some(Faulted)
  }

  function Lineage(r: Receipt): Digest { Sha(TargetFields(r.target)) }

  const INDEX_SLOT: nat := 4
  const KINDS := [EvaluationResult, EvidenceSnapshot, ArgusPresentation, PresentationAttestation, SourceEnvelope]
  const SLOTS: seq<nat> := [0, 1, 2, 3, 5]

  // ---------------------------------------------------------------- validity of the contracts

  predicate Down(p: Power) { p == Stopped || p == Deallocated }

  predicate ValidReceipt(r: Receipt) {
    && r.started <= r.completed
    && match r.action
       case Status => r.before == r.after
       case Inject => r.before == Running && Down(r.after)
       case Reset => Down(r.before) && r.after == Running
  }

  predicate ValidReport(r: Report) {
    && ValidReceipt(r.receipt) && r.receipt.action == r.action
    && r.reference.name == ReceiptName(r.run, PhaseOf(r.action))
    && r.reference.digest == Sha(ReceiptBytes(r.receipt))
  }

  predicate ValidInputs(i: Inputs) {
    && i.receipt.name == ReceiptName(i.run, i.phase)
    && match i.phase
       case Baseline => i.previous.None? && i.lineage.None?
       case Faulted =>
         && i.previous.None? == i.lineage.Some?
         && (i.previous.Some? ==> i.previous.value.name == ArtifactName(i.run, Baseline, INDEX_SLOT))
       case Recovered =>
         i.previous.Some? && i.lineage.None? && i.previous.value.name == ArtifactName(i.run, Faulted, INDEX_SLOT)
  }

  predicate NamedArtifacts(run: string, phase: Phase, artifacts: seq<Artifact>) {
    && |artifacts| == 5
    && forall i :: 0 <= i < 5 ==>
         artifacts[i].kind == KINDS[i] && artifacts[i].reference.name == ArtifactName(run, phase, SLOTS[i])
  }

  predicate ValidIndex(i: Index) {
    && NamedArtifacts(i.body.run, i.body.phase, i.body.artifacts)
    && i.body.started <= i.body.completed
    && i.body.action == ActionOf(i.body.phase)
    && i.body.previous.Some? == i.body.previousDigest.Some?
    && (i.body.phase == Baseline ==> i.body.previous.None?)
    && (i.body.phase == Recovered ==> i.body.previous.Some?)
    && i.digest == Sha(IndexFields(i.body))
  }

  // ---------------------------------------------------------------- the phase runner

  /** `_validate_receipt_phase`. */
  predicate ReceiptFitsPhase(p: Phase, r: Receipt) {
    match p
    case Baseline => r.action == Status && r.before == Running && r.after == Running
    case Faulted => r.action == Inject && r.before == Running && Down(r.after)
    case Recovered => r.action == Reset && Down(r.before) && r.after == Running
  }

  /** `_validate_previous_index`. */
  predicate PreviousFits(bundle: Bundle, inputs: Inputs, receipt: Receipt, previous: Option<Index>) {
    if inputs.phase == Baseline then previous.None?
    else if previous.None? then inputs.phase == Faulted && inputs.lineage == Some(Lineage(receipt))
    else
      && previous.value.body.run == bundle.run
      && previous.value.body.bundle == bundle.digest
      && Some(previous.value.body.phase) == Before(inputs.phase)
      && previous.value.body.lineage == Lineage(receipt)
      && previous.value.body.completed <= receipt.started
      && previous.value.body.after == receipt.before
  }

  /** What `_load_selected_delivery` demands of the inputs and of the two documents it reads by their
      exact versions. */
  predicate Delivered(bundle: Bundle, inputs: Inputs, receipt: Content, previous: Option<Content>) {
    && ValidInputs(inputs) && inputs.run == bundle.run && inputs.bundle == bundle.digest
    && Sha(receipt) == inputs.receipt.digest
    && receipt.ReceiptBytes? && ValidReceipt(receipt.receipt) && ReceiptFitsPhase(inputs.phase, receipt.receipt)
    && previous.Some? == inputs.previous.Some?
    && (previous.Some? ==>
          && Sha(previous.value) == inputs.previous.value.digest
          && previous.value.IndexBytes? && ValidIndex(previous.value.index))
    && PreviousFits(bundle, inputs, receipt.receipt, if previous.Some? then Some(previous.value.index) else None)
  }

  /** `build_operational_phase_completion_index` as `run_operational_phase` calls it. */
  function CompletionIndex(bundle: Bundle, inputs: Inputs, receipt: Receipt, previous: Option<Index>,
                           results: Results, artifacts: seq<Artifact>): Index {
    var configuration := bundle.Select(inputs.phase);
    var body := Body(
      bundle.run, inputs.phase, bundle.digest, configuration.digest, inputs.receipt,
      inputs.previous, if previous.Some? then Some(previous.value.digest) else None, Lineage(receipt),
      configuration.attempt, configuration.snapshot, Sha(Text(configuration.key)),
      receipt.action, receipt.started, receipt.completed, receipt.before, receipt.after,
      results, artifacts);
    Index(body, Sha(IndexFields(body)))
  }

  // ---------------------------------------------------------------- the operator

  predicate PowerMoves(expected: Action, r: Receipt) {
    match expected
    case Status => r.before == Running && r.after == Running
    case Inject => r.before == Running && Down(r.after)
    case Reset => Down(r.before) && r.after == Running
  }

  /** `_validate_receipt_transition`. */
  predicate TransitionOk(previous: Option<Report>, current: Report, expected: Action, allowMissing: bool) {
    && current.receipt.action == expected && PowerMoves(expected, current.receipt)
    && (previous.Some? ==>
          && Lineage(previous.value.receipt) == Lineage(current.receipt)
          && previous.value.receipt.completed <= current.receipt.started
          && (allowMissing || current.receipt.before == previous.value.receipt.after))
  }

  /** `_build_phase_inputs`. */
  function PhaseInputs(bundle: Bundle, phase: Phase, report: Report, previous: Option<Verified>): Inputs {
    Inputs(bundle.run, bundle.digest, phase, report.reference,
           if previous.Some? then Some(previous.value.reference) else None, None)
  }

  /** The completion index checks of `_verify_phase_artifacts`. */
  predicate IndexAccepted(bundle: Bundle, phase: Phase, report: Report, previous: Option<Verified>, index: Index) {
    var b, r, configuration := index.body, report.receipt, bundle.Select(phase);
    && b.run == bundle.run && b.phase == phase && b.bundle == bundle.digest
    && b.configuration == configuration.digest
    && b.receipt == report.reference && b.lineage == Lineage(r)
    && b.attempt == configuration.attempt && b.snapshot == configuration.snapshot
    && b.key == Sha(Text(configuration.key))
    && b.action == r.action && b.started == r.started && b.completed == r.completed
    && b.before == r.before && b.after == r.after
    && if previous.None? then b.previous.None?
       else
         && b.previous == Some(previous.value.reference)
         && b.previousDigest == Some(previous.value.index.digest)
         && previous.value.index.body.lineage == Lineage(r)
         && previous.value.index.body.completed <= r.started
         && previous.value.index.body.after == r.before
  }

  /** What the operator holds after verifying a phase. */
  predicate Held(bundle: Bundle, phase: Phase, v: Verified, previous: Option<Verified>) {
    && ValidReport(v.report) && v.report.run == bundle.run && v.report.action == ActionOf(phase)
    && ValidIndex(v.index) && IndexAccepted(bundle, phase, v.report, previous, v.index)
    && v.reference.name == ArtifactName(bundle.run, phase, INDEX_SLOT)
    && v.reference.digest == Sha(IndexBytes(v.index))
  }

  /** What the operator holds before it starts a phase: nothing, or the phase before it. */
  predicate Ready(bundle: Bundle, phase: Phase, previous: Option<Verified>, earlier: Option<Verified>) {
    && previous.Some? == Before(phase).Some?
    && (previous.Some? ==> Held(bundle, Before(phase).value, previous.value, earlier))
  }

  function ReportIn(v: Option<Verified>): Option<Report> { if v.Some? then Some(v.value.report) else None }
  function IndexIn(v: Option<Verified>): Option<Index> { if v.Some? then Some(v.value.index) else None }
  function StoredIndex(v: Option<Verified>): Option<Content> { if v.Some? then Some(IndexBytes(v.value.index)) else None }

  // ---------------------------------------------------------------- agreement

  /** The inputs the operator builds are always well formed. */
  lemma PhaseInputsAreValid(bundle: Bundle, phase: Phase, report: Report, previous: Option<Verified>, earlier: Option<Verified>)
    requires ValidReport(report) && report.run == bundle.run && report.action == ActionOf(phase)
    requires Ready(bundle, phase, previous, earlier)
    ensures ValidInputs(PhaseInputs(bundle, phase, report, previous))
  {
    match phase
    case Baseline =>
    case Faulted =>
    case Recovered =>
  }

  /** The runner accepts what it is given exactly when the operator accepts the receipt transition. */
  lemma RunnerAcceptsWhatTheOperatorDoes(bundle: Bundle, phase: Phase, report: Report, previous: Option<Verified>,
                                         earlier: Option<Verified>)
    requires ValidReport(report) && report.run == bundle.run && report.action == ActionOf(phase)
    requires Ready(bundle, phase, previous, earlier)
    ensures TransitionOk(ReportIn(previous), report, ActionOf(phase), false)
       <==> Delivered(bundle, PhaseInputs(bundle, phase, report, previous), ReceiptBytes(report.receipt), StoredIndex(previous))
  {
    PhaseInputsAreValid(bundle, phase, report, previous, earlier);
    match phase
    case Baseline =>
    case Faulted =>
    case Recovered =>
  }

  /** Whatever the runner read, it read the very documents the operator meant. */
  lemma RunnerReadsTheSameDocuments(bundle: Bundle, phase: Phase, report: Report, previous: Option<Verified>,
                                    earlier: Option<Verified>, receipt: Content, stored: Option<Content>)
    requires ValidReport(report) && report.run == bundle.run && report.action == ActionOf(phase)
    requires Ready(bundle, phase, previous, earlier)
    requires Delivered(bundle, PhaseInputs(bundle, phase, report, previous), receipt, stored)
    ensures receipt == ReceiptBytes(report.receipt) && stored == StoredIndex(previous)
  {
    assert Sha(receipt) == Sha(ReceiptBytes(report.receipt));
    if previous.Some? { assert Sha(stored.value) == Sha(IndexBytes(previous.value.index)); }
  }

  /** The index the runner then builds passes every check of the operator, and is the only kind of
      index that does: it is determined up to the evaluation results and the five artifacts. */
  lemma OperatorAcceptsWhatTheRunnerBuilds(bundle: Bundle, phase: Phase, report: Report, previous: Option<Verified>,
                                           earlier: Option<Verified>, index: Index)
    requires ValidReport(report) && report.run == bundle.run && report.action == ActionOf(phase)
    requires Ready(bundle, phase, previous, earlier)
    requires TransitionOk(ReportIn(previous), report, ActionOf(phase), false)
    requires NamedArtifacts(bundle.run, phase, index.body.artifacts)
    ensures ValidIndex(index) && IndexAccepted(bundle, phase, report, previous, index)
       <==> index == CompletionIndex(bundle, PhaseInputs(bundle, phase, report, previous), report.receipt,
                                     IndexIn(previous), index.body.results, index.body.artifacts)
  {
    var built := CompletionIndex(bundle, PhaseInputs(bundle, phase, report, previous), report.receipt,
                                 IndexIn(previous), index.body.results, index.body.artifacts);
    match phase
    case Baseline =>
      if ValidIndex(index) && IndexAccepted(bundle, phase, report, previous, index) { assert index.body == built.body; }
    case Faulted =>
      if ValidIndex(index) && IndexAccepted(bundle, phase, report, previous, index) { assert index.body == built.body; }
    case Recovered =>
      if ValidIndex(index) && IndexAccepted(bundle, phase, report, previous, index) { assert index.body == built.body; }
  }

  // ---------------------------------------------------------------- the whole chain

  /** What a phase job adds of its own: evaluation results, artifacts and the version of its index. */
  datatype Work = Work(results: Results, artifacts: seq<Artifact>, version: string)

  function PhaseAt(n: nat): Phase
    requires n < 3
  {
    if n == 0 then Baseline else if n == 1 then Faulted else Recovered
  }

  /** Phase `n` of a run in which the runner is given the operator's inputs and the operator the
      runner's index, phase after phase. */
  function Chain(bundle: Bundle, reports: seq<Report>, works: seq<Work>, n: nat): Verified
    requires n < |reports| <= |works| && n < 3
  {
    var previous := if n == 0 then None else Some(Chain(bundle, reports, works, n - 1));
    var index := CompletionIndex(bundle, PhaseInputs(bundle, PhaseAt(n), reports[n], previous), reports[n].receipt,
                                 IndexIn(previous), works[n].results, works[n].artifacts);
    Verified(reports[n], index,
             Reference(ArtifactName(bundle.run, PhaseAt(n), INDEX_SLOT), works[n].version, Sha(IndexBytes(index))))
  }

  function ChainBefore(bundle: Bundle, reports: seq<Report>, works: seq<Work>, n: nat): Option<Verified>
    requires n <= |reports| <= |works| && n <= 3
  {
    if n == 0 then None else Some(Chain(bundle, reports, works, n - 1))
  }

  function ReportBefore(reports: seq<Report>, n: nat): Option<Report>
    requires n <= |reports|
  {
    if n == 0 then None else Some(reports[n - 1])
  }

  /** The `n`-th report is the one the operator accepts for that phase, and the job of the phase names
      its artifacts as it must. */
  predicate PhaseReport(bundle: Bundle, reports: seq<Report>, works: seq<Work>, n: nat)
    requires n < |reports| <= |works| && n < 3
  {
    && ValidReport(reports[n]) && reports[n].run == bundle.run && reports[n].action == ActionOf(PhaseAt(n))
    && TransitionOk(ReportBefore(reports, n), reports[n], ActionOf(PhaseAt(n)), false)
    && NamedArtifacts(bundle.run, PhaseAt(n), works[n].artifacts)
  }

  predicate PhaseReports(bundle: Bundle, reports: seq<Report>, works: seq<Work>) {
    && |reports| <= 3 && |reports| <= |works|
    && forall n :: 0 <= n < |reports| ==> PhaseReport(bundle, reports, works, n)
  }

  /** By induction over the phases: with reports the operator accepts, every runner accepts its inputs
      and every index it builds passes the operator. */
  lemma {:induction false} ChainIsAccepted(bundle: Bundle, reports: seq<Report>, works: seq<Work>, n: nat)
    requires PhaseReports(bundle, reports, works) && n < |reports|
    ensures var previous := ChainBefore(bundle, reports, works, n);
            && Delivered(bundle, PhaseInputs(bundle, PhaseAt(n), reports[n], previous),
                         ReceiptBytes(reports[n].receipt), StoredIndex(previous))
            && Held(bundle, PhaseAt(n), Chain(bundle, reports, works, n), previous)
  {
    var previous := ChainBefore(bundle, reports, works, n);
    assert PhaseReport(bundle, reports, works, n);
    if n == 0 {
      ChainStep(bundle, PhaseAt(n), reports[n], previous, None, works[n]);
    } else {
      ChainIsAccepted(bundle, reports, works, n - 1);
      ReadyAfter(bundle, reports, works, n);
      ChainStep(bundle, PhaseAt(n), reports[n], previous, ChainBefore(bundle, reports, works, n - 1), works[n]);
    }
  }

  lemma ReadyAfter(bundle: Bundle, reports: seq<Report>, works: seq<Work>, n: nat)
    requires PhaseReports(bundle, reports, works) && 0 < n < |reports|
    requires Held(bundle, PhaseAt(n - 1), Chain(bundle, reports, works, n - 1), ChainBefore(bundle, reports, works, n - 1))
    ensures Ready(bundle, PhaseAt(n), ChainBefore(bundle, reports, works, n), ChainBefore(bundle, reports, works, n - 1))
  {
    assert PhaseReport(bundle, reports, works, n - 1);
  }

  lemma ChainStep(bundle: Bundle, phase: Phase, report: Report, previous: Option<Verified>, earlier: Option<Verified>, work: Work)
    requires ValidReport(report) && report.run == bundle.run && report.action == ActionOf(phase)
    requires Ready(bundle, phase, previous, earlier)
    requires TransitionOk(ReportIn(previous), report, ActionOf(phase), false)
    requires NamedArtifacts(bundle.run, phase, work.artifacts)
    ensures var index := CompletionIndex(bundle, PhaseInputs(bundle, phase, report, previous), report.receipt,
                                         IndexIn(previous), work.results, work.artifacts);
            && Delivered(bundle, PhaseInputs(bundle, phase, report, previous), ReceiptBytes(report.receipt), StoredIndex(previous))
            && ValidIndex(index) && IndexAccepted(bundle, phase, report, previous, index)
  {
    RunnerAcceptsWhatTheOperatorDoes(bundle, phase, report, previous, earlier);
    var index := CompletionIndex(bundle, PhaseInputs(bundle, phase, report, previous), report.receipt,
                                 IndexIn(previous), work.results, work.artifacts);
    OperatorAcceptsWhatTheRunnerBuilds(bundle, phase, report, previous, earlier, index);
  }
}
