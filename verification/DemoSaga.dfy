/** The operational demo as one function of its ports: what is attempted, in which order, and what
    comes of it. A port is any function of everything that happened before, and may fail at any call. */
module DemoSaga {

  import opened Options
  import opened PhaseChain

  datatype JobState = Succeeded | Failed | Unknown | InProgress

  datatype Execution = Execution(run: string, phase: Phase, id: string)
  datatype JobStatus = JobStatus(run: string, phase: Phase, id: string, state: JobState)
  datatype Handoff = Handoff(run: string, phase: Phase, bundle: Digest, index: Reference)

  /** A verified phase and the two artifacts that are published. */
  datatype Proven = Proven(verified: Verified, evaluated: int, payload: Content, attestation: Content)

  /** What comes of checking the contents of a phase's artifacts against each other. The code turns the
      exceptions it foresees into its own error; any other one passes through every handler. */
  datatype Judgement = Sound(evaluated: int) | Unsound | Raises

  datatype Checked = Passed(proven: Proven) | Refused | Escaped

  function ProvenIn(c: Checked): Option<Proven> { if c.Passed? then Some(c.proven) else None }

  datatype Manifest = Manifest(run: string, group: string, evaluated: int, published: int, digests: seq<(Digest, Digest)>)
  datatype PublicationReceipt = PublicationReceipt(run: string, blobName: string, manifest: Manifest)

  const MANIFEST_NAME := "runtime-manifest.json"

  datatype Event =
    | Attempted(action: Action)
    | Reported(report: Report)
    | Confirmed(action: Action)
    | Started(phase: Phase, inputs: Inputs)
    | Polled(phase: Phase)
    | Slept
    | Fetched(phase: Phase)
    | Read(reference: Reference)
    | Accepted(phase: Phase, verified: Verified)
    | Publishing(manifest: Manifest)

  type History = seq<Event>

  datatype Ports = Ports(
    act: (History, Action) -> Option<Report>,
    start: (History, Inputs) -> Option<Execution>,
    status: (History, Execution) -> Option<JobStatus>,
    handoff: (History, Execution) -> Option<Handoff>,
    read: (History, Reference) -> Option<Content>,
    evaluate: (Phase, Receipt, Index, seq<Content>) -> Judgement,
    publish: (History, Manifest) -> Option<PublicationReceipt>,
    monotonic: History -> real,
    utcNow: History -> int)

  /** Timeout and interval in seconds. */
  datatype Config = Config(bundle: Bundle, timeout: nat, interval: nat, publishes: bool)

  /** The clock never runs backwards, and a sleep lasts at least as long as it was asked to. */
  ghost predicate Steady(p: Ports, c: Config) {
    && 1 <= c.interval <= c.timeout
    && (forall h: History, e: Event :: p.monotonic(h) <= p.monotonic(h + [e]))
    && forall h: History :: p.monotonic(h) + c.interval as real <= p.monotonic(h + [Slept])
  }

  // ---------------------------------------------------------------- the steps

  /** `_invoke_workload_action`. */
  function Invoke(p: Ports, c: Config, h: History, a: Action): (History, Option<Report>) {
    var reply := p.act(h, a);
    if reply.Some? && ValidReport(reply.value) && reply.value.run == c.bundle.run && reply.value.action == a
    then (h + [Attempted(a)] + [Reported(reply.value)], reply)
    else (h + [Attempted(a)], None)
  }

  /** The invocation of a workload action and the check of the receipt's transition. */
  function Act(p: Ports, c: Config, h: History, a: Action, previous: Option<Report>, allowMissing: bool)
    : (History, Option<Report>, bool)
  {
    var (after, report) := Invoke(p, c, h, a);
    if report.Some? && TransitionOk(previous, report.value, a, allowMissing)
    then (after + [Confirmed(a)], report, true)
    else (after, report, false)
  }

  /** `_start_phase_job`. */
  function Start(p: Ports, c: Config, h: History, phase: Phase, inputs: Inputs): (History, Option<Execution>) {
    var reply := p.start(h, inputs);
    (h + [Started(phase, inputs)],
     if reply.Some? && reply.value.run == c.bundle.run && reply.value.phase == phase then reply else None)
  }

  predicate Describes(s: JobStatus, e: Execution) { s.run == e.run && s.phase == e.phase && s.id == e.id }

  /** The polling loop of `_wait_for_phase_success`. */
  function Poll(p: Ports, c: Config, h: History, e: Execution, deadline: real): (History, bool)
    requires Steady(p, c)
    decreases deadline - p.monotonic(h)
  {
    var reply, polled := p.status(h, e), h + [Polled(e.phase)];
    if reply.None? || !Describes(reply.value, e) then (polled, false)
    else match reply.value.state
      case Succeeded => (polled, true)
      case Failed => (polled, false)
      case Unknown => (polled, false)
      case InProgress =>
        if p.monotonic(polled) >= deadline then (polled, false)
        else
          assert p.monotonic(h) <= p.monotonic(polled);
          Poll(p, c, polled + [Slept], e, deadline)
  }

  function Wait(p: Ports, c: Config, h: History, e: Execution): (History, bool)
    requires Steady(p, c)
  {
    Poll(p, c, h, e, p.monotonic(h) + c.timeout as real)
  }

  /** `_read_phase_handoff`; the name of the index is fixed by the type of the reply. */
  function Fetch(p: Ports, c: Config, h: History, e: Execution): (History, Option<Handoff>) {
    var reply := p.handoff(h, e);
    (h + [Fetched(e.phase)],
     if && reply.Some? && reply.value.run == e.run && reply.value.phase == e.phase
        && reply.value.bundle == c.bundle.digest
        && reply.value.index.name == ArtifactName(reply.value.run, reply.value.phase, INDEX_SLOT)
     then reply else None)
  }

  /** `_read_exact_artifact`. */
  function ReadExact(p: Ports, h: History, reference: Reference): (History, Option<Content>) {
    var reply := p.read(h, reference);
    (h + [Read(reference)], if reply.Some? && Sha(reply.value) == reference.digest then reply else None)
  }

  function Join(head: Content, tail: Option<seq<Content>>): Option<seq<Content>> {
    if tail.Some? then Some([head] + tail.value) else None
  }

  function ReadAll(p: Ports, h: History, artifacts: seq<Artifact>): (History, Option<seq<Content>>)
    decreases |artifacts|
  {
    if artifacts == [] then (h, Some([]))
    else
      var (next, first) := ReadExact(p, h, artifacts[0].reference);
      if first.None? then (next, None)
      else
        var (last, rest) := ReadAll(p, next, artifacts[1..]);
        (last, Join(first.value, rest))
  }

  function VerifiedIn(v: Option<Proven>): Option<Verified> { if v.Some? then Some(v.value.verified) else None }

  /** The second half of `_verify_phase_artifacts`: the five artifacts the index names; `evaluate` stands
      for the checks of their contents against each other. */
  function VerifyContents(p: Ports, h: History, phase: Phase, report: Report, index: Index, reference: Reference)
    : (History, Checked)
  {
    var (last, contents) := ReadAll(p, h, index.body.artifacts);
    if contents.None? || |contents.value| != 5 then (last, Refused)
    else
      match p.evaluate(phase, report.receipt, index, contents.value)
      case Raises => (last, Escaped)
      case Unsound => (last, Refused)
      case Sound(evaluated) =>
        var verified := Verified(report, index, reference);
        (last + [Accepted(phase, verified)],
         Passed(Proven(verified, evaluated, contents.value[2], contents.value[3])))
  }

  /** `_verify_phase_artifacts`. */
  function Verify(p: Ports, c: Config, h: History, phase: Phase, report: Report, previous: Option<Proven>, handoff: Handoff)
    : (History, Checked)
  {
    var (opening, content) := ReadExact(p, h, handoff.index);
    if content.None? || !content.value.IndexBytes? || !ValidIndex(content.value.index)
       || !IndexAccepted(c.bundle, phase, report, VerifiedIn(previous), content.value.index) then (opening, Refused)
    else VerifyContents(p, opening, phase, report, content.value.index, handoff.index)
  }

  /** What follows a finished phase job. */
  function Collect(p: Ports, c: Config, h: History, e: Execution, phase: Phase, report: Report, previous: Option<Proven>)
    : (History, Checked)
  {
    var (fetched, handoff) := Fetch(p, c, h, e);
    if handoff.None? then (fetched, Refused)
    else Verify(p, c, fetched, phase, report, previous, handoff.value)
  }

  /** `_run_verified_phase`. */
  function RunVerified(p: Ports, c: Config, h: History, phase: Phase, report: Report, previous: Option<Proven>)
    : (History, Checked)
    requires Steady(p, c)
  {
    var (started, execution) := Start(p, c, h, phase, PhaseInputs(c.bundle, phase, report, VerifiedIn(previous)));
    if execution.None? then (started, Refused)
    else
      var (polled, ok) := Wait(p, c, started, execution.value);
      if !ok then (polled, Refused)
      else Collect(p, c, polled, execution.value, phase, report, previous)
  }

  // ---------------------------------------------------------------- the whole run

  datatype Outcome =
    | NotInjected
    | Aborted(phase: Phase)
    | ResetFailed
    | FailedButReset
    | RecoveryFailed
    | PublicationFailed
    | Completed(baseline: Proven, faulted: Proven, recovered: Proven, publication: Option<PublicationReceipt>)

  /** Status and baseline phase. */
  function BaselineStage(p: Ports, c: Config): (History, Checked)
    requires Steady(p, c)
  {
    var (acted, report, ok) := Act(p, c, [], Status, None, false);
    if !ok then (acted, Refused) else RunVerified(p, c, acted, Baseline, report.value, None)
  }

  /** Injection and faulted phase; the report is kept even when a later check fails. */
  function FaultStage(p: Ports, c: Config, h: History, baseline: Proven): (History, Option<Report>, Checked)
    requires Steady(p, c)
  {
    var (acted, report, ok) := Act(p, c, h, Inject, Some(baseline.verified.report), false);
    if !ok then (acted, report, Refused)
    else
      var (last, faulted) := RunVerified(p, c, acted, Faulted, report.value, Some(baseline));
      (last, report, faulted)
  }

  function ResetStage(p: Ports, c: Config, h: History, baseline: Proven, injected: Option<Report>): (History, Option<Report>) {
    var previous := if injected.Some? then injected.value else baseline.verified.report;
    var (acted, report, ok) := Act(p, c, h, Reset, Some(previous), injected.None?);
    (acted, if ok then report else None)
  }

  function Digests(v: Proven): (Digest, Digest) { (Sha(v.payload), Sha(v.attestation)) }
  function Group(v: Proven): string { v.verified.report.receipt.target.group }

  function ManifestOf(p: Ports, c: Config, h: History, baseline: Proven, faulted: Proven, recovered: Proven): Manifest {
    var now := p.utcNow(h);
    Manifest(c.bundle.run, Group(baseline), recovered.evaluated,
             if now >= recovered.evaluated then now else recovered.evaluated,
             [Digests(baseline), Digests(faulted), Digests(recovered)])
  }

  function PublishStage(p: Ports, c: Config, h: History, baseline: Proven, faulted: Proven, recovered: Proven): (History, Outcome) {
    if !c.publishes then (h, Completed(baseline, faulted, recovered, None))
    else if !(Group(baseline) == Group(faulted) == Group(recovered)) then (h, PublicationFailed)
    else
      var manifest := ManifestOf(p, c, h, baseline, faulted, recovered);
      var reply := p.publish(h, manifest);
      (h + [Publishing(manifest)],
       if reply.Some? && reply.value == PublicationReceipt(c.bundle.run, MANIFEST_NAME, manifest)
       then Completed(baseline, faulted, recovered, reply) else PublicationFailed)
  }

  /** Recovered phase and publication. */
  function RecoveryStage(p: Ports, c: Config, h: History, baseline: Proven, faulted: Proven, reset: Report): (History, Outcome)
    requires Steady(p, c)
  {
    var (last, recovered) := RunVerified(p, c, h, Recovered, reset, Some(faulted));
    match recovered
    case Escaped => (last, Aborted(Recovered))
    case Refused => (last, RecoveryFailed)
    case Passed(proven) => PublishStage(p, c, last, baseline, faulted, proven)
  }

  /** Everything after the injection was attempted. */
  function SettleStage(p: Ports, c: Config, h: History, baseline: Proven, injected: Option<Report>, faulted: Option<Proven>)
    : (History, Outcome)
    requires Steady(p, c)
  {
    var (last, reset) := ResetStage(p, c, h, baseline, injected);
    if reset.None? then (last, ResetFailed)
    else if faulted.None? then (last, FailedButReset)
    else RecoveryStage(p, c, last, baseline, faulted.value, reset.value)
  }

  /** Everything after the verified baseline: only errors the operator foresees lead on to the reset. */
  function InjectedRun(p: Ports, c: Config, h: History, baseline: Proven): (History, Outcome)
    requires Steady(p, c)
  {
    var (last, injected, faulted) := FaultStage(p, c, h, baseline);
    if faulted.Escaped? then (last, Aborted(Faulted))
    else SettleStage(p, c, last, baseline, injected, ProvenIn(faulted))
  }

  /** `run_operational_demo_operator` after the confirmation phrase has matched. */
  function Run(p: Ports, c: Config): (History, Outcome)
    requires Steady(p, c)
  {
    var (h, baseline) := BaselineStage(p, c);
    match baseline
    case Escaped => (h, Aborted(Baseline))
    case Refused => (h, NotInjected)
    case Passed(proven) => InjectedRun(p, c, h, proven)
  }

  // ---------------------------------------------------------------- polling

  function Polls(h: History): nat {
    if h == [] then 0 else Polls(h[..|h| - 1]) + (if h[|h| - 1].Polled? then 1 else 0)
  }

  lemma PollsStep(h: History, e: Event)
    ensures Polls(h + [e]) == Polls(h) + (if e.Polled? then 1 else 0)
  {
    assert (h + [e])[..|h|] == h;
  }

  predicate Again(p: Ports, h: History, e: Execution, deadline: real) {
    var reply := p.status(h, e);
    && reply.Some? && Describes(reply.value, e) && reply.value.state == InProgress
    && p.monotonic(h + [Polled(e.phase)]) < deadline
  }

  lemma PollOnce(p: Ports, c: Config, h: History, e: Execution, deadline: real) returns (next: History)
    requires Steady(p, c)
    ensures if Again(p, h, e, deadline) then
              && Poll(p, c, h, e, deadline) == Poll(p, c, next, e, deadline)
              && p.monotonic(h) + c.interval as real <= p.monotonic(next) && Polls(next) == Polls(h) + 1
              && p.monotonic(h) < deadline
            else Polls(Poll(p, c, h, e, deadline).0) == Polls(h) + 1
  {
    var polled := h + [Polled(e.phase)];
    next := polled + [Slept];
    PollsStep(h, Polled(e.phase));
    PollsStep(polled, Slept);
    assert p.monotonic(h) <= p.monotonic(polled);
    assert p.monotonic(polled) + c.interval as real <= p.monotonic(polled + [Slept]);
  }

  /** `n` status reads, at least one interval apart, begun with `left` seconds to the deadline. */
  predicate Fits(n: int, interval: nat, left: real) {
    n >= 1 && (n >= 2 ==> ((n - 2) * interval) as real < left)
  }

  lemma {:induction false} PollsAreSpaced(p: Ports, c: Config, h: History, e: Execution, deadline: real)
    requires Steady(p, c)
    ensures Fits(Polls(Poll(p, c, h, e, deadline).0) - Polls(h), c.interval, deadline - p.monotonic(h))
    decreases deadline - p.monotonic(h)
  {
    var next := PollOnce(p, c, h, e, deadline);
    if Again(p, h, e, deadline) {
      PollsAreSpaced(p, c, next, e, deadline);
      OneMore(Polls(Poll(p, c, next, e, deadline).0) - Polls(next), c.interval,
              deadline - p.monotonic(h), deadline - p.monotonic(next));
    }
  }

  lemma OneMore(m: int, interval: nat, left: real, next: real)
    requires Fits(m, interval, next) && left > 0.0 && next <= left - interval as real
    ensures Fits(m + 1, interval, left)
  {
    assert (m - 1) * interval == (m - 2) * interval + interval;
    if m == 1 { assert (m - 1) * interval == 0; }
  }

  /** Each wait makes at most ceil(timeout / interval) + 1 status reads. */
  lemma WaitIsBounded(p: Ports, c: Config, h: History, e: Execution)
    requires Steady(p, c)
    ensures Polls(Wait(p, c, h, e).0) - Polls(h) <= (c.timeout + c.interval - 1) / c.interval + 1
  {
    PollsAreSpaced(p, c, h, e, p.monotonic(h) + c.timeout as real);
    FittingReads(Polls(Wait(p, c, h, e).0) - Polls(h), c.timeout, c.interval);
  }

  lemma FittingReads(n: int, timeout: nat, interval: nat)
    requires interval > 0 && Fits(n, interval, timeout as real)
    ensures n <= (timeout + interval - 1) / interval + 1
  {
    if n >= 2 { Ceiling(n - 2, timeout, interval); }
  }

  lemma Ceiling(k: nat, timeout: nat, interval: nat)
    requires interval > 0 && k * interval < timeout
    ensures k + 1 <= (timeout + interval - 1) / interval
  {
    assert (k + 1) * interval == k * interval + interval;
    Quotient((k + 1) * interval, timeout + interval - 1, k + 1, interval);
  }

  lemma Quotient(x: nat, y: nat, k: nat, d: nat)
    requires d > 0 && x == k * d && x <= y
    ensures k <= y / d
  {
    assert y < (y / d + 1) * d;
    Monotone(y / d + 1, k, d);
  }

  lemma Monotone(a: nat, b: nat, d: nat)
    ensures a <= b ==> a * d <= b * d
  {
    if a <= b { assert (b - a) * d >= 0; }
  }
}
