/** An exception that the operator does not foresee, raised while the artifacts of the faulted phase are
    checked, leaves the fault injected: a run on which everything else goes well. */
module DemoEscapes {

  import opened Options
  import opened PhaseChain
  import opened DemoSaga
  import opened DemoSafety

  function PlaceOf(phase: Phase): nat {
    match phase
    case Baseline => 0
    case Faulted => 1
    case Recovered => 2
  }

  /** Ports on which every call succeeds and every artifact reads as its digest says; the checks of a
      phase's artifacts end as `judge` says. */
  function WillingPorts(bundle: Bundle, reports: seq<Report>, works: seq<Work>, judge: Phase -> Judgement): Ports
    requires |reports| <= 3 && |reports| <= |works|
  {
    Ports(
      (h: History, a: Action) => if PlaceOf(PhaseOf(a)) < |reports| then Some(reports[PlaceOf(PhaseOf(a))]) else None,
      (h: History, i: Inputs) => Some(Execution(i.run, i.phase, "job")),
      (h: History, e: Execution) => Some(JobStatus(e.run, e.phase, e.id, Succeeded)),
      (h: History, e: Execution) => if PlaceOf(e.phase) < |reports|
                then Some(Handoff(e.run, e.phase, bundle.digest, Chain(bundle, reports, works, PlaceOf(e.phase)).reference))
                else None,
      (h: History, r: Reference) => if r.digest.Sha? then Some(r.digest.content) else None,
      (phase: Phase, r: Receipt, i: Index, cs: seq<Content>) => judge(phase),
      (h: History, m: Manifest) => None,
      (h: History) => |h| as real,
      (h: History) => 0)
  }

  predicate Readable(works: seq<Work>) {
    forall n, i :: 0 <= n < |works| && 0 <= i < |works[n].artifacts| ==> works[n].artifacts[i].reference.digest.Sha?
  }

  ghost predicate Willing(p: Ports, c: Config, reports: seq<Report>, works: seq<Work>, judge: Phase -> Judgement) {
    && PhaseReports(c.bundle, reports, works) && Readable(works)
    && p == WillingPorts(c.bundle, reports, works, judge) && c.timeout == c.interval == 1
  }

  lemma WillingIsSteady(p: Ports, c: Config, reports: seq<Report>, works: seq<Work>, judge: Phase -> Judgement)
    requires Willing(p, c, reports, works, judge)
    ensures Steady(p, c)
  {
  }

  lemma {:induction false} EverythingReads(p: Ports, h: History, artifacts: seq<Artifact>)
    requires forall h', r :: p.read(h', r) == if r.digest.Sha? then Some(r.digest.content) else None
    requires forall i :: 0 <= i < |artifacts| ==> artifacts[i].reference.digest.Sha?
    ensures ReadAll(p, h, artifacts).1.Some? && |ReadAll(p, h, artifacts).1.value| == |artifacts|
    decreases |artifacts|
  {
    if artifacts != [] { EverythingReads(p, ReadExact(p, h, artifacts[0].reference).0, artifacts[1..]); }
  }

  predicate Judged(j: Judgement, v: Verified, evaluated: Checked) {
    match j
    case Raises => evaluated == Escaped
    case Unsound => evaluated == Refused
    case Sound(_) => evaluated.Passed? && evaluated.proven.verified == v
  }

  lemma WillingVerify(p: Ports, c: Config, reports: seq<Report>, works: seq<Work>, judge: Phase -> Judgement, n: nat,
                      h: History, previous: Option<Proven>, handoff: Handoff)
    requires Willing(p, c, reports, works, judge) && n < |reports|
    requires VerifiedIn(previous) == ChainBefore(c.bundle, reports, works, n)
    requires handoff.index == Chain(c.bundle, reports, works, n).reference
    ensures Judged(judge(PhaseAt(n)), Chain(c.bundle, reports, works, n),
                   Verify(p, c, h, PhaseAt(n), reports[n], previous, handoff).1)
  {
    var v := Chain(c.bundle, reports, works, n);
    ChainIsAccepted(c.bundle, reports, works, n);
    assert v.index.body.artifacts == works[n].artifacts;
    HeldVerifies(p, c, judge, h, PhaseAt(n), v, previous, handoff);
  }

  lemma HeldVerifies(p: Ports, c: Config, judge: Phase -> Judgement, h: History, phase: Phase, v: Verified,
                     previous: Option<Proven>, handoff: Handoff)
    requires forall h', r :: p.read(h', r) == if r.digest.Sha? then Some(r.digest.content) else None
    requires forall report, index, contents :: p.evaluate(phase, report, index, contents) == judge(phase)
    requires Held(c.bundle, phase, v, VerifiedIn(previous)) && handoff.index == v.reference
    requires forall i :: 0 <= i < |v.index.body.artifacts| ==> v.index.body.artifacts[i].reference.digest.Sha?
    ensures Judged(judge(phase), v, Verify(p, c, h, phase, v.report, previous, handoff).1)
  {
    var (opening, content) := ReadExact(p, h, handoff.index);
    assert content == Some(IndexBytes(v.index));
    WillingContents(p, judge, opening, phase, v);
  }

  lemma WillingContents(p: Ports, judge: Phase -> Judgement, h: History, phase: Phase, v: Verified)
    requires forall h', r :: p.read(h', r) == if r.digest.Sha? then Some(r.digest.content) else None
    requires forall report, index, contents :: p.evaluate(phase, report, index, contents) == judge(phase)
    requires |v.index.body.artifacts| == 5
    requires forall i :: 0 <= i < 5 ==> v.index.body.artifacts[i].reference.digest.Sha?
    ensures Judged(judge(phase), v, VerifyContents(p, h, phase, v.report, v.index, v.reference).1)
  {
    EverythingReads(p, h, v.index.body.artifacts);
  }

  lemma WillingCollect(p: Ports, c: Config, reports: seq<Report>, works: seq<Work>, judge: Phase -> Judgement, n: nat,
                       h: History, e: Execution, previous: Option<Proven>)
    requires Willing(p, c, reports, works, judge) && n < |reports| && e.run == c.bundle.run && e.phase == PhaseAt(n)
    requires VerifiedIn(previous) == ChainBefore(c.bundle, reports, works, n)
    ensures Judged(judge(PhaseAt(n)), Chain(c.bundle, reports, works, n),
                   Collect(p, c, h, e, PhaseAt(n), reports[n], previous).1)
  {
    var (fetched, handoff) := Fetch(p, c, h, e);
    assert handoff.Some? && handoff.value.index == Chain(c.bundle, reports, works, n).reference;
    WillingVerify(p, c, reports, works, judge, n, fetched, previous, handoff.value);
  }

  lemma WillingWait(p: Ports, c: Config, h: History, e: Execution)
    requires Steady(p, c) && p.status(h, e) == Some(JobStatus(e.run, e.phase, e.id, Succeeded))
    ensures Wait(p, c, h, e).1
  {
  }

  lemma WillingPhase(p: Ports, c: Config, reports: seq<Report>, works: seq<Work>, judge: Phase -> Judgement, n: nat,
                     h: History, previous: Option<Proven>)
    requires Willing(p, c, reports, works, judge) && Steady(p, c) && n < |reports|
    requires VerifiedIn(previous) == ChainBefore(c.bundle, reports, works, n)
    ensures Judged(judge(PhaseAt(n)), Chain(c.bundle, reports, works, n),
                   RunVerified(p, c, h, PhaseAt(n), reports[n], previous).1)
  {
    var phase := PhaseAt(n);
    var (started, execution) := Start(p, c, h, phase, PhaseInputs(c.bundle, phase, reports[n], VerifiedIn(previous)));
    assert execution == Some(Execution(c.bundle.run, phase, "job"));
    WillingWait(p, c, started, execution.value);
    WillingCollect(p, c, reports, works, judge, n, Wait(p, c, started, execution.value).0, execution.value, previous);
  }

  lemma WillingAct(p: Ports, c: Config, reports: seq<Report>, works: seq<Work>, judge: Phase -> Judgement, n: nat,
                   h: History)
    requires Willing(p, c, reports, works, judge) && n < |reports|
    ensures var (_, report, ok) := Act(p, c, h, ActionOf(PhaseAt(n)), ReportBefore(reports, n), false);
            ok && report == Some(reports[n])
  {
    assert PhaseReport(c.bundle, reports, works, n);
  }

  /** Whatever reports the operator accepts: if then the checks of the baseline's artifacts hold and those
      of the faulted phase raise something unforeseen, the fault is injected and never reset. */
  lemma EscapeLeavesTheFault(p: Ports, c: Config, reports: seq<Report>, works: seq<Work>, judge: Phase -> Judgement)
    requires Willing(p, c, reports, works, judge) && |reports| >= 2
    requires judge(Baseline).Sound? && judge(Faulted).Raises?
    ensures Steady(p, c) && Run(p, c).1 == Aborted(Faulted)
    ensures var h := Run(p, c).0; Count(h, Inject) == 1 && Count(h, Reset) == 0
  {
    WillingIsSteady(p, c, reports, works, judge);
    WillingAct(p, c, reports, works, judge, 0, []);
    WillingPhase(p, c, reports, works, judge, 0, Act(p, c, [], Status, None, false).0, None);
    var (h, baseline) := BaselineStage(p, c);
    assert baseline.Passed? && Some(baseline.proven.verified.report) == ReportBefore(reports, 1);
    WillingAct(p, c, reports, works, judge, 1, h);
    WillingPhase(p, c, reports, works, judge, 1, Act(p, c, h, Inject, ReportBefore(reports, 1), false).0,
                 Some(baseline.proven));
    assert FaultedChecksEscape(p, c);
    RunsResetWhatTheyInject(p, c);
  }

  // ---------------------------------------------------------------- a run of this kind

  function ReportOf(run: string, target: Target, action: Action, before: Power, after: Power, at: int): Report {
    var receipt := Receipt(action, target, 0, before, after, at, at);
    Report(run, action, receipt, Reference(ReceiptName(run, PhaseOf(action)), run, Sha(ReceiptBytes(receipt))))
  }

  function WorkOf(run: string, phase: Phase, results: Results): Work {
    Work(results,
         seq(5, i requires 0 <= i < 5 => Artifact(KINDS[i], Reference(ArtifactName(run, phase, SLOTS[i]), run, Sha(Bytes(i))))),
         run)
  }

  function FaultOnly(phase: Phase): Judgement { if phase == Faulted then Raises else Sound(0) }

  /** For any delivery bundle and any target there is a run that injects and does not reset. */
  lemma SomeRunIsNotReset(bundle: Bundle, target: Target, results: Results) returns (p: Ports, c: Config)
    ensures c.bundle == bundle && Steady(p, c)
    ensures var h := Run(p, c).0; Count(h, Inject) == 1 && Count(h, Reset) == 0
  {
    var status := ReportOf(bundle.run, target, Status, Running, Running, 0);
    var inject := ReportOf(bundle.run, target, Inject, Running, Stopped, 1);
    var reports, works := [status, inject], [WorkOf(bundle.run, Baseline, results), WorkOf(bundle.run, Faulted, results)];
    assert PhaseReport(bundle, reports, works, 0);
    assert PhaseReport(bundle, reports, works, 1);
    p := WillingPorts(bundle, reports, works, FaultOnly);
    c := Config(bundle, 1, 1, false);
    EscapeLeavesTheFault(p, c, reports, works, FaultOnly);
  }
}
