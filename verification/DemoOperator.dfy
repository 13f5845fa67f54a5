/** The operator itself: each method of the operational demo, performing its effects through ports and
    recording them, and proved to do exactly what the run described in DemoSaga does. */
module DemoOperator {

  import opened Options
  import opened PhaseChain
  import opened DemoSaga

  class Operator {
    const ports: Ports
    const config: Config
    var history: History

    constructor (ports: Ports, config: Config)
      ensures this.ports == ports && this.config == config && history == []
    {
      this.ports := ports;
      this.config := config;
      history := [];
    }

    method InvokeWorkloadAction(action: Action) returns (r: Option<Report>)
      modifies this`history
      ensures (history, r) == Invoke(ports, config, old(history), action)
    {
      var reply := ports.act(history, action);
      history := history + [Attempted(action)];
      if reply.None? || !ValidReport(reply.value) { return None; }
      if reply.value.run != config.bundle.run || reply.value.action != action { return None; }
      history := history + [Reported(reply.value)];
      return reply;
    }

    method StartPhaseJob(phase: Phase, inputs: Inputs) returns (r: Option<Execution>)
      modifies this`history
      ensures (history, r) == Start(ports, config, old(history), phase, inputs)
    {
      var reply := ports.start(history, inputs);
      history := history + [Started(phase, inputs)];
      if reply.None? || reply.value.run != config.bundle.run || reply.value.phase != phase { return None; }
      return reply;
    }

    /** Polls until the job is done, fails, or the deadline has passed. */
    method WaitForPhaseSuccess(execution: Execution) returns (ok: bool)
      requires Steady(ports, config)
      modifies this`history
      ensures (history, ok) == Wait(ports, config, old(history), execution)
    {
      var deadline := ports.monotonic(history) + config.timeout as real;
      while true
        invariant Poll(ports, config, history, execution, deadline) == Wait(ports, config, old(history), execution)
        decreases deadline - ports.monotonic(history)
      {
        ghost var before := history;
        var reply := ports.status(history, execution);
        history := history + [Polled(execution.phase)];
        if reply.None? || !Describes(reply.value, execution) { return false; }
        if reply.value.state == Succeeded { return true; }
        if reply.value.state == Failed { return false; }
        if reply.value.state == Unknown { return false; }
        if ports.monotonic(history) >= deadline { return false; }
        assert ports.monotonic(before) <= ports.monotonic(before + [Polled(execution.phase)]);
        history := history + [Slept];
      }
    }

    method ReadPhaseHandoff(execution: Execution) returns (r: Option<Handoff>)
      modifies this`history
      ensures (history, r) == Fetch(ports, config, old(history), execution)
    {
      var reply := ports.handoff(history, execution);
      history := history + [Fetched(execution.phase)];
      if reply.None? { return None; }
      if reply.value.index.name != ArtifactName(reply.value.run, reply.value.phase, INDEX_SLOT) { return None; }
      if reply.value.run != execution.run || reply.value.phase != execution.phase { return None; }
      if reply.value.bundle != config.bundle.digest { return None; }
      return reply;
    }

    method ReadExactArtifact(reference: Reference) returns (r: Option<Content>)
      modifies this`history
      ensures (history, r) == ReadExact(ports, old(history), reference)
    {
      var reply := ports.read(history, reference);
      history := history + [Read(reference)];
      if reply.None? || Sha(reply.value) != reference.digest { return None; }
      return reply;
    }

    method ReadArtifacts(artifacts: seq<Artifact>) returns (r: Option<seq<Content>>)
      modifies this`history
      ensures (history, r) == ReadAll(ports, old(history), artifacts)
    {
      var contents: seq<Content> := [];
      ghost var whole := ReadAll(ports, history, artifacts);
      assert artifacts[0..] == artifacts;
      assert whole.1.Some? ==> contents + whole.1.value == whole.1.value;
      for i := 0 to |artifacts|
        invariant var (last, rest) := ReadAll(ports, history, artifacts[i..]);
                  whole == (last, if rest.Some? then Some(contents + rest.value) else None)
      {
        assert artifacts[i..][0] == artifacts[i] && artifacts[i..][1..] == artifacts[i + 1..];
        ghost var rest := ReadAll(ports, ReadExact(ports, history, artifacts[i].reference).0, artifacts[i + 1..]).1;
        var content := ReadExactArtifact(artifacts[i].reference);
        if content.None? { return None; }
        assert rest.Some? ==> contents + ([content.value] + rest.value) == (contents + [content.value]) + rest.value;
        contents := contents + [content.value];
      }
      assert artifacts[|artifacts|..] == [] && contents + [] == contents;
      return Some(contents);
    }

    method VerifyPhaseArtifacts(phase: Phase, report: Report, previous: Option<Proven>, handoff: Handoff)
      returns (r: Checked)
      modifies this`history
      ensures (history, r) == Verify(ports, config, old(history), phase, report, previous, handoff)
    {
      var content := ReadExactArtifact(handoff.index);
      if content.None? || !content.value.IndexBytes? || !ValidIndex(content.value.index) { return Refused; }
      var index := content.value.index;
      if !IndexAccepted(config.bundle, phase, report, VerifiedIn(previous), index) { return Refused; }
      var contents := ReadArtifacts(index.body.artifacts);
      if contents.None? || |contents.value| != 5 { return Refused; }
      var evaluated := ports.evaluate(phase, report.receipt, index, contents.value);
      if evaluated.Raises? { return Escaped; }
      if evaluated.Unsound? { return Refused; }
      var verified := Verified(report, index, handoff.index);
      history := history + [Accepted(phase, verified)];
      return Passed(Proven(verified, evaluated.evaluated, contents.value[2], contents.value[3]));
    }

    method RunVerifiedPhase(phase: Phase, report: Report, previous: Option<Proven>) returns (r: Checked)
      requires Steady(ports, config)
      modifies this`history
      ensures (history, r) == RunVerified(ports, config, old(history), phase, report, previous)
    {
      var inputs := PhaseInputs(config.bundle, phase, report, VerifiedIn(previous));
      var execution := StartPhaseJob(phase, inputs);
      if execution.None? { return Refused; }
      var ok := WaitForPhaseSuccess(execution.value);
      if !ok { return Refused; }
      var handoff := ReadPhaseHandoff(execution.value);
      if handoff.None? { return Refused; }
      r := VerifyPhaseArtifacts(phase, report, previous, handoff.value);
    }

    method BaselineRun() returns (r: Checked)
      requires Steady(ports, config) && history == []
      modifies this`history
      ensures (history, r) == BaselineStage(ports, config)
    {
      var report := InvokeWorkloadAction(Status);
      if report.None? || !TransitionOk(None, report.value, Status, false) { return Refused; }
      history := history + [Confirmed(Status)];
      r := RunVerifiedPhase(Baseline, report.value, None);
    }

    method FaultRun(baseline: Proven) returns (injected: Option<Report>, faulted: Checked)
      requires Steady(ports, config)
      modifies this`history
      ensures (history, injected, faulted) == FaultStage(ports, config, old(history), baseline)
    {
      faulted := Refused;
      injected := InvokeWorkloadAction(Inject);
      if injected.Some? && TransitionOk(Some(baseline.verified.report), injected.value, Inject, false) {
        history := history + [Confirmed(Inject)];
        faulted := RunVerifiedPhase(Faulted, injected.value, Some(baseline));
      }
    }

    method ResetRun(baseline: Proven, injected: Option<Report>) returns (reset: Option<Report>)
      modifies this`history
      ensures (history, reset) == ResetStage(ports, config, old(history), baseline, injected)
    {
      var previous := if injected.Some? then injected.value else baseline.verified.report;
      reset := InvokeWorkloadAction(Reset);
      if reset.None? { return None; }
      if !TransitionOk(Some(previous), reset.value, Reset, injected.None?) { return None; }
      history := history + [Confirmed(Reset)];
    }

    method Publish(baseline: Proven, faulted: Proven, recovered: Proven) returns (outcome: Outcome)
      modifies this`history
      ensures (history, outcome) == PublishStage(ports, config, old(history), baseline, faulted, recovered)
    {
      if !config.publishes { return Completed(baseline, faulted, recovered, None); }
      if !(Group(baseline) == Group(faulted) == Group(recovered)) { return PublicationFailed; }
      var manifest := ManifestOf(ports, config, history, baseline, faulted, recovered);
      var reply := ports.publish(history, manifest);
      history := history + [Publishing(manifest)];
      if reply != Some(PublicationReceipt(config.bundle.run, MANIFEST_NAME, manifest)) { return PublicationFailed; }
      return Completed(baseline, faulted, recovered, reply);
    }

    method RunOperationalDemo() returns (outcome: Outcome)
      requires Steady(ports, config) && history == []
      modifies this`history
      ensures (history, outcome) == Run(ports, config)
    {
      var baseline := BaselineRun();
      if baseline.Escaped? { return Aborted(Baseline); }
      if baseline.Refused? { return NotInjected; }
      var injected, faulted := FaultRun(baseline.proven);
      if faulted.Escaped? { return Aborted(Faulted); }
      var reset := ResetRun(baseline.proven, injected);
      if reset.None? { return ResetFailed; }
      if faulted.Refused? { return FailedButReset; }
      var recovered := RunVerifiedPhase(Recovered, reset.value, Some(faulted.proven));
      if recovered.Escaped? { return Aborted(Recovered); }
      if recovered.Refused? { return RecoveryFailed; }
      outcome := Publish(baseline.proven, faulted.proven, recovered.proven);
    }
  }
}
