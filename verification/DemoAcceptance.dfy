/** In every run each accepted phase rests on its evidence: what was read before it was accepted, and
    which accepted phase it follows. */
module DemoAcceptance {

  import opened Options
  import opened PhaseChain
  import opened DemoSaga
  import opened DemoEvidence

  /** Nothing is known before the baseline; every other phase follows an accepted one. */
  predicate Follows(h: History, phase: Phase, previous: Option<Verified>) {
    match Before(phase)
    case None => previous.None?
    case Some(before) => previous.Some? && Accepted(before, previous.value) in h
  }

  /** The phase that started after the first `j` of these events was proved by all the others. */
  predicate ProvedFrom(p: Ports, c: Config, h: History, phase: Phase, v: Verified, j: int,
                       previous: Option<Verified>, ev: Evidence) {
    && 0 <= j <= |h| && Follows(h[..j], phase, previous)
    && Proves(p, c, h[..j], phase, v.report, previous, ev)
    && h == Seen(c, h[..j], phase, v.report, previous, ev) && v == Evident(v.report, ev)
  }

  ghost predicate Backed(p: Ports, c: Config, h: History, phase: Phase, v: Verified) {
    exists j, previous, ev :: ProvedFrom(p, c, h, phase, v, j, previous, ev)
  }

  ghost predicate AllBacked(p: Ports, c: Config, h: History) {
    forall i {:trigger h[..i]} :: 0 <= i < |h| && h[i].Accepted? ==> Backed(p, c, h[..i], h[i].phase, h[i].verified)
  }

  // ---------------------------------------------------------------- what accepts nothing

  predicate Grows(h: History, after: History) {
    && |h| <= |after| && after[..|h|] == h
    && forall i :: |h| <= i < |after| ==> !after[i].Accepted?
  }

  lemma GrowsBy(h: History, e: Event)
    requires !e.Accepted?
    ensures Grows(h, h + [e])
  {
  }

  lemma GrowsOn(h: History, between: History, after: History)
    requires Grows(h, between) && Grows(between, after)
    ensures Grows(h, after)
  {
    forall i | 0 <= i < |between|
      ensures after[i] == between[i]
    {
      assert after[..|between|][i] == between[i];
    }
    assert after[..|h|] == between[..|h|];
  }

  lemma StaysBacked(p: Ports, c: Config, h: History, after: History)
    requires AllBacked(p, c, h) && Grows(h, after)
    ensures AllBacked(p, c, after)
  {
    forall i | 0 <= i < |after| && after[i].Accepted?
      ensures Backed(p, c, after[..i], after[i].phase, after[i].verified)
    {
      assert after[i] == after[..|h|][i] && after[..i] == h[..i];
    }
  }

  lemma AcceptanceIsBacked(p: Ports, c: Config, h: History, phase: Phase, v: Verified)
    requires AllBacked(p, c, h) && Backed(p, c, h, phase, v)
    ensures AllBacked(p, c, h + [Accepted(phase, v)])
  {
    var after := h + [Accepted(phase, v)];
    forall i | 0 <= i < |after| && after[i].Accepted?
      ensures Backed(p, c, after[..i], after[i].phase, after[i].verified)
    {
      if i < |h| { assert after[i] == h[i] && after[..i] == h[..i]; } else { assert after[..i] == h; }
    }
  }

  lemma {:induction false} WaitedGrows(h: History, e: Execution, n: int)
    ensures Grows(h, Waited(h, e, n))
  {
    if n > 0 {
      WaitedGrows(h, e, n - 1);
      var before := Waited(h, e, n - 1);
      GrowsBy(before, Polled(e.phase));
      GrowsBy(before + [Polled(e.phase)], Slept);
      GrowsOn(before, before + [Polled(e.phase)], Waited(h, e, n));
      GrowsOn(h, before, Waited(h, e, n));
    }
  }

  lemma WaitGrows(p: Ports, c: Config, h: History, e: Execution)
    requires Steady(p, c)
    ensures Grows(h, Wait(p, c, h, e).0)
  {
    var n := PollStops(p, c, h, e, Deadline(p, c, h), 0);
    WaitedGrows(h, e, n);
    GrowsBy(Waited(h, e, n), Polled(e.phase));
    GrowsOn(h, Waited(h, e, n), Wait(p, c, h, e).0);
  }

  lemma {:induction false} ReadsGrow(p: Ports, h: History, artifacts: seq<Artifact>)
    ensures Grows(h, ReadAll(p, h, artifacts).0)
    decreases |artifacts|
  {
    if artifacts != [] {
      var next := h + [Read(artifacts[0].reference)];
      GrowsBy(h, Read(artifacts[0].reference));
      ReadsGrow(p, next, artifacts[1..]);
      GrowsOn(h, next, ReadAll(p, next, artifacts[1..]).0);
    }
  }

  lemma CollectGrows(p: Ports, c: Config, h: History, e: Execution, phase: Phase, report: Report, previous: Option<Proven>)
    requires !Collect(p, c, h, e, phase, report, previous).1.Passed?
    ensures Grows(h, Collect(p, c, h, e, phase, report, previous).0)
  {
    var fetched, handoff := h + [Fetched(e.phase)], Fetch(p, c, h, e).1;
    GrowsBy(h, Fetched(e.phase));
    if handoff.Some? {
      var opening := fetched + [Read(handoff.value.index)];
      GrowsBy(fetched, Read(handoff.value.index));
      GrowsOn(h, fetched, opening);
      var content := p.read(fetched, handoff.value.index);
      if content.Some? && content.value.IndexBytes? {
        ReadsGrow(p, opening, content.value.index.body.artifacts);
        GrowsOn(h, opening, ReadAll(p, opening, content.value.index.body.artifacts).0);
      }
    }
  }

  lemma RefusedGrows(p: Ports, c: Config, h: History, phase: Phase, report: Report, previous: Option<Proven>)
    requires Steady(p, c) && !RunVerified(p, c, h, phase, report, previous).1.Passed?
    ensures Grows(h, RunVerified(p, c, h, phase, report, previous).0)
  {
    var inputs := PhaseInputs(c.bundle, phase, report, VerifiedIn(previous));
    var (started, execution) := Start(p, c, h, phase, inputs);
    GrowsBy(h, Started(phase, inputs));
    if execution.Some? {
      WaitGrows(p, c, started, execution.value);
      var (polled, ok) := Wait(p, c, started, execution.value);
      GrowsOn(h, started, polled);
      if ok {
        CollectGrows(p, c, polled, execution.value, phase, report, previous);
        GrowsOn(h, polled, Collect(p, c, polled, execution.value, phase, report, previous).0);
      }
    }
  }

  lemma SeenGrows(c: Config, h: History, phase: Phase, report: Report, previous: Option<Verified>, ev: Evidence)
    ensures Grows(h, Seen(c, h, phase, report, previous, ev))
  {
    var started, e := StartedAt(c, h, phase, report, previous), ev.execution;
    var waited, seen := Waited(started, e, ev.running), Seen(c, h, phase, report, previous, ev);
    GrowsBy(h, Started(phase, PhaseInputs(c.bundle, phase, report, previous)));
    WaitedGrows(started, e, ev.running);
    GrowsOn(h, started, waited);
    assert seen == waited + ([Polled(e.phase), Fetched(e.phase), Read(ev.reference)] + Reads(ev.index.body.artifacts));
    GrowsOn(h, waited, seen);
  }

  lemma ActGrows(p: Ports, c: Config, h: History, a: Action, previous: Option<Report>, allowMissing: bool)
    ensures Grows(h, Act(p, c, h, a, previous, allowMissing).0)
  {
  }

  // ---------------------------------------------------------------- every run

  lemma PhaseIsBacked(p: Ports, c: Config, h: History, phase: Phase, report: Report, previous: Option<Proven>)
    requires Steady(p, c) && AllBacked(p, c, h) && Follows(h, phase, VerifiedIn(previous))
    ensures var (after, checked) := RunVerified(p, c, h, phase, report, previous);
            AllBacked(p, c, after) && (checked.Passed? ==> Accepted(phase, checked.proven.verified) in after)
  {
    var (after, checked) := RunVerified(p, c, h, phase, report, previous);
    if checked.Passed? {
      var ev := EvidenceWasThere(p, c, h, phase, report, previous);
      EvidenceSettles(p, c, h, phase, report, previous, ev);
      var seen := Seen(c, h, phase, report, VerifiedIn(previous), ev);
      SeenGrows(c, h, phase, report, VerifiedIn(previous), ev);
      StaysBacked(p, c, h, seen);
      assert ProvedFrom(p, c, seen, phase, Evident(report, ev), |h|, VerifiedIn(previous), ev);
      AcceptanceIsBacked(p, c, seen, phase, Evident(report, ev));
    } else {
      RefusedGrows(p, c, h, phase, report, previous);
      StaysBacked(p, c, h, after);
    }
  }

  lemma StillFollows(h: History, after: History, phase: Phase, previous: Option<Verified>)
    requires Follows(h, phase, previous) && Grows(h, after)
    ensures Follows(after, phase, previous)
  {
    if previous.Some? {
      var i :| 0 <= i < |h| && h[i] == Accepted(Before(phase).value, previous.value);
      assert after[i] == after[..|h|][i];
    }
  }

  lemma ActedPhaseIsBacked(p: Ports, c: Config, h: History, acted: History, phase: Phase, report: Report, previous: Option<Proven>)
    requires Steady(p, c) && AllBacked(p, c, h) && Follows(h, phase, VerifiedIn(previous)) && Grows(h, acted)
    ensures var (after, checked) := RunVerified(p, c, acted, phase, report, previous);
            AllBacked(p, c, after) && (checked.Passed? ==> Accepted(phase, checked.proven.verified) in after)
  {
    StaysBacked(p, c, h, acted);
    StillFollows(h, acted, phase, VerifiedIn(previous));
    PhaseIsBacked(p, c, acted, phase, report, previous);
  }

  lemma BaselineIsBacked(p: Ports, c: Config)
    requires Steady(p, c)
    ensures var (h, baseline) := BaselineStage(p, c);
            AllBacked(p, c, h) && (baseline.Passed? ==> Accepted(Baseline, baseline.proven.verified) in h)
  {
    var none: History := [];
    ActGrows(p, c, none, Status, None, false);
    var (acted, report, ok) := Act(p, c, none, Status, None, false);
    StaysBacked(p, c, none, acted);
    if ok { ActedPhaseIsBacked(p, c, none, acted, Baseline, report.value, None); }
  }

  lemma FaultIsBacked(p: Ports, c: Config, h: History, baseline: Proven)
    requires Steady(p, c) && AllBacked(p, c, h) && Accepted(Baseline, baseline.verified) in h
    ensures var (after, _, faulted) := FaultStage(p, c, h, baseline);
            AllBacked(p, c, after) && (faulted.Passed? ==> Accepted(Faulted, faulted.proven.verified) in after)
  {
    var previous := Some(baseline.verified.report);
    ActGrows(p, c, h, Inject, previous, false);
    var (acted, report, ok) := Act(p, c, h, Inject, previous, false);
    StaysBacked(p, c, h, acted);
    if ok { ActedPhaseIsBacked(p, c, h, acted, Faulted, report.value, Some(baseline)); }
  }

  lemma RecoveryIsBacked(p: Ports, c: Config, h: History, baseline: Proven, faulted: Proven, reset: Report)
    requires Steady(p, c) && AllBacked(p, c, h) && Follows(h, Recovered, Some(faulted.verified))
    ensures AllBacked(p, c, RecoveryStage(p, c, h, baseline, faulted, reset).0)
  {
    PhaseIsBacked(p, c, h, Recovered, reset, Some(faulted));
    var (last, recovered) := RunVerified(p, c, h, Recovered, reset, Some(faulted));
    if recovered.Passed? {
      var manifest := ManifestOf(p, c, last, baseline, faulted, recovered.proven);
      GrowsBy(last, Publishing(manifest));
      StaysBacked(p, c, last, last + [Publishing(manifest)]);
    }
  }

  lemma ResetIsBacked(p: Ports, c: Config, h: History, baseline: Proven, injected: Option<Report>)
    requires AllBacked(p, c, h)
    ensures AllBacked(p, c, ResetStage(p, c, h, baseline, injected).0)
    ensures Grows(h, ResetStage(p, c, h, baseline, injected).0)
  {
    var previous := if injected.Some? then injected.value else baseline.verified.report;
    ActGrows(p, c, h, Reset, Some(previous), injected.None?);
    StaysBacked(p, c, h, ResetStage(p, c, h, baseline, injected).0);
  }

  lemma ResetRunIsBacked(p: Ports, c: Config, h: History, last: History, baseline: Proven, faulted: Proven, reset: Report)
    requires Steady(p, c) && AllBacked(p, c, last) && Grows(h, last) && Accepted(Faulted, faulted.verified) in h
    ensures AllBacked(p, c, RecoveryStage(p, c, last, baseline, faulted, reset).0)
  {
    StillFollows(h, last, Recovered, Some(faulted.verified));
    RecoveryIsBacked(p, c, last, baseline, faulted, reset);
  }

  lemma SettlementIsBacked(p: Ports, c: Config, h: History, baseline: Proven, injected: Option<Report>, faulted: Option<Proven>)
    requires Steady(p, c) && AllBacked(p, c, h)
    requires faulted.Some? ==> Accepted(Faulted, faulted.value.verified) in h
    ensures AllBacked(p, c, SettleStage(p, c, h, baseline, injected, faulted).0)
  {
    ResetIsBacked(p, c, h, baseline, injected);
    var (last, reset) := ResetStage(p, c, h, baseline, injected);
    if reset.Some? && faulted.Some? { ResetRunIsBacked(p, c, h, last, baseline, faulted.value, reset.value); }
  }

  /** Whatever its ports answer, a run accepts a phase only on evidence. */
  lemma AcceptedOnEvidence(p: Ports, c: Config)
    requires Steady(p, c)
    ensures AllBacked(p, c, Run(p, c).0)
  {
    BaselineIsBacked(p, c);
    var (h, baseline) := BaselineStage(p, c);
    if baseline.Passed? {
      FaultIsBacked(p, c, h, baseline.proven);
      var (last, injected, faulted) := FaultStage(p, c, h, baseline.proven);
      if !faulted.Escaped? { SettlementIsBacked(p, c, last, baseline.proven, injected, ProvenIn(faulted)); }
    }
  }

  /** The last status read before an acceptance. */
  predicate LastPoll(h: History, phase: Phase, q: int) {
    && 0 <= q < |h| && h[q] == Polled(phase)
    && forall r :: q < r < |h| ==> !h[r].Polled?
  }

  lemma LastOfEvidence(p: Ports, c: Config, h: History, phase: Phase, v: Verified, j: int, previous: Option<Verified>, ev: Evidence)
    requires ProvedFrom(p, c, h, phase, v, j, previous, ev)
    ensures var waited := Waited(StartedAt(c, h[..j], phase, v.report, previous), ev.execution, ev.running);
            LastPoll(h, phase, |waited|) && h[..|waited|] == waited && Says(p, waited, ev.execution, Succeeded)
  {
    var waited := Waited(StartedAt(c, h[..j], phase, v.report, previous), ev.execution, ev.running);
    assert h == waited + ([Polled(phase), Fetched(phase), Read(ev.reference)] + Reads(ev.index.body.artifacts));
  }

  /** The last status read before the phase was accepted said that a job of this run and phase, the one
      that some start returned, had succeeded. */
  predicate PolledSuccess(p: Ports, c: Config, h: History, phase: Phase, q: int, e: Execution) {
    && LastPoll(h, phase, q) && Says(p, h[..q], e, Succeeded)
    && e.run == c.bundle.run && e.phase == phase
    && exists s :: 0 <= s < q && h[s].Started? && p.start(h[..s], h[s].inputs) == Some(e)
  }

  lemma BackedSucceeded(p: Ports, c: Config, h: History, phase: Phase, v: Verified)
    requires Backed(p, c, h, phase, v)
    ensures exists q, e :: PolledSuccess(p, c, h, phase, q, e)
  {
    var j, previous, ev :| ProvedFrom(p, c, h, phase, v, j, previous, ev);
    var started := StartedAt(c, h[..j], phase, v.report, previous);
    var waited := Waited(started, ev.execution, ev.running);
    LastOfEvidence(p, c, h, phase, v, j, previous, ev);
    WaitedGrows(started, ev.execution, ev.running);
    assert h[j] == waited[..|started|][j] == started[j];
    assert PolledSuccess(p, c, h, phase, |waited|, ev.execution);
  }

  /** So a phase is accepted only if the last status read of its job said that it succeeded. */
  lemma AcceptedSucceeded(p: Ports, c: Config, h: History, i: int)
    requires Steady(p, c) && h == Run(p, c).0 && 0 <= i < |h| && h[i].Accepted?
    ensures exists q, e :: PolledSuccess(p, c, h[..i], h[i].phase, q, e)
  {
    AcceptedOnEvidence(p, c);
    BackedSucceeded(p, c, h[..i], h[i].phase, h[i].verified);
  }

  // ---------------------------------------------------------------- what is published

  /** The digests that go into the manifest are those of the presentation and the attestation which the
      index of the phase names. */
  predicate DigestsNamed(proven: Proven) {
    && NamesDigest(proven.verified.index, ArgusPresentation, Digests(proven).0)
    && NamesDigest(proven.verified.index, PresentationAttestation, Digests(proven).1)
  }

  lemma PhaseDigestsNamed(p: Ports, c: Config, h: History, phase: Phase, report: Report, previous: Option<Proven>)
    requires Steady(p, c)
    ensures var checked := RunVerified(p, c, h, phase, report, previous).1;
            checked.Passed? ==> DigestsNamed(checked.proven)
  {
    var checked := RunVerified(p, c, h, phase, report, previous).1;
    if checked.Passed? {
      var ev := EvidenceWasThere(p, c, h, phase, report, previous);
      EvidenceSettles(p, c, h, phase, report, previous, ev);
    }
  }

  lemma StageDigestsNamed(p: Ports, c: Config, h: History, baseline: Proven)
    requires Steady(p, c)
    ensures BaselineStage(p, c).1.Passed? ==> DigestsNamed(BaselineStage(p, c).1.proven)
    ensures FaultStage(p, c, h, baseline).2.Passed? ==> DigestsNamed(FaultStage(p, c, h, baseline).2.proven)
  {
    var (acted, report, ok) := Act(p, c, [], Status, None, false);
    if ok { PhaseDigestsNamed(p, c, acted, Baseline, report.value, None); }
    var (injected, fault, done) := Act(p, c, h, Inject, Some(baseline.verified.report), false);
    if done { PhaseDigestsNamed(p, c, injected, Faulted, fault.value, Some(baseline)); }
  }

  predicate NamedOutcome(outcome: Outcome) {
    match outcome
    case Completed(baseline, faulted, recovered, publication) =>
      && DigestsNamed(baseline) && DigestsNamed(faulted) && DigestsNamed(recovered)
      && (publication.Some? ==>
            publication.value.manifest.digests == [Digests(baseline), Digests(faulted), Digests(recovered)])
    case _ => true
  }

  lemma RecoveredDigestsNamed(p: Ports, c: Config, h: History, baseline: Proven, faulted: Proven, reset: Report)
    requires Steady(p, c) && DigestsNamed(baseline) && DigestsNamed(faulted)
    ensures NamedOutcome(RecoveryStage(p, c, h, baseline, faulted, reset).1)
  {
    PhaseDigestsNamed(p, c, h, Recovered, reset, Some(faulted));
  }

  lemma SettledDigestsNamed(p: Ports, c: Config, h: History, baseline: Proven, injected: Option<Report>, faulted: Option<Proven>)
    requires Steady(p, c) && DigestsNamed(baseline) && (faulted.Some? ==> DigestsNamed(faulted.value))
    ensures NamedOutcome(SettleStage(p, c, h, baseline, injected, faulted).1)
  {
    var (last, reset) := ResetStage(p, c, h, baseline, injected);
    if reset.Some? && faulted.Some? { RecoveredDigestsNamed(p, c, last, baseline, faulted.value, reset.value); }
  }

  /** A run publishes, for each phase, the digests its index names for the presentation and its
      attestation. */
  lemma PublishedAsIndexed(p: Ports, c: Config)
    requires Steady(p, c)
    ensures NamedOutcome(Run(p, c).1)
  {
    var (h, baseline) := BaselineStage(p, c);
    if baseline.Passed? {
      StageDigestsNamed(p, c, h, baseline.proven);
      var (last, injected, faulted) := FaultStage(p, c, h, baseline.proven);
      if !faulted.Escaped? { SettledDigestsNamed(p, c, last, baseline.proven, injected, ProvenIn(faulted)); }
    }
  }
}
