/** What holds of every run of the operational demo, whatever its ports answer. The order of events is
    stated by an automaton that knows nothing of the ports; the rest are facts about what it accepts. */
module DemoSafety {

  import opened Options
  import opened PhaseChain
  import opened DemoSaga

  /** `ready` says that the phase before the action was verified. */
  datatype Stage =
    | Idle
    | Acting(action: Action, ready: bool)
    | Heard(action: Action, ready: bool)
    | Acted(action: Action, ready: bool)
    | Polling(phase: Phase)
    | Fetching(phase: Phase)
    | Proved(phase: Phase)
    | Published

  /** A reset is owed from the moment an injection is attempted until a reset is. */
  predicate Owed(s: Stage) {
    match s
    case Acting(a, _) => a == Inject
    case Heard(a, _) => a == Inject
    case Acted(a, _) => a == Inject
    case Polling(p) => p == Faulted
    case Fetching(p) => p == Faulted
    case Proved(p) => p == Faulted
    case _ => false
  }

  function Next(s: Stage, e: Event): Option<Stage> {
    match e
    case Attempted(a) =>
      (match a
       case Status => if s == Idle then Some(Acting(Status, true)) else None
       case Inject => if s == Proved(Baseline) then Some(Acting(Inject, true)) else None
       case Reset => if Owed(s) then Some(Acting(Reset, s == Proved(Faulted))) else None)
    case Reported(r) => if s.Acting? && s.action == r.action then Some(Heard(s.action, s.ready)) else None
    case Confirmed(a) => if s.Heard? && s.action == a then Some(Acted(a, s.ready)) else None
    case Started(p, i) => if s == Acted(ActionOf(p), true) && i.phase == p then Some(Polling(p)) else None
    case Polled(p) => if s == Polling(p) then Some(s) else None
    case Slept => if s.Polling? then Some(s) else None
    case Fetched(p) => if s == Polling(p) then Some(Fetching(p)) else None
    case Read(_) => if s.Fetching? then Some(s) else None
    case Accepted(p, _) => if s == Fetching(p) then Some(Proved(p)) else None
    case Publishing(_) => if s == Proved(Recovered) then Some(Published) else None
  }

  function Reach(h: History): Option<Stage> {
    if h == [] then Some(Idle)
    else
      var s := Reach(h[..|h| - 1]);
      if s.Some? then Next(s.value, h[|h| - 1]) else None
  }

  /** A run may end where no reset is owed, and not between baseline and injection. */
  predicate Settled(s: Stage) { !Owed(s) && s != Proved(Baseline) }

  lemma ReachStep(h: History, e: Event)
    ensures Reach(h + [e]) == if Reach(h).Some? then Next(Reach(h).value, e) else None
  {
    assert (h + [e])[..|h|] == h;
  }

  // ---------------------------------------------------------------- facts about accepted histories

  function Count(h: History, a: Action): nat {
    if h == [] then 0 else Count(h[..|h| - 1], a) + (if h[|h| - 1] == Attempted(a) then 1 else 0)
  }

  predicate AfterInject(s: Stage) {
    Owed(s) || AfterReset(s)
  }

  predicate AfterReset(s: Stage) {
    match s
    case Acting(a, _) => a == Reset
    case Heard(a, _) => a == Reset
    case Acted(a, _) => a == Reset
    case Polling(p) => p == Recovered
    case Fetching(p) => p == Recovered
    case Proved(p) => p == Recovered
    case Published => true
    case Idle => false
  }

  /** The stage knows exactly how often fault and reset were attempted. */
  lemma {:induction false} StageCountsAttempts(h: History)
    requires Reach(h).Some?
    ensures Count(h, Inject) == (if AfterInject(Reach(h).value) then 1 else 0)
    ensures Count(h, Reset) == (if AfterReset(Reach(h).value) then 1 else 0)
  {
    if h != [] {
      StageCountsAttempts(h[..|h| - 1]);
    }
  }

  lemma {:induction false} PrefixesAreReached(h: History, i: nat)
    requires Reach(h).Some? && i <= |h|
    ensures Reach(h[..i]).Some?
    decreases |h|
  {
    if i == |h| {
      assert h[..i] == h;
    } else {
      PrefixesAreReached(h[..|h| - 1], i);
      assert h[..|h| - 1][..i] == h[..i];
    }
  }

  lemma EventsAreAllowed(h: History, i: nat)
    requires Reach(h).Some? && i < |h|
    ensures Reach(h[..i]).Some? && Next(Reach(h[..i]).value, h[i]).Some?
  {
    PrefixesAreReached(h, i);
    PrefixesAreReached(h, i + 1);
    assert h[..i + 1][..i] == h[..i];
  }

  /** Which phases have been verified by the time a stage is reached. */
  predicate Needs(s: Stage, p: Phase) {
    match p
    case Baseline => AfterInject(s) || s == Proved(Baseline)
    case Faulted =>
      s == Proved(Faulted) || s == Acting(Reset, true) || s == Heard(Reset, true) || s == Acted(Reset, true)
      || s == Polling(Recovered) || s == Fetching(Recovered) || s == Proved(Recovered) || s == Published
    case Recovered => s == Proved(Recovered) || s == Published
  }

  predicate WasAccepted(h: History, p: Phase) {
    exists i :: 0 <= i < |h| && h[i].Accepted? && h[i].phase == p
  }

  lemma {:induction false} StageKnowsVerifiedPhases(h: History, p: Phase)
    requires Reach(h).Some? && Needs(Reach(h).value, p)
    ensures WasAccepted(h, p)
  {
    if h != [] {
      var front, last := h[..|h| - 1], h[|h| - 1];
      if last.Accepted? && last.phase == p {
        assert h[|h| - 1].Accepted? && h[|h| - 1].phase == p;
      } else {
        StageKnowsVerifiedPhases(front, p);
        var i :| 0 <= i < |front| && front[i].Accepted? && front[i].phase == p;
        assert h[i] == front[i];
      }
    }
  }

  predicate WasConfirmed(h: History, a: Action) {
    exists i :: 0 <= i < |h| && h[i] == Confirmed(a)
  }

  predicate AfterConfirmedReset(s: Stage) {
    (s.Acted? && s.action == Reset) || s == Polling(Recovered) || s == Fetching(Recovered) || s == Proved(Recovered)
    || s == Published
  }

  lemma {:induction false} StageKnowsReset(h: History)
    requires Reach(h).Some? && AfterConfirmedReset(Reach(h).value)
    ensures WasConfirmed(h, Reset)
  {
    if h != [] {
      var front, last := h[..|h| - 1], h[|h| - 1];
      if last == Confirmed(Reset) {
        assert h[|h| - 1] == Confirmed(Reset);
      } else {
        StageKnowsReset(front);
        var i :| 0 <= i < |front| && front[i] == Confirmed(Reset);
        assert h[i] == front[i];
      }
    }
  }

  /** Injection happens at most once, and only after a verified baseline. */
  lemma InjectOnlyAfterBaseline(h: History, i: nat)
    requires Reach(h).Some? && i < |h| && h[i] == Attempted(Inject)
    ensures WasAccepted(h[..i], Baseline) && Count(h, Inject) == 1
  {
    EventsAreAllowed(h, i);
    StageKnowsVerifiedPhases(h[..i], Baseline);
    StageCountsAttempts(h);
    CountPositive(h, i, Inject);
  }

  lemma {:induction false} CountPositive(h: History, i: nat, a: Action)
    requires i < |h| && h[i] == Attempted(a)
    ensures Count(h, a) > 0
  {
    if i < |h| - 1 { CountPositive(h[..|h| - 1], i, a); }
  }

  /** Where a run may end, resets and injections are equally many: an attempted injection was followed by
      exactly one attempted reset. */
  lemma ResetFollowsInject(h: History, i: nat)
    requires Reach(h).Some? && Settled(Reach(h).value) && i < |h| && h[i] == Attempted(Inject)
    ensures Count(h, Reset) == 1 && Count(h[..i], Reset) == 0
  {
    InjectOnlyAfterBaseline(h, i);
    StageCountsAttempts(h);
    EventsAreAllowed(h, i);
    StageCountsAttempts(h[..i]);
  }

  /** The recovered phase starts only after a validated reset and a verified faulted phase. */
  lemma RecoveredOnlyAfterReset(h: History, i: nat)
    requires Reach(h).Some? && i < |h| && h[i].Started? && h[i].phase == Recovered
    ensures WasConfirmed(h[..i], Reset) && WasAccepted(h[..i], Faulted) && WasAccepted(h[..i], Baseline)
  {
    EventsAreAllowed(h, i);
    StageKnowsReset(h[..i]);
    StageKnowsVerifiedPhases(h[..i], Faulted);
    StageKnowsVerifiedPhases(h[..i], Baseline);
  }

  /** Publication is attempted only after all three phases were verified. */
  lemma PublicationOnlyAfterThreePhases(h: History, i: nat, p: Phase)
    requires Reach(h).Some? && i < |h| && h[i].Publishing?
    ensures WasAccepted(h[..i], p)
  {
    EventsAreAllowed(h, i);
    StageKnowsVerifiedPhases(h[..i], p);
  }

  // ---------------------------------------------------------------- every run is accepted

  lemma InvokeReaches(p: Ports, c: Config, h: History, a: Action, ready: bool)
    requires Reach(h).Some? && Next(Reach(h).value, Attempted(a)) == Some(Acting(a, ready))
    ensures var (after, report) := Invoke(p, c, h, a);
            Reach(after) == Some(if report.Some? then Heard(a, ready) else Acting(a, ready))
  {
    ReachStep(h, Attempted(a));
    var reply := p.act(h, a);
    if reply.Some? { ReachStep(h + [Attempted(a)], Reported(reply.value)); }
  }

  lemma ActReaches(p: Ports, c: Config, h: History, a: Action, previous: Option<Report>, allowMissing: bool, ready: bool)
    requires Reach(h).Some? && Next(Reach(h).value, Attempted(a)) == Some(Acting(a, ready))
    ensures var (after, report, ok) := Act(p, c, h, a, previous, allowMissing);
            if ok then report.Some? && Reach(after) == Some(Acted(a, ready))
            else Reach(after) == Some(Acting(a, ready)) || Reach(after) == Some(Heard(a, ready))
  {
    InvokeReaches(p, c, h, a, ready);
    ReachStep(Invoke(p, c, h, a).0, Confirmed(a));
  }

  lemma {:induction false} PollReaches(p: Ports, c: Config, h: History, e: Execution, deadline: real)
    requires Steady(p, c) && Reach(h) == Some(Polling(e.phase))
    ensures Reach(Poll(p, c, h, e, deadline).0) == Some(Polling(e.phase))
    decreases deadline - p.monotonic(h)
  {
    var polled := h + [Polled(e.phase)];
    ReachStep(h, Polled(e.phase));
    if Again(p, h, e, deadline) {
      ReachStep(polled, Slept);
      assert p.monotonic(h) <= p.monotonic(polled);
      PollReaches(p, c, polled + [Slept], e, deadline);
    }
  }

  lemma {:induction false} ReadsReach(p: Ports, h: History, artifacts: seq<Artifact>, phase: Phase)
    requires Reach(h) == Some(Fetching(phase))
    ensures Reach(ReadAll(p, h, artifacts).0) == Some(Fetching(phase))
    decreases |artifacts|
  {
    if artifacts != [] {
      ReachStep(h, Read(artifacts[0].reference));
      ReadsReach(p, ReadExact(p, h, artifacts[0].reference).0, artifacts[1..], phase);
    }
  }

  lemma VerifyContentsReaches(p: Ports, h: History, phase: Phase, report: Report, index: Index, reference: Reference)
    requires Reach(h) == Some(Fetching(phase))
    ensures var (after, proven) := VerifyContents(p, h, phase, report, index, reference);
            Reach(after) == Some(if proven.Passed? then Proved(phase) else Fetching(phase))
  {
    ReadsReach(p, h, index.body.artifacts, phase);
    ReachStep(ReadAll(p, h, index.body.artifacts).0, Accepted(phase, Verified(report, index, reference)));
  }

  lemma VerifyReaches(p: Ports, c: Config, h: History, phase: Phase, report: Report, previous: Option<Proven>, handoff: Handoff)
    requires Reach(h) == Some(Fetching(phase))
    ensures var (after, proven) := Verify(p, c, h, phase, report, previous, handoff);
            Reach(after) == Some(if proven.Passed? then Proved(phase) else Fetching(phase))
  {
    ReachStep(h, Read(handoff.index));
    var (opening, content) := ReadExact(p, h, handoff.index);
    if content.Some? && content.value.IndexBytes? {
      VerifyContentsReaches(p, opening, phase, report, content.value.index, handoff.index);
    }
  }

  lemma CollectReaches(p: Ports, c: Config, h: History, e: Execution, phase: Phase, report: Report, previous: Option<Proven>)
    requires Reach(h) == Some(Polling(phase)) && e.phase == phase
    ensures var (after, proven) := Collect(p, c, h, e, phase, report, previous);
            Reach(after) == Some(if proven.Passed? then Proved(phase) else Fetching(phase))
  {
    ReachStep(h, Fetched(phase));
    var (fetched, handoff) := Fetch(p, c, h, e);
    if handoff.Some? { VerifyReaches(p, c, fetched, phase, report, previous, handoff.value); }
  }

  lemma RunVerifiedReaches(p: Ports, c: Config, h: History, phase: Phase, report: Report, previous: Option<Proven>)
    requires Steady(p, c) && Reach(h) == Some(Acted(ActionOf(phase), true))
    ensures var (after, proven) := RunVerified(p, c, h, phase, report, previous);
            match proven
            case Passed(_) => Reach(after) == Some(Proved(phase))
            case Escaped => Reach(after) == Some(Fetching(phase))
            case Refused => Reach(after) == Some(Polling(phase)) || Reach(after) == Some(Fetching(phase))
  {
    var inputs := PhaseInputs(c.bundle, phase, report, VerifiedIn(previous));
    ReachStep(h, Started(phase, inputs));
    var (started, execution) := Start(p, c, h, phase, inputs);
    if execution.Some? {
      PollReaches(p, c, started, execution.value, p.monotonic(started) + c.timeout as real);
      var (polled, ok) := Wait(p, c, started, execution.value);
      if ok { CollectReaches(p, c, polled, execution.value, phase, report, previous); }
    }
  }

  /** Where a run with this outcome ends: an exception that passes through the handlers leaves the run
      where it was, and so, in the faulted phase, with a reset still owed. */
  predicate EndsIn(c: Config, s: Stage, outcome: Outcome) {
    match outcome
    case NotInjected => s == Acting(Status, true) || s == Heard(Status, true) || s == Polling(Baseline) || s == Fetching(Baseline)
    case Aborted(phase) => s == Fetching(phase)
    case ResetFailed => (s.Acting? || s.Heard?) && s.action == Reset
    case FailedButReset => s == Acted(Reset, false)
    case RecoveryFailed => s == Polling(Recovered) || s == Fetching(Recovered)
    case PublicationFailed => c.publishes && (s == Published || s == Proved(Recovered))
    case Completed(_, _, _, _) => s == if c.publishes then Published else Proved(Recovered)
  }

  predicate EndsAs(c: Config, h: History, outcome: Outcome) { Reach(h).Some? && EndsIn(c, Reach(h).value, outcome) }

  predicate BaselineEnded(c: Config, after: History, proven: Checked) {
    match proven
    case Passed(_) => Reach(after) == Some(Proved(Baseline))
    case Escaped => EndsAs(c, after, Aborted(Baseline))
    case Refused => EndsAs(c, after, NotInjected)
  }

  lemma BaselinePhaseEnds(p: Ports, c: Config, h: History, report: Report)
    requires Steady(p, c) && Reach(h) == Some(Acted(Status, true))
    ensures BaselineEnded(c, RunVerified(p, c, h, Baseline, report, None).0, RunVerified(p, c, h, Baseline, report, None).1)
  {
    RunVerifiedReaches(p, c, h, Baseline, report, None);
  }

  lemma BaselineReaches(p: Ports, c: Config)
    requires Steady(p, c)
    ensures BaselineEnded(c, BaselineStage(p, c).0, BaselineStage(p, c).1)
  {
    var none: History := [];
    ActReaches(p, c, none, Status, None, false, true);
    var (acted, report, ok) := Act(p, c, none, Status, None, false);
    if ok { BaselinePhaseEnds(p, c, acted, report.value); }
  }

  lemma FaultReaches(p: Ports, c: Config, h: History, baseline: Proven)
    requires Steady(p, c) && Reach(h) == Some(Proved(Baseline))
    ensures var (after, injected, faulted) := FaultStage(p, c, h, baseline);
            && Reach(after).Some? && Owed(Reach(after).value)
            && (faulted.Passed? ==> Reach(after) == Some(Proved(Faulted)) && injected.Some?)
            && (!faulted.Passed? ==> Reach(after) != Some(Proved(Faulted)))
            && (faulted.Escaped? ==> Reach(after) == Some(Fetching(Faulted)))
  {
    var previous := Some(baseline.verified.report);
    ActReaches(p, c, h, Inject, previous, false, true);
    var (acted, report, ok) := Act(p, c, h, Inject, previous, false);
    if ok { RunVerifiedReaches(p, c, acted, Faulted, report.value, Some(baseline)); }
  }

  lemma ResetReaches(p: Ports, c: Config, h: History, baseline: Proven, injected: Option<Report>, ready: bool)
    requires Reach(h).Some? && Owed(Reach(h).value) && ready == (Reach(h).value == Proved(Faulted))
    ensures var (after, reset) := ResetStage(p, c, h, baseline, injected);
            if reset.Some? then Reach(after) == Some(Acted(Reset, ready)) else EndsAs(c, after, ResetFailed)
  {
    var previous := if injected.Some? then injected.value else baseline.verified.report;
    ActReaches(p, c, h, Reset, Some(previous), injected.None?, ready);
  }

  predicate EndsAfterReset(c: Config, h: History, outcome: Outcome) {
    EndsAs(c, h, outcome) && AfterReset(Reach(h).value) && outcome != Aborted(Faulted)
  }

  lemma PublishReaches(p: Ports, c: Config, h: History, baseline: Proven, faulted: Proven, recovered: Proven)
    requires Reach(h) == Some(Proved(Recovered))
    ensures var (last, outcome) := PublishStage(p, c, h, baseline, faulted, recovered);
            EndsAfterReset(c, last, outcome)
  {
    ReachStep(h, Publishing(ManifestOf(p, c, h, baseline, faulted, recovered)));
  }

  lemma RecoveryReaches(p: Ports, c: Config, h: History, baseline: Proven, faulted: Proven, reset: Report)
    requires Steady(p, c) && Reach(h) == Some(Acted(Reset, true))
    ensures var (last, outcome) := RecoveryStage(p, c, h, baseline, faulted, reset);
            EndsAfterReset(c, last, outcome)
  {
    RunVerifiedReaches(p, c, h, Recovered, reset, Some(faulted));
    var (last, recovered) := RunVerified(p, c, h, Recovered, reset, Some(faulted));
    if recovered.Passed? { PublishReaches(p, c, last, baseline, faulted, recovered.proven); }
  }

  lemma SettleReaches(p: Ports, c: Config, h: History, baseline: Proven, injected: Option<Report>, faulted: Option<Proven>)
    requires Steady(p, c) && Reach(h).Some? && Owed(Reach(h).value)
    requires faulted.Some? == (Reach(h).value == Proved(Faulted))
    ensures var (last, outcome) := SettleStage(p, c, h, baseline, injected, faulted);
            EndsAfterReset(c, last, outcome)
  {
    ResetReaches(p, c, h, baseline, injected, faulted.Some?);
    var (last, reset) := ResetStage(p, c, h, baseline, injected);
    if reset.Some? && faulted.Some? { RecoveryReaches(p, c, last, baseline, faulted.value, reset.value); }
  }

  lemma InjectedRunEnds(p: Ports, c: Config, h: History, baseline: Proven)
    requires Steady(p, c) && Reach(h) == Some(Proved(Baseline))
    ensures var (last, outcome) := InjectedRun(p, c, h, baseline);
            if FaultStage(p, c, h, baseline).2.Escaped? then
              outcome == Aborted(Faulted) && Reach(last) == Some(Fetching(Faulted))
            else EndsAfterReset(c, last, outcome)
  {
    FaultReaches(p, c, h, baseline);
    var (last, injected, faulted) := FaultStage(p, c, h, baseline);
    if !faulted.Escaped? { SettleReaches(p, c, last, baseline, injected, ProvenIn(faulted)); }
  }

  /** The checks of the faulted phase raise something the handlers do not foresee. */
  predicate FaultedChecksEscape(p: Ports, c: Config)
    requires Steady(p, c)
  {
    var (h, baseline) := BaselineStage(p, c);
    baseline.Passed? && FaultStage(p, c, h, baseline.proven).2.Escaped?
  }

  /** Every run is accepted by the automaton, and ends where its outcome says: a reset that failed was not
      confirmed, a run that failed but was reset had not verified the faulted phase, and so on. */
  lemma EveryRunIsSafe(p: Ports, c: Config)
    requires Steady(p, c)
    ensures EndsAs(c, Run(p, c).0, Run(p, c).1)
    ensures Run(p, c).1 == Aborted(Faulted) <==> FaultedChecksEscape(p, c)
  {
    BaselineReaches(p, c);
    var (h, baseline) := BaselineStage(p, c);
    if baseline.Passed? { InjectedRunEnds(p, c, h, baseline.proven); }
  }

  lemma CountsByOutcome(c: Config, h: History, outcome: Outcome)
    requires EndsAs(c, h, outcome)
    ensures Count(h, Reset) <= Count(h, Inject) <= 1
    ensures Count(h, Inject) == Count(h, Reset) <==> outcome != Aborted(Faulted)
    ensures Count(h, Inject) == 0 <==> outcome == NotInjected || outcome == Aborted(Baseline)
  {
    StageCountsAttempts(h);
  }

  /** In one statement, of the run itself: nothing is injected twice or reset twice, and what is injected
      is reset exactly when the checks of the faulted phase do not escape. */
  lemma RunsResetWhatTheyInject(p: Ports, c: Config)
    requires Steady(p, c)
    ensures var (h, outcome) := Run(p, c);
            && Count(h, Reset) <= Count(h, Inject) <= 1
            && (Count(h, Inject) == Count(h, Reset) <==> !FaultedChecksEscape(p, c))
            && (Count(h, Inject) == 0 <==> outcome == NotInjected || outcome == Aborted(Baseline))
  {
    EveryRunIsSafe(p, c);
    CountsByOutcome(c, Run(p, c).0, Run(p, c).1);
  }

  /** So a run always resets what it injects if no check of a faulted phase ever raises anything the
      handlers do not foresee. */
  lemma ForeseenErrorsAreReset(p: Ports, c: Config)
    requires Steady(p, c)
    requires forall receipt, index, contents :: p.evaluate(Faulted, receipt, index, contents) != Raises
    ensures var h := Run(p, c).0; Count(h, Inject) == Count(h, Reset)
  {
    RunsResetWhatTheyInject(p, c);
    var (h, baseline) := BaselineStage(p, c);
    if baseline.Passed? { OnlyChecksEscape(p, c, h, baseline.proven); }
  }

  lemma OnlyChecksEscape(p: Ports, c: Config, h: History, baseline: Proven)
    requires Steady(p, c)
    requires forall receipt, index, contents :: p.evaluate(Faulted, receipt, index, contents) != Raises
    ensures !FaultStage(p, c, h, baseline).2.Escaped?
  {
  }

  // ---------------------------------------------------------------- what success means

  lemma ActConfirms(p: Ports, c: Config, h: History, a: Action, previous: Option<Report>, allowMissing: bool)
    requires Act(p, c, h, a, previous, allowMissing).2
    ensures var report := Act(p, c, h, a, previous, allowMissing).1;
            && report.Some? && ValidReport(report.value) && report.value.run == c.bundle.run && report.value.action == a
            && TransitionOk(previous, report.value, a, allowMissing)
  {
  }

  lemma VerifyHolds(p: Ports, c: Config, h: History, phase: Phase, report: Report, previous: Option<Proven>, handoff: Handoff)
    requires ValidReport(report) && report.run == c.bundle.run && report.action == ActionOf(phase)
    requires handoff.index.name == ArtifactName(c.bundle.run, phase, INDEX_SLOT)
    requires Verify(p, c, h, phase, report, previous, handoff).1.Passed?
    ensures var proven := Verify(p, c, h, phase, report, previous, handoff).1.proven;
            Held(c.bundle, phase, proven.verified, VerifiedIn(previous)) && proven.verified.report == report
  {
  }

  lemma CollectHolds(p: Ports, c: Config, h: History, e: Execution, phase: Phase, report: Report, previous: Option<Proven>)
    requires ValidReport(report) && report.run == c.bundle.run && report.action == ActionOf(phase)
    requires e.run == c.bundle.run && e.phase == phase
    requires Collect(p, c, h, e, phase, report, previous).1.Passed?
    ensures var proven := Collect(p, c, h, e, phase, report, previous).1.proven;
            Held(c.bundle, phase, proven.verified, VerifiedIn(previous)) && proven.verified.report == report
  {
    var (fetched, handoff) := Fetch(p, c, h, e);
    VerifyHolds(p, c, fetched, phase, report, previous, handoff.value);
  }

  lemma RunVerifiedHolds(p: Ports, c: Config, h: History, phase: Phase, report: Report, previous: Option<Proven>)
    requires Steady(p, c)
    requires ValidReport(report) && report.run == c.bundle.run && report.action == ActionOf(phase)
    requires RunVerified(p, c, h, phase, report, previous).1.Passed?
    ensures var proven := RunVerified(p, c, h, phase, report, previous).1.proven;
            Held(c.bundle, phase, proven.verified, VerifiedIn(previous)) && proven.verified.report == report
  {
    var inputs := PhaseInputs(c.bundle, phase, report, VerifiedIn(previous));
    var (started, execution) := Start(p, c, h, phase, inputs);
    CollectHolds(p, c, Wait(p, c, started, execution.value).0, execution.value, phase, report, previous);
  }

  /** Three receipts of one target, in order, whose power states meet: running, then stopped or
      deallocated, then running again. */
  predicate OneFaultAndBack(status: Receipt, inject: Receipt, reset: Receipt) {
    && status.target == inject.target == reset.target
    && status.started <= status.completed <= inject.started <= inject.completed <= reset.started <= reset.completed
    && status.before == status.after == inject.before == Running
    && Down(inject.after) && inject.after == reset.before && reset.after == Running
  }

  predicate Linked(bundle: Bundle, baseline: Proven, faulted: Proven, recovered: Proven) {
    && Held(bundle, Baseline, baseline.verified, None)
    && Held(bundle, Faulted, faulted.verified, Some(baseline.verified))
    && Held(bundle, Recovered, recovered.verified, Some(faulted.verified))
    && OneFaultAndBack(baseline.verified.report.receipt, faulted.verified.report.receipt, recovered.verified.report.receipt)
  }

  lemma BaselineHolds(p: Ports, c: Config)
    requires Steady(p, c) && BaselineStage(p, c).1.Passed?
    ensures var b := BaselineStage(p, c).1.proven.verified;
            Held(c.bundle, Baseline, b, None) && TransitionOk(None, b.report, Status, false)
  {
    ActConfirms(p, c, [], Status, None, false);
    var (acted, report, ok) := Act(p, c, [], Status, None, false);
    RunVerifiedHolds(p, c, acted, Baseline, report.value, None);
  }

  lemma FaultHolds(p: Ports, c: Config, h: History, baseline: Proven)
    requires Steady(p, c) && FaultStage(p, c, h, baseline).2.Passed?
    ensures var (_, injected, faulted) := FaultStage(p, c, h, baseline);
            && injected == Some(faulted.proven.verified.report)
            && Held(c.bundle, Faulted, faulted.proven.verified, Some(baseline.verified))
            && TransitionOk(Some(baseline.verified.report), faulted.proven.verified.report, Inject, false)
  {
    var previous := Some(baseline.verified.report);
    ActConfirms(p, c, h, Inject, previous, false);
    var (acted, report, ok) := Act(p, c, h, Inject, previous, false);
    RunVerifiedHolds(p, c, acted, Faulted, report.value, Some(baseline));
  }

  lemma ResetHolds(p: Ports, c: Config, h: History, baseline: Proven, injected: Report)
    requires ResetStage(p, c, h, baseline, Some(injected)).1.Some?
    ensures var reset := ResetStage(p, c, h, baseline, Some(injected)).1.value;
            && ValidReport(reset) && reset.run == c.bundle.run && reset.action == Reset
            && TransitionOk(Some(injected), reset, Reset, false)
  {
    ActConfirms(p, c, h, Reset, Some(injected), false);
  }

  lemma ThreeTransitions(status: Report, inject: Report, reset: Report)
    requires ValidReport(status) && ValidReport(inject) && ValidReport(reset)
    requires TransitionOk(None, status, Status, false) && TransitionOk(Some(status), inject, Inject, false)
    requires TransitionOk(Some(inject), reset, Reset, false)
    ensures OneFaultAndBack(status.receipt, inject.receipt, reset.receipt)
  {
    assert Lineage(status.receipt) == Lineage(inject.receipt) == Lineage(reset.receipt);
  }

  predicate Faithful(c: Config, outcome: Outcome) {
    match outcome
    case Completed(baseline, faulted, recovered, publication) =>
      && Linked(c.bundle, baseline, faulted, recovered)
      && publication.Some? == c.publishes
      && (publication.Some? ==>
            && publication.value.manifest.run == c.bundle.run
            && publication.value.manifest.digests == [Digests(baseline), Digests(faulted), Digests(recovered)]
            && publication.value.manifest.published >= publication.value.manifest.evaluated == recovered.evaluated)
    case _ => true
  }

  lemma PublicationIsFaithful(p: Ports, c: Config, h: History, baseline: Proven, faulted: Proven, recovered: Proven)
    requires Linked(c.bundle, baseline, faulted, recovered)
    ensures Faithful(c, PublishStage(p, c, h, baseline, faulted, recovered).1)
  {
  }

  lemma RecoveryIsFaithful(p: Ports, c: Config, h: History, baseline: Proven, faulted: Proven, reset: Report)
    requires Steady(p, c)
    requires Held(c.bundle, Baseline, baseline.verified, None) && TransitionOk(None, baseline.verified.report, Status, false)
    requires Held(c.bundle, Faulted, faulted.verified, Some(baseline.verified))
    requires TransitionOk(Some(baseline.verified.report), faulted.verified.report, Inject, false)
    requires ValidReport(reset) && reset.run == c.bundle.run && reset.action == Reset
    requires TransitionOk(Some(faulted.verified.report), reset, Reset, false)
    ensures Faithful(c, RecoveryStage(p, c, h, baseline, faulted, reset).1)
  {
    var (last, recovered) := RunVerified(p, c, h, Recovered, reset, Some(faulted));
    if recovered.Passed? {
      RunVerifiedHolds(p, c, h, Recovered, reset, Some(faulted));
      ThreeTransitions(baseline.verified.report, faulted.verified.report, reset);
      PublicationIsFaithful(p, c, last, baseline, faulted, recovered.proven);
    }
  }

  lemma SettlementIsFaithful(p: Ports, c: Config, h: History, baseline: Proven, injected: Option<Report>, faulted: Option<Proven>)
    requires Steady(p, c)
    requires Held(c.bundle, Baseline, baseline.verified, None) && TransitionOk(None, baseline.verified.report, Status, false)
    requires faulted.Some? ==>
      && injected == Some(faulted.value.verified.report)
      && Held(c.bundle, Faulted, faulted.value.verified, Some(baseline.verified))
      && TransitionOk(Some(baseline.verified.report), faulted.value.verified.report, Inject, false)
    ensures Faithful(c, SettleStage(p, c, h, baseline, injected, faulted).1)
  {
    var (last, reset) := ResetStage(p, c, h, baseline, injected);
    if reset.Some? && faulted.Some? {
      ResetHolds(p, c, h, baseline, injected.value);
      RecoveryIsFaithful(p, c, last, baseline, faulted.value, reset.value);
    }
  }

  /** A run completes only with one fault, one way back, three linked indexes, and, where a publisher is
      configured, a manifest of exactly the verified artifacts. */
  lemma CompletionIsFaithful(p: Ports, c: Config)
    requires Steady(p, c)
    ensures Faithful(c, Run(p, c).1)
  {
    var (h, baseline) := BaselineStage(p, c);
    if baseline.Passed? {
      BaselineHolds(p, c);
      var (last, injected, faulted) := FaultStage(p, c, h, baseline.proven);
      if faulted.Passed? { FaultHolds(p, c, h, baseline.proven); }
      if !faulted.Escaped? { SettlementIsFaithful(p, c, last, baseline.proven, injected, ProvenIn(faulted)); }
    }
  }

  /** The check that all receipts target one resource group can never fail: the lineage has settled it. */
  lemma OneResourceGroup(bundle: Bundle, baseline: Proven, faulted: Proven, recovered: Proven)
    requires Linked(bundle, baseline, faulted, recovered)
    ensures Group(baseline) == Group(faulted) == Group(recovered)
  {
  }

  /** A reset whose injection was never reported is accepted exactly when it is a valid reset of the
      baseline's target, begun no earlier than the baseline ended: its power state need not continue. */
  lemma BlindResetExactly(p: Ports, c: Config, h: History, baseline: Proven, reset: Report)
    ensures ResetStage(p, c, h, baseline, None).1 == Some(reset)
       <==> && p.act(h, Reset) == Some(reset) && ValidReport(reset) && reset.run == c.bundle.run && reset.action == Reset
            && reset.receipt.target == baseline.verified.report.receipt.target
            && baseline.verified.report.receipt.completed <= reset.receipt.started
  {
    assert Lineage(reset.receipt) == Lineage(baseline.verified.report.receipt)
      <==> reset.receipt.target == baseline.verified.report.receipt.target;
  }
}
