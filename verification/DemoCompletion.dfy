/** When a run of the operational demo completes, said of what its ports answer along one history. */
module DemoCompletion {

  import opened Options
  import opened PhaseChain
  import opened DemoSaga
  import opened DemoEvidence
  import opened DemoSafety

  /** The port answers this action of this run with a valid report that continues the one before. */
  predicate Confirms(p: Ports, c: Config, h: History, a: Action, previous: Option<Report>, report: Report) {
    && p.act(h, a) == Some(report) && ValidReport(report) && report.run == c.bundle.run && report.action == a
    && TransitionOk(previous, report, a, false)
  }

  function ActedAt(h: History, a: Action, report: Report): History {
    h + [Attempted(a)] + [Reported(report)] + [Confirmed(a)]
  }

  lemma ActConfirmsExactly(p: Ports, c: Config, h: History, a: Action, previous: Option<Report>)
    ensures Act(p, c, h, a, previous, false).2 <==> exists report :: Confirms(p, c, h, a, previous, report)
    ensures forall report :: Confirms(p, c, h, a, previous, report) ==>
              Act(p, c, h, a, previous, false) == (ActedAt(h, a, report), Some(report), true)
  {
    if Act(p, c, h, a, previous, false).2 { assert Confirms(p, c, h, a, previous, p.act(h, a).value); }
  }

  /** An action and the phase that follows it. */
  datatype Step = Step(report: Report, evidence: Evidence) {
    function Kept(): Verified { Evident(report, evidence) }
  }

  predicate Takes(p: Ports, c: Config, h: History, phase: Phase, previous: Option<Verified>, step: Step) {
    && Confirms(p, c, h, ActionOf(phase), ReportIn(previous), step.report)
    && Proves(p, c, ActedAt(h, ActionOf(phase), step.report), phase, step.report, previous, step.evidence)
  }

  function TakenAt(c: Config, h: History, phase: Phase, previous: Option<Verified>, step: Step): History {
    Seen(c, ActedAt(h, ActionOf(phase), step.report), phase, step.report, previous, step.evidence)
    + [Accepted(phase, step.Kept())]
  }

  /** An action and its phase, as the operator runs them. */
  function Stride(p: Ports, c: Config, h: History, phase: Phase, previous: Option<Proven>): (History, Option<Report>, Checked)
    requires Steady(p, c)
  {
    var (acted, report, ok) := Act(p, c, h, ActionOf(phase), ReportIn(VerifiedIn(previous)), false);
    if !ok then (acted, report, Refused)
    else
      var (after, checked) := RunVerified(p, c, acted, phase, report.value, previous);
      (after, report, checked)
  }

  predicate KeptAs(step: Step, proven: Proven) { Keeps(step.report, step.evidence, proven) }

  lemma StrideExactly(p: Ports, c: Config, h: History, phase: Phase, previous: Option<Proven>)
    requires Steady(p, c)
    ensures Stride(p, c, h, phase, previous).2.Passed? <==> exists step :: Takes(p, c, h, phase, VerifiedIn(previous), step)
    ensures forall step :: Takes(p, c, h, phase, VerifiedIn(previous), step) ==>
              var (after, report, checked) := Stride(p, c, h, phase, previous);
              && after == TakenAt(c, h, phase, VerifiedIn(previous), step)
              && report == Some(step.report) && checked.Passed? && KeptAs(step, checked.proven)
  {
    var before := ReportIn(VerifiedIn(previous));
    ActConfirmsExactly(p, c, h, ActionOf(phase), before);
    var (acted, report, ok) := Act(p, c, h, ActionOf(phase), before, false);
    if ok {
      PhasePassesExactly(p, c, acted, phase, report.value, previous);
      if RunVerified(p, c, acted, phase, report.value, previous).1.Passed? {
        var ev :| Proves(p, c, acted, phase, report.value, VerifiedIn(previous), ev);
        assert Takes(p, c, h, phase, VerifiedIn(previous), Step(report.value, ev));
      }
    }
  }

  // ---------------------------------------------------------------- the story of a run

  /** A run in which everything goes well, up to publication. */
  datatype Story = Story(baseline: Step, faulted: Step, recovered: Step)

  function AfterBaseline(c: Config, s: Story): History { TakenAt(c, [], Baseline, None, s.baseline) }
  function AfterFault(c: Config, s: Story): History {
    TakenAt(c, AfterBaseline(c, s), Faulted, Some(s.baseline.Kept()), s.faulted)
  }
  function AfterRecovery(c: Config, s: Story): History {
    TakenAt(c, AfterFault(c, s), Recovered, Some(s.faulted.Kept()), s.recovered)
  }

  predicate Told(p: Ports, c: Config, s: Story) {
    && Takes(p, c, [], Baseline, None, s.baseline)
    && Takes(p, c, AfterBaseline(c, s), Faulted, Some(s.baseline.Kept()), s.faulted)
    && Takes(p, c, AfterFault(c, s), Recovered, Some(s.faulted.Kept()), s.recovered)
  }

  predicate DigestsIn(index: Index, digests: (Digest, Digest)) {
    NamesDigest(index, ArgusPresentation, digests.0) && NamesDigest(index, PresentationAttestation, digests.1)
  }

  /** The manifest of this story: the digests its indexes name, published no earlier than evaluated. */
  predicate Suits(p: Ports, c: Config, s: Story, m: Manifest) {
    var now := p.utcNow(AfterRecovery(c, s));
    && m.run == c.bundle.run && m.group == s.baseline.report.receipt.target.group
    && m.evaluated == s.recovered.evidence.evaluated
    && now <= m.published && m.evaluated <= m.published && (m.published == now || m.published == m.evaluated)
    && |m.digests| == 3 && DigestsIn(s.baseline.evidence.index, m.digests[0])
    && DigestsIn(s.faulted.evidence.index, m.digests[1]) && DigestsIn(s.recovered.evidence.index, m.digests[2])
  }

  predicate PublishedAs(p: Ports, c: Config, s: Story, m: Manifest) {
    Suits(p, c, s, m) && p.publish(AfterRecovery(c, s), m) == Some(PublicationReceipt(c.bundle.run, MANIFEST_NAME, m))
  }

  // ---------------------------------------------------------------- the steps of a story

  /** The three stages of a run are such strides as long as everything goes well. */
  lemma StagesAreStrides(p: Ports, c: Config, h: History, baseline: Proven)
    requires Steady(p, c)
    ensures BaselineStage(p, c) == (Stride(p, c, [], Baseline, None).0, Stride(p, c, [], Baseline, None).2)
    ensures FaultStage(p, c, h, baseline) == Stride(p, c, h, Faulted, Some(baseline))
  {
  }

  lemma RecoveryIsAStride(p: Ports, c: Config, h: History, baseline: Proven, faulted: Proven)
    requires Steady(p, c)
    ensures var (last, outcome) := SettleStage(p, c, h, baseline, Some(faulted.verified.report), Some(faulted));
            var (after, _, recovered) := Stride(p, c, h, Recovered, Some(faulted));
            if recovered.Passed? then (last, outcome) == PublishStage(p, c, after, baseline, faulted, recovered.proven)
            else !outcome.Completed?
  {
  }

  lemma OneTarget(p: Ports, c: Config, s: Story)
    requires Told(p, c, s)
    ensures s.baseline.report.receipt.target == s.faulted.report.receipt.target == s.recovered.report.receipt.target
  {
    assert Lineage(s.baseline.report.receipt) == Lineage(s.faulted.report.receipt) == Lineage(s.recovered.report.receipt);
  }

  lemma DigestIsUnique(index: Index, kind: Kind, one: Digest, other: Digest)
    requires ValidIndex(index) && NamesDigest(index, kind, one) && NamesDigest(index, kind, other)
    ensures one == other
  {
    var artifacts := index.body.artifacts;
    var i :| 0 <= i < |artifacts| && artifacts[i] == Artifact(kind, artifacts[i].reference) && artifacts[i].reference.digest == one;
    var j :| 0 <= j < |artifacts| && artifacts[j] == Artifact(kind, artifacts[j].reference) && artifacts[j].reference.digest == other;
    assert KINDS[i] == KINDS[j];
  }

  /** What is kept of a step is what its index names, and nothing else. */
  ghost predicate Matches(step: Step, proven: Proven) {
    && proven.verified == step.Kept() && proven.evaluated == step.evidence.evaluated
    && forall digests :: DigestsIn(step.evidence.index, digests) <==> digests == Digests(proven)
  }

  lemma KeptMatches(step: Step, proven: Proven)
    requires ValidIndex(step.evidence.index) && KeptAs(step, proven)
    ensures Matches(step, proven)
  {
    forall digests | DigestsIn(step.evidence.index, digests)
      ensures digests == Digests(proven)
    {
      DigestIsUnique(step.evidence.index, ArgusPresentation, digests.0, Digests(proven).0);
      DigestIsUnique(step.evidence.index, PresentationAttestation, digests.1, Digests(proven).1);
    }
  }

  lemma SuitsExactly(p: Ports, c: Config, s: Story, b: Proven, f: Proven, r: Proven, m: Manifest)
    requires Matches(s.baseline, b) && Matches(s.faulted, f) && Matches(s.recovered, r)
    ensures Suits(p, c, s, m) <==> m == ManifestOf(p, c, AfterRecovery(c, s), b, f, r)
  {
    if |m.digests| == 3 { assert m.digests == [m.digests[0], m.digests[1], m.digests[2]]; }
  }

  predicate SameGroup(b: Proven, f: Proven, r: Proven) { Group(b) == Group(f) == Group(r) }

  lemma PublishExactly(p: Ports, c: Config, s: Story, b: Proven, f: Proven, r: Proven, h: History, made: Manifest)
    requires Matches(s.baseline, b) && Matches(s.faulted, f) && Matches(s.recovered, r) && SameGroup(b, f, r)
    requires h == AfterRecovery(c, s) && made == ManifestOf(p, c, h, b, f, r)
    ensures PublishStage(p, c, h, b, f, r).1.Completed? <==> !c.publishes || exists m :: PublishedAs(p, c, s, m)
  {
    forall m
      ensures Suits(p, c, s, m) <==> m == made
    {
      SuitsExactly(p, c, s, b, f, r, m);
    }
    if PublishStage(p, c, h, b, f, r).1.Completed? && c.publishes { assert PublishedAs(p, c, s, made); }
  }

  lemma StepIsTaken(p: Ports, c: Config, h: History, phase: Phase, previous: Option<Proven>, step: Step) returns (proven: Proven)
    requires Steady(p, c) && Takes(p, c, h, phase, VerifiedIn(previous), step)
    ensures Stride(p, c, h, phase, previous)
         == (TakenAt(c, h, phase, VerifiedIn(previous), step), Some(step.report), Passed(proven))
    ensures Matches(step, proven)
  {
    StrideExactly(p, c, h, phase, previous);
    proven := Stride(p, c, h, phase, previous).2.proven;
    KeptMatches(step, proven);
  }

  lemma StepWasTaken(p: Ports, c: Config, h: History, phase: Phase, previous: Option<Proven>) returns (step: Step)
    requires Steady(p, c) && Stride(p, c, h, phase, previous).2.Passed?
    ensures Takes(p, c, h, phase, VerifiedIn(previous), step)
    ensures var (after, report, checked) := Stride(p, c, h, phase, previous);
            after == TakenAt(c, h, phase, VerifiedIn(previous), step) && checked.proven.verified == step.Kept()
            && report == Some(step.report)
  {
    StrideExactly(p, c, h, phase, previous);
    step :| Takes(p, c, h, phase, VerifiedIn(previous), step);
  }

  /** A run after its baseline stage, as strides. */
  lemma RunByStrides(p: Ports, c: Config, h: History, b: Proven)
    requires Steady(p, c) && BaselineStage(p, c) == (h, Passed(b))
    ensures var (last, injected, faulted) := Stride(p, c, h, Faulted, Some(b));
            if faulted.Passed? && injected.Some? then Run(p, c) == SettleStage(p, c, last, b, injected, Some(faulted.proven))
            else !Run(p, c).1.Completed?
  {
    StagesAreStrides(p, c, h, b);
  }

  lemma ToldRun(p: Ports, c: Config, s: Story) returns (b: Proven, f: Proven, r: Proven)
    requires Steady(p, c) && Told(p, c, s)
    ensures Matches(s.baseline, b) && Matches(s.faulted, f) && Matches(s.recovered, r) && SameGroup(b, f, r)
    ensures Run(p, c) == PublishStage(p, c, AfterRecovery(c, s), b, f, r)
  {
    var first, second := AfterBaseline(c, s), AfterFault(c, s);
    b := StepIsTaken(p, c, [], Baseline, None, s.baseline);
    StagesAreStrides(p, c, first, b);
    f := StepIsTaken(p, c, first, Faulted, Some(b), s.faulted);
    RunByStrides(p, c, first, b);
    r := StepIsTaken(p, c, second, Recovered, Some(f), s.recovered);
    RecoveryIsAStride(p, c, second, b, f);
    OneTarget(p, c, s);
  }

  lemma CompletedRun(p: Ports, c: Config) returns (s: Story)
    requires Steady(p, c) && Run(p, c).1.Completed?
    ensures Told(p, c, s)
  {
    var first := BaselineStage(p, c).0;
    var b := BaselineStage(p, c).1.proven;
    StagesAreStrides(p, c, first, b);
    var baseline := StepWasTaken(p, c, [], Baseline, None);
    RunByStrides(p, c, first, b);
    var (second, _, passed) := Stride(p, c, first, Faulted, Some(b));
    var f := passed.proven;
    var faulted := StepWasTaken(p, c, first, Faulted, Some(b));
    RecoveryIsAStride(p, c, second, b, f);
    var recovered := StepWasTaken(p, c, second, Recovered, Some(f));
    s := Story(baseline, faulted, recovered);
  }

  /** A run completes exactly when all of this happens, in this order: each action is confirmed by a
      report that continues the one before, each phase is proved after it, and, where a publisher is
      configured, it confirms the manifest of what was proved. */
  lemma CompletesExactly(p: Ports, c: Config)
    requires Steady(p, c)
    ensures Run(p, c).1.Completed? <==> exists s :: Told(p, c, s) && (!c.publishes || exists m :: PublishedAs(p, c, s, m))
  {
    if Run(p, c).1.Completed? {
      var s := CompletedRun(p, c);
      ToldCompletes(p, c, s);
    }
    forall s | Told(p, c, s)
      ensures Run(p, c).1.Completed? <==> !c.publishes || exists m :: PublishedAs(p, c, s, m)
    {
      ToldCompletes(p, c, s);
    }
  }

  lemma ToldCompletes(p: Ports, c: Config, s: Story)
    requires Steady(p, c) && Told(p, c, s)
    ensures Run(p, c).1.Completed? <==> !c.publishes || exists m :: PublishedAs(p, c, s, m)
  {
    var b, f, r := ToldRun(p, c, s);
    var h := AfterRecovery(c, s);
    PublishExactly(p, c, s, b, f, r, h, ManifestOf(p, c, h, b, f, r));
  }
}
