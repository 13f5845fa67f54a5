/** What the operator must have been told before it accepts a phase, said of its ports and of what had
    happened by then, without any of the operator's own steps. */
module DemoEvidence {

  import opened Options
  import opened PhaseChain
  import opened DemoSaga

  // ---------------------------------------------------------------- waiting for a job

  /** What is told of this execution and of no other. */
  predicate Says(p: Ports, h: History, e: Execution, state: JobState) {
    p.status(h, e) == Some(JobStatus(e.run, e.phase, e.id, state))
  }

  /** `n` status reads, each followed by a sleep. */
  function Waited(h: History, e: Execution, n: int): History {
    if n <= 0 then h else Waited(h, e, n - 1) + [Polled(e.phase)] + [Slept]
  }

  /** The status read after `n` others says that the job is running, and the deadline has not passed. */
  predicate StillRunning(p: Ports, h: History, e: Execution, deadline: real, n: int) {
    Says(p, Waited(h, e, n), e, InProgress) && p.monotonic(Waited(h, e, n) + [Polled(e.phase)]) < deadline
  }

  /** The status read after `n` others is the first that says anything else, or comes too late. */
  predicate StopsAfter(p: Ports, h: History, e: Execution, deadline: real, n: int) {
    && n >= 0
    && (forall k :: 0 <= k < n ==> StillRunning(p, h, e, deadline, k))
    && !StillRunning(p, h, e, deadline, n)
  }

  predicate SucceedsAfter(p: Ports, h: History, e: Execution, deadline: real, n: int) {
    && n >= 0
    && (forall k :: 0 <= k < n ==> StillRunning(p, h, e, deadline, k))
    && Says(p, Waited(h, e, n), e, Succeeded)
  }

  function Deadline(p: Ports, c: Config, h: History): real { p.monotonic(h) + c.timeout as real }

  lemma {:induction false} PollStops(p: Ports, c: Config, h: History, e: Execution, deadline: real, k: nat) returns (n: nat)
    requires Steady(p, c)
    requires forall j :: 0 <= j < k ==> StillRunning(p, h, e, deadline, j)
    ensures StopsAfter(p, h, e, deadline, n)
    ensures Poll(p, c, Waited(h, e, k), e, deadline)
         == (Waited(h, e, n) + [Polled(e.phase)], Says(p, Waited(h, e, n), e, Succeeded))
    decreases deadline - p.monotonic(Waited(h, e, k))
  {
    var here := Waited(h, e, k);
    var polled := here + [Polled(e.phase)];
    if StillRunning(p, h, e, deadline, k) {
      assert p.monotonic(here) <= p.monotonic(polled);
      assert p.monotonic(polled) + c.interval as real <= p.monotonic(polled + [Slept]);
      n := PollStops(p, c, h, e, deadline, k + 1);
    } else {
      n := k;
    }
  }

  lemma StopsOnce(p: Ports, h: History, e: Execution, deadline: real, m: int, n: int)
    requires StopsAfter(p, h, e, deadline, m)
    requires StopsAfter(p, h, e, deadline, n) || SucceedsAfter(p, h, e, deadline, n)
    ensures m == n
  {
  }

  /** A wait succeeds exactly when its last status read says that this execution has succeeded, and each
      read before said that it was running and ended before the deadline. */
  lemma WaitSucceedsExactly(p: Ports, c: Config, h: History, e: Execution)
    requires Steady(p, c)
    ensures Wait(p, c, h, e).1 <==> exists n :: SucceedsAfter(p, h, e, Deadline(p, c, h), n)
    ensures forall n :: SucceedsAfter(p, h, e, Deadline(p, c, h), n) ==>
              Wait(p, c, h, e).0 == Waited(h, e, n) + [Polled(e.phase)]
  {
    var deadline := Deadline(p, c, h);
    var m := PollStops(p, c, h, e, deadline, 0);
    if Wait(p, c, h, e).1 { assert SucceedsAfter(p, h, e, deadline, m); }
    forall n | SucceedsAfter(p, h, e, deadline, n)
      ensures n == m
    {
      StopsOnce(p, h, e, deadline, m, n);
    }
  }

  // ---------------------------------------------------------------- reading artifacts

  function Reads(artifacts: seq<Artifact>): History {
    seq(|artifacts|, i requires 0 <= i < |artifacts| => Read(artifacts[i].reference))
  }

  predicate ReadsAs(p: Ports, h: History, reference: Reference, content: Content) {
    p.read(h, reference) == Some(content) && Sha(content) == reference.digest
  }

  predicate ReadAt(p: Ports, h: History, artifacts: seq<Artifact>, contents: seq<Content>, i: int)
    requires |contents| == |artifacts| && 0 <= i < |artifacts|
  {
    ReadsAs(p, h + Reads(artifacts[..i]), artifacts[i].reference, contents[i])
  }

  /** One after the other, every artifact is read by its exact version and is what its digest says. */
  predicate ReadInOrder(p: Ports, h: History, artifacts: seq<Artifact>, contents: seq<Content>) {
    && |contents| == |artifacts|
    && forall i :: 0 <= i < |artifacts| ==> ReadAt(p, h, artifacts, contents, i)
  }

  lemma OneMoreRead(h: History, artifacts: seq<Artifact>, n: nat)
    requires n < |artifacts|
    ensures h + Reads(artifacts[..n]) + [Read(artifacts[n].reference)] == h + Reads(artifacts[..n + 1])
    ensures artifacts[n..][0] == artifacts[n] && artifacts[n..][1..] == artifacts[n + 1..]
  {
  }

  lemma {:induction false} WhatIsRead(p: Ports, h: History, artifacts: seq<Artifact>, n: nat)
    requires n <= |artifacts|
    ensures var rest := ReadAll(p, h + Reads(artifacts[..n]), artifacts[n..]).1;
            rest.Some? ==>
              && |rest.value| == |artifacts| - n
              && forall i :: n <= i < |artifacts| ==>
                   ReadsAs(p, h + Reads(artifacts[..i]), artifacts[i].reference, rest.value[i - n])
    decreases |artifacts| - n
  {
    if n < |artifacts| {
      OneMoreRead(h, artifacts, n);
      WhatIsRead(p, h, artifacts, n + 1);
    }
  }

  lemma {:induction false} WhatCanBeRead(p: Ports, h: History, artifacts: seq<Artifact>, contents: seq<Content>, n: nat)
    requires ReadInOrder(p, h, artifacts, contents) && n <= |artifacts|
    ensures ReadAll(p, h + Reads(artifacts[..n]), artifacts[n..]) == (h + Reads(artifacts), Some(contents[n..]))
    decreases |artifacts| - n
  {
    if n < |artifacts| {
      OneMoreRead(h, artifacts, n);
      assert ReadAt(p, h, artifacts, contents, n);
      WhatCanBeRead(p, h, artifacts, contents, n + 1);
      assert [contents[n]] + contents[n + 1..] == contents[n..];
    } else {
      assert artifacts[..n] == artifacts && contents[n..] == [];
    }
  }

  lemma ArtifactsReadExactly(p: Ports, h: History, artifacts: seq<Artifact>)
    ensures ReadAll(p, h, artifacts).1.Some? ==> ReadInOrder(p, h, artifacts, ReadAll(p, h, artifacts).1.value)
    ensures forall contents :: ReadInOrder(p, h, artifacts, contents) ==>
              ReadAll(p, h, artifacts) == (h + Reads(artifacts), Some(contents))
  {
    assert h + Reads(artifacts[..0]) == h && artifacts[0..] == artifacts;
    WhatIsRead(p, h, artifacts, 0);
    forall contents | ReadInOrder(p, h, artifacts, contents)
      ensures ReadAll(p, h, artifacts) == (h + Reads(artifacts), Some(contents))
    {
      WhatCanBeRead(p, h, artifacts, contents, 0);
      assert contents[0..] == contents;
    }
  }

  // ---------------------------------------------------------------- one phase

  /** What a phase is accepted on: its execution, how many reads found it running, the index handed over
      and the artifacts it names, with the verdict on their contents. */
  datatype Evidence = Evidence(
    execution: Execution, running: int, index: Index, reference: Reference, contents: seq<Content>, evaluated: int)

  function StartedAt(c: Config, h: History, phase: Phase, report: Report, previous: Option<Verified>): History {
    h + [Started(phase, PhaseInputs(c.bundle, phase, report, previous))]
  }

  function FinishedAt(started: History, ev: Evidence): History {
    Waited(started, ev.execution, ev.running) + [Polled(ev.execution.phase)]
  }

  function OpenedAt(started: History, ev: Evidence): History {
    FinishedAt(started, ev) + [Fetched(ev.execution.phase)] + [Read(ev.reference)]
  }

  predicate JobSucceeded(p: Ports, c: Config, started: History, ev: Evidence) {
    SucceedsAfter(p, started, ev.execution, Deadline(p, c, started), ev.running)
  }

  predicate HandedOver(p: Ports, c: Config, started: History, phase: Phase, ev: Evidence) {
    && p.handoff(FinishedAt(started, ev), ev.execution) == Some(Handoff(c.bundle.run, phase, c.bundle.digest, ev.reference))
    && ev.reference.name == ArtifactName(c.bundle.run, phase, INDEX_SLOT)
    && ReadsAs(p, FinishedAt(started, ev) + [Fetched(phase)], ev.reference, IndexBytes(ev.index))
  }

  predicate ContentsSound(p: Ports, started: History, phase: Phase, report: Report, ev: Evidence) {
    && ReadInOrder(p, OpenedAt(started, ev), ev.index.body.artifacts, ev.contents)
    && p.evaluate(phase, report.receipt, ev.index, ev.contents) == Sound(ev.evaluated)
  }

  /** The job that was started for these inputs is the one that succeeded; it handed over an index which
      fits report and previous phase; and the five artifacts of that index are sound. */
  predicate Proves(p: Ports, c: Config, h: History, phase: Phase, report: Report, previous: Option<Verified>, ev: Evidence) {
    var started := StartedAt(c, h, phase, report, previous);
    && p.start(h, PhaseInputs(c.bundle, phase, report, previous)) == Some(ev.execution)
    && ev.execution.run == c.bundle.run && ev.execution.phase == phase
    && JobSucceeded(p, c, started, ev)
    && HandedOver(p, c, started, phase, ev)
    && ValidIndex(ev.index) && IndexAccepted(c.bundle, phase, report, previous, ev.index)
    && ContentsSound(p, started, phase, report, ev)
  }

  function Evident(report: Report, ev: Evidence): Verified { Verified(report, ev.index, ev.reference) }

  /** Everything that has happened when the phase is accepted. */
  function Seen(c: Config, h: History, phase: Phase, report: Report, previous: Option<Verified>, ev: Evidence): History {
    OpenedAt(StartedAt(c, h, phase, report, previous), ev) + Reads(ev.index.body.artifacts)
  }

  predicate NamesDigest(index: Index, kind: Kind, digest: Digest) {
    exists i :: 0 <= i < |index.body.artifacts| && index.body.artifacts[i] == Artifact(kind, index.body.artifacts[i].reference)
                && index.body.artifacts[i].reference.digest == digest
  }

  /** What is kept of an accepted phase: the presentation and its attestation are the artifacts of those
      kinds in its index. */
  predicate Keeps(report: Report, ev: Evidence, proven: Proven) {
    && proven.verified == Evident(report, ev) && proven.evaluated == ev.evaluated
    && NamesDigest(ev.index, ArgusPresentation, Sha(proven.payload))
    && NamesDigest(ev.index, PresentationAttestation, Sha(proven.attestation))
  }

  predicate Settles(c: Config, h: History, phase: Phase, report: Report, previous: Option<Verified>, ev: Evidence,
                    after: History, checked: Checked) {
    && after == Seen(c, h, phase, report, previous, ev) + [Accepted(phase, Evident(report, ev))]
    && checked.Passed? && Keeps(report, ev, checked.proven)
  }

  lemma KindsAreNamed(index: Index, contents: seq<Content>)
    requires ValidIndex(index) && |contents| == 5
    requires forall i :: 0 <= i < 5 ==> Sha(contents[i]) == index.body.artifacts[i].reference.digest
    ensures NamesDigest(index, ArgusPresentation, Sha(contents[2]))
    ensures NamesDigest(index, PresentationAttestation, Sha(contents[3]))
  {
    var artifacts := index.body.artifacts;
    assert artifacts[2].kind == KINDS[2] && artifacts[3].kind == KINDS[3];
    assert artifacts[2] == Artifact(ArgusPresentation, artifacts[2].reference);
    assert artifacts[3] == Artifact(PresentationAttestation, artifacts[3].reference);
  }

  lemma ReadsKeepKinds(p: Ports, h: History, index: Index, contents: seq<Content>)
    requires ValidIndex(index) && ReadInOrder(p, h, index.body.artifacts, contents)
    ensures |contents| == 5
    ensures NamesDigest(index, ArgusPresentation, Sha(contents[2]))
    ensures NamesDigest(index, PresentationAttestation, Sha(contents[3]))
  {
    forall i | 0 <= i < 5
      ensures Sha(contents[i]) == index.body.artifacts[i].reference.digest
    {
      assert ReadAt(p, h, index.body.artifacts, contents, i);
    }
    KindsAreNamed(index, contents);
  }

  /** The checks of the artifacts, as far as one verdict on five contents goes. */
  lemma ContentsExactly(p: Ports, h: History, phase: Phase, report: Report, index: Index, reference: Reference)
    requires ValidIndex(index)
    ensures var (after, checked) := VerifyContents(p, h, phase, report, index, reference);
            && (checked.Passed? <==> exists contents, evaluated ::
                  ReadInOrder(p, h, index.body.artifacts, contents)
                  && p.evaluate(phase, report.receipt, index, contents) == Sound(evaluated))
            && forall contents, evaluated ::
                 ReadInOrder(p, h, index.body.artifacts, contents)
                 && p.evaluate(phase, report.receipt, index, contents) == Sound(evaluated) ==>
                   && after == h + Reads(index.body.artifacts) + [Accepted(phase, Verified(report, index, reference))]
                   && checked.Passed? && checked.proven.verified == Verified(report, index, reference)
                   && checked.proven.evaluated == evaluated
                   && NamesDigest(index, ArgusPresentation, Sha(checked.proven.payload))
                   && NamesDigest(index, PresentationAttestation, Sha(checked.proven.attestation))
  {
    ArtifactsReadExactly(p, h, index.body.artifacts);
    var read := ReadAll(p, h, index.body.artifacts).1;
    if read.Some? { ReadsKeepKinds(p, h, index, read.value); }
  }

  /** The phase, from its start to its verdict, when the evidence is there. */
  lemma EvidenceSettles(p: Ports, c: Config, h: History, phase: Phase, report: Report, previous: Option<Proven>, ev: Evidence)
    requires Steady(p, c) && Proves(p, c, h, phase, report, VerifiedIn(previous), ev)
    ensures var (after, checked) := RunVerified(p, c, h, phase, report, previous);
            Settles(c, h, phase, report, VerifiedIn(previous), ev, after, checked)
  {
    var started := StartedAt(c, h, phase, report, VerifiedIn(previous));
    WaitSucceedsExactly(p, c, started, ev.execution);
    assert Wait(p, c, started, ev.execution) == (FinishedAt(started, ev), true);
    ContentsExactly(p, OpenedAt(started, ev), phase, report, ev.index, ev.reference);
  }

  lemma EvidenceWasThere(p: Ports, c: Config, h: History, phase: Phase, report: Report, previous: Option<Proven>)
    returns (ev: Evidence)
    requires Steady(p, c) && RunVerified(p, c, h, phase, report, previous).1.Passed?
    ensures Proves(p, c, h, phase, report, VerifiedIn(previous), ev)
  {
    var started := StartedAt(c, h, phase, report, VerifiedIn(previous));
    var e := p.start(h, PhaseInputs(c.bundle, phase, report, VerifiedIn(previous))).value;
    WaitSucceedsExactly(p, c, started, e);
    var n :| SucceedsAfter(p, started, e, Deadline(p, c, started), n);
    var polled := Waited(started, e, n) + [Polled(e.phase)];
    assert Wait(p, c, started, e) == (polled, true);
    var reference := p.handoff(polled, e).value.index;
    var index := p.read(polled + [Fetched(e.phase)], reference).value.index;
    var reading := polled + [Fetched(e.phase)] + [Read(reference)];
    ContentsExactly(p, reading, phase, report, index, reference);
    var contents, evaluated :| ReadInOrder(p, reading, index.body.artifacts, contents)
                               && p.evaluate(phase, report.receipt, index, contents) == Sound(evaluated);
    ev := Evidence(e, n, index, reference, contents, evaluated);
  }

  /** A phase is accepted exactly on evidence, and the evidence settles what is recorded and kept. */
  lemma PhasePassesExactly(p: Ports, c: Config, h: History, phase: Phase, report: Report, previous: Option<Proven>)
    requires Steady(p, c)
    ensures RunVerified(p, c, h, phase, report, previous).1.Passed?
       <==> exists ev :: Proves(p, c, h, phase, report, VerifiedIn(previous), ev)
    ensures forall ev :: Proves(p, c, h, phase, report, VerifiedIn(previous), ev) ==>
              Settles(c, h, phase, report, VerifiedIn(previous), ev,
                      RunVerified(p, c, h, phase, report, previous).0, RunVerified(p, c, h, phase, report, previous).1)
  {
    if RunVerified(p, c, h, phase, report, previous).1.Passed? {
      var ev := EvidenceWasThere(p, c, h, phase, report, previous);
    }
    forall ev | Proves(p, c, h, phase, report, VerifiedIn(previous), ev)
      ensures Settles(c, h, phase, report, VerifiedIn(previous), ev,
                      RunVerified(p, c, h, phase, report, previous).0, RunVerified(p, c, h, phase, report, previous).1)
    {
      EvidenceSettles(p, c, h, phase, report, previous, ev);
    }
  }
}
