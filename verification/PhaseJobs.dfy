/** Several phase jobs at work on one container at once, interleaved one upload at a time. A job may start
    at any moment, of any run and phase, and may stop for good between two uploads. */
module PhaseJobs {

  import opened Options
  import opened PhaseChain
  import opened PhaseRunner

  /** A running phase: the references its uploads have returned so far, and whether one has failed. */
  datatype Runner = Runner(delivery: Delivery, evaluation: Evaluation, references: seq<Reference>, failed: bool) {
    predicate Valid() { delivery.Accepted() && |evaluation.contents| == 5 && |references| <= 6 }

    function Wanted(): seq<Request>
      requires Valid()
    {
      Requests(delivery.bundle.run, delivery.inputs.phase, evaluation.contents)
    }

    /** The upload the runner makes next: five artifacts and, if they are the ones asked for, the index. */
    function Next(): Option<Request>
      requires Valid()
    {
      if failed || |references| == 6 then None
      else if |references| < 5 then Some(Wanted()[|references|])
      else if !AllNamed(Wanted(), references) then None
      else Some(IndexRequest(delivery.Build(evaluation.results, Artifacts(references))))
    }

    predicate Completed() { |references| == 6 }
  }

  datatype System = System(blobs: Blobs, runners: seq<Runner>)

  datatype Event = Starts(delivery: Delivery, evaluation: Evaluation) | Uploads(runner: nat, weather: Weather)

  ghost predicate AllValid(s: System) { forall r <- s.runners :: r.Valid() }

  function After(r: Runner, reference: Option<Reference>): Runner {
    if reference.None? then r.(failed := true) else r.(references := r.references + [reference.value])
  }

  /** A job whose inputs or evaluation are refused uploads nothing, so only the others start a runner. */
  function Step(s: System, e: Event): (t: System)
    requires AllValid(s)
    ensures AllValid(t)
  {
    match e
    case Starts(d, evaluation) =>
      var r := Runner(d, evaluation, [], false);
      if r.Valid() then s.(runners := s.runners + [r]) else s
    case Uploads(k, weather) =>
      if k >= |s.runners| || s.runners[k].Next().None? then s
      else
        var (after, reference) := Write(s.blobs, s.runners[k].Next().value, weather);
        System(after, s.runners[k := After(s.runners[k], reference)])
  }

  function Execute(s: System, events: seq<Event>): (t: System)
    requires AllValid(s)
    ensures AllValid(t)
  {
    if events == [] then s else Step(Execute(s, events[..|events| - 1]), events[|events| - 1])
  }

  // ---------------------------------------------------------------- the invariant

  /** What a runner was given for its artifacts is what it asked for, and is stored. */
  predicate Backed(blobs: Blobs, r: Runner)
    requires r.Valid()
  {
    && (forall i :: 0 <= i < |r.references| ==> Stored(blobs, r.references[i]))
    && (forall i :: 0 <= i < |r.references| && i < 5 ==> Names(r.references[i], r.Wanted()[i]))
    && (|r.references| == 6 ==> r.references[5].name == IndexName(r))
  }

  function IndexName(r: Runner): Name { ArtifactName(r.delivery.bundle.run, r.delivery.inputs.phase, INDEX_SLOT) }

  /** No name was given to two runners. */
  predicate Apart(a: Runner, b: Runner) {
    forall i, j :: 0 <= i < |a.references| && 0 <= j < |b.references| ==> a.references[i].name != b.references[j].name
  }

  ghost predicate Inv(s: System) {
    && AllValid(s)
    && IndexesAreComplete(s.blobs)
    && (forall r <- s.runners :: Backed(s.blobs, r))
    && forall k, l :: 0 <= k < l < |s.runners| ==> Apart(s.runners[k], s.runners[l])
  }

  lemma ArtifactIsNoIndex(r: Runner, blobs: Blobs, weather: Weather)
    requires r.Valid() && |r.references| < 5 && r.Next().Some? && IndexesAreComplete(blobs)
    ensures IndexesAreComplete(Write(blobs, r.Next().value, weather).0)
  {
    var after := Write(blobs, r.Next().value, weather).0;
    ArtifactsAreNotIndexes(r.delivery.bundle.run, r.delivery.inputs.phase, r.evaluation.contents, |r.references|);
    forall n <- after | n.ArtifactName? && n.slot == INDEX_SLOT
      ensures after[n].content.IndexBytes? && Complete(after, after[n].content.index)
    {
      CompleteStays(blobs, after, blobs[n].content.index);
    }
  }

  lemma NextIndexIsComplete(r: Runner, blobs: Blobs)
    requires r.Valid() && |r.references| == 5 && r.Next().Some? && Backed(blobs, r)
    ensures Complete(blobs, r.delivery.Build(r.evaluation.results, Artifacts(r.references)))
    ensures r.Next().value.name == IndexName(r)
  {
    var artifacts := Artifacts(r.references);
    forall i | 0 <= i < 5
      ensures artifacts[i].reference.name == ArtifactName(r.delivery.bundle.run, r.delivery.inputs.phase, SLOTS[i])
    {
      assert Names(r.references[i], r.Wanted()[i]);
    }
    BuiltIndexIsValid(r.delivery, r.evaluation.results, artifacts);
  }

  lemma UploadKeepsIndexes(r: Runner, blobs: Blobs, weather: Weather)
    requires r.Valid() && r.Next().Some? && Backed(blobs, r) && IndexesAreComplete(blobs)
    ensures IndexesAreComplete(Write(blobs, r.Next().value, weather).0)
  {
    if |r.references| < 5 {
      ArtifactIsNoIndex(r, blobs, weather);
    } else {
      NextIndexIsComplete(r, blobs);
      IndexWriteKeepsIndexes(blobs, r.delivery.Build(r.evaluation.results, Artifacts(r.references)), weather);
    }
  }

  lemma UploaderIsBacked(r: Runner, blobs: Blobs, weather: Weather)
    requires r.Valid() && r.Next().Some? && Backed(blobs, r)
    ensures var (after, reference) := Write(blobs, r.Next().value, weather);
            After(r, reference).Valid() && Backed(after, After(r, reference))
  {
    if |r.references| == 5 { NextIndexIsComplete(r, blobs); }
  }

  lemma StayBacked(r: Runner, before: Blobs, after: Blobs)
    requires r.Valid() && Backed(before, r) && Keeps(before, after)
    ensures Backed(after, r)
  {
  }

  /** A create-only upload succeeds only under a name nobody was given. */
  lemma UploaderStaysApart(r: Runner, other: Runner, blobs: Blobs, weather: Weather)
    requires r.Valid() && other.Valid() && r.Next().Some? && Backed(blobs, other) && (Apart(r, other) || Apart(other, r))
    ensures var a := After(r, Write(blobs, r.Next().value, weather).1); Apart(a, other) && Apart(other, a)
  {
    forall j | 0 <= j < |other.references| ensures other.references[j].name in blobs {
      assert Stored(blobs, other.references[j]);
    }
  }

  lemma StepKeepsInv(s: System, e: Event)
    requires Inv(s)
    ensures Inv(Step(s, e)) && Keeps(s.blobs, Step(s, e).blobs)
  {
    if e.Uploads? && e.runner < |s.runners| && s.runners[e.runner].Next().Some? {
      var r, t := s.runners[e.runner], Step(s, e);
      assert Keeps(s.blobs, t.blobs);
      UploadKeepsIndexes(r, s.blobs, e.weather);
      UploaderIsBacked(r, s.blobs, e.weather);
      forall k | 0 <= k < |t.runners| ensures Backed(t.blobs, t.runners[k]) {
        if k != e.runner { StayBacked(s.runners[k], s.blobs, t.blobs); }
      }
      forall k, l | 0 <= k < l < |t.runners| ensures Apart(t.runners[k], t.runners[l]) {
        if k == e.runner { UploaderStaysApart(r, s.runners[l], s.blobs, e.weather); }
        if l == e.runner { UploaderStaysApart(r, s.runners[k], s.blobs, e.weather); }
      }
    }
  }

  /** However any number of jobs are interleaved and wherever each of them fails or stops, no stored index
      lacks an artifact, and no blob is lost or changed. */
  lemma {:induction false} JobsKeepIndexes(blobs: Blobs, events: seq<Event>)
    requires IndexesAreComplete(blobs)
    ensures var t := Execute(System(blobs, []), events);
            Inv(t) && IndexesAreComplete(t.blobs) && Keeps(blobs, t.blobs)
  {
    if events != [] {
      JobsKeepIndexes(blobs, events[..|events| - 1]);
      StepKeepsInv(Execute(System(blobs, []), events[..|events| - 1]), events[|events| - 1]);
    }
  }

  lemma SameNamesMeet(blobs: Blobs, a: Runner, b: Runner)
    requires a.Valid() && b.Valid() && Backed(blobs, a) && Backed(blobs, b)
    requires a.delivery.bundle.run == b.delivery.bundle.run && a.delivery.inputs.phase == b.delivery.inputs.phase
    requires a.references != [] && b.references != []
    ensures !Apart(a, b) && !Apart(b, a)
  {
    assert Names(a.references[0], a.Wanted()[0]) && Names(b.references[0], b.Wanted()[0]);
  }

  /** Of all the jobs ever started for one phase of one run, at most one has ever had an upload confirmed;
      so at most one completes. */
  lemma OneJobCompletes(blobs: Blobs, events: seq<Event>, k: nat, l: nat)
    requires IndexesAreComplete(blobs)
    requires var t := Execute(System(blobs, []), events);
             && k < |t.runners| && l < |t.runners| && k != l
             && t.runners[k].delivery.bundle.run == t.runners[l].delivery.bundle.run
             && t.runners[k].delivery.inputs.phase == t.runners[l].delivery.inputs.phase
    ensures var t := Execute(System(blobs, []), events);
            t.runners[k].references != [] ==> t.runners[l].references == []
  {
    JobsKeepIndexes(blobs, events);
    var t := Execute(System(blobs, []), events);
    if t.runners[k].references != [] && t.runners[l].references != [] {
      SameNamesMeet(t.blobs, t.runners[k], t.runners[l]);
      assert false;
    }
  }

  // ---------------------------------------------------------------- one job alone

  /** The uploads `k` to 5 of a runner that has the container to itself. */
  function Alone(blobs: Blobs, r: Runner, weather: nat -> Weather, k: nat): (Blobs, Runner)
    requires r.Valid() && k <= 6
    decreases 6 - k
  {
    if k == 6 || r.Next().None? then (blobs, r)
    else
      var (after, reference) := Write(blobs, r.Next().value, weather(k));
      Alone(after, After(r, reference), weather, k + 1)
  }

  lemma FailedStays(blobs: Blobs, r: Runner, weather: nat -> Weather, k: nat)
    requires r.Valid() && r.failed && k <= 6
    ensures Alone(blobs, r, weather, k) == (blobs, r)
  {
  }

  lemma AloneSteps(blobs: Blobs, r: Runner, weather: nat -> Weather, k: nat)
    requires r.Valid() && !r.failed && |r.references| == k < 5
    ensures var (after, reference) := Write(blobs, r.Wanted()[k], weather(k));
            Alone(blobs, r, weather, k) == Alone(after, After(r, reference), weather, k + 1)
  {
  }

  /** A whole set of references takes the runner from upload `k` to the index; otherwise it stops. */
  predicate WritesArtifacts(alone: (Blobs, Runner), r: Runner, weather: nat -> Weather, written: (Blobs, Option<seq<Reference>>))
    requires r.Valid()
  {
    if written.1.None? then alone.0 == written.0 && !alone.1.Completed()
    else
      && |r.references| + |written.1.value| == 5
      && alone == Alone(written.0, r.(references := r.references + written.1.value), weather, 5)
  }

  /** Its artifact uploads are one `create_only` of what is left to write. */
  lemma {:induction false} AloneWrites(blobs: Blobs, r: Runner, weather: nat -> Weather, k: nat)
    requires r.Valid() && !r.failed && |r.references| == k <= 5
    ensures WritesArtifacts(Alone(blobs, r, weather, k), r, weather, WriteAll(blobs, r.Wanted()[k..], weather, k))
    decreases 5 - k
  {
    if k == 5 {
      assert r.Wanted()[k..] == [] && r.references + [] == r.references;
    } else {
      var requests := r.Wanted()[k..];
      assert requests[0] == r.Wanted()[k] && requests[1..] == r.Wanted()[k + 1..];
      AloneSteps(blobs, r, weather, k);
      var (after, reference) := Write(blobs, requests[0], weather(k));
      if reference.None? {
        FailedStays(after, After(r, reference), weather, k + 1);
      } else {
        AloneWrites(after, After(r, reference), weather, k + 1);
        OneMoreReference(r.references, reference.value, WriteAll(after, requests[1..], weather, k + 1).1);
      }
    }
  }

  lemma OneMoreReference(references: seq<Reference>, next: Reference, rest: Option<seq<Reference>>)
    ensures rest.Some? ==> references + ([next] + rest.value) == (references + [next]) + rest.value
  {
  }

  lemma AloneWritesIndex(blobs: Blobs, r: Runner, weather: nat -> Weather)
    requires r.Valid() && !r.failed && |r.references| == 5 && r.Next().Some?
    ensures var (after, reference) := Write(blobs, r.Next().value, weather(5));
            Alone(blobs, r, weather, 5) == (after, After(r, reference))
  {
  }

  /** Left alone, the runner's steps are the whole phase run. */
  lemma AloneIsRunPhase(blobs: Blobs, d: Delivery, evaluation: Evaluation, weather: nat -> Weather)
    requires d.Accepted() && |evaluation.contents| == 5
    ensures var (after, r) := Alone(blobs, Runner(d, evaluation, [], false), weather, 0);
            var (container, completion) := RunPhase(blobs, d, Some(evaluation), weather);
            && after == container
            && (r.Completed() <==> completion.Some?)
            && (r.Completed() ==> r.references[5] == completion.value.reference)
  {
    var r := Runner(d, evaluation, [], false);
    AloneWrites(blobs, r, weather, 0);
    assert r.Wanted()[0..] == r.Wanted();
    var (written, references) := WriteAll(blobs, r.Wanted(), weather, 0);
    if references.Some? {
      assert [] + references.value == references.value;
      var full := r.(references := references.value);
      if full.Next().Some? { AloneWritesIndex(written, full, weather); }
    }
  }
}
