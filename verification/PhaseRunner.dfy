/** The phase runner at work: it checks its delivery, writes five artifacts create-only, checks what the
    writer returned, and only then writes the completion index. Any write may fail, and may also fail
    after the blob is stored. */
module PhaseRunner {

  import opened Options
  import opened PhaseChain

  /** A create-only container never holds two versions of a name. */
  datatype Blob = Blob(version: string, content: Content)
  type Blobs = map<Name, Blob>

  /** The fate of one upload; the service chooses the version. */
  datatype Weather = Stores(version: string) | LosesReply(version: string) | Fails

  datatype Request = Request(name: Name, content: Content)

  function Write(blobs: Blobs, request: Request, weather: Weather): (Blobs, Option<Reference>) {
    if request.name in blobs || weather.Fails? then (blobs, None)
    else
      var after := blobs[request.name := Blob(weather.version, request.content)];
      (after, if weather.Stores? then Some(Reference(request.name, weather.version, Sha(request.content))) else None)
  }

  function Cons(head: Option<Reference>, tail: Option<seq<Reference>>): Option<seq<Reference>> {
    if head.Some? && tail.Some? then Some([head.value] + tail.value) else None
  }

  /** Uploads in order, stopping at the first failure. */
  function WriteAll(blobs: Blobs, requests: seq<Request>, weather: nat -> Weather, k: nat): (Blobs, Option<seq<Reference>>)
    decreases |requests|
  {
    if requests == [] then (blobs, Some([]))
    else
      var (next, first) := Write(blobs, requests[0], weather(k));
      if first.None? then (next, None)
      else var (last, rest) := WriteAll(next, requests[1..], weather, k + 1);
        (last, Cons(first, rest))
  }

  predicate Names(reference: Reference, request: Request) {
    reference.name == request.name && reference.digest == Sha(request.content)
  }

  predicate Stored(blobs: Blobs, reference: Reference) {
    && reference.name in blobs
    && blobs[reference.name].version == reference.version
    && Sha(blobs[reference.name].content) == reference.digest
  }

  predicate Keeps(before: Blobs, after: Blobs) {
    forall n <- before :: n in after && after[n] == before[n]
  }

  lemma {:induction false} WriteAllKeeps(blobs: Blobs, requests: seq<Request>, weather: nat -> Weather, k: nat)
    ensures Keeps(blobs, WriteAll(blobs, requests, weather, k).0)
    ensures forall n <- WriteAll(blobs, requests, weather, k).0 :: n in blobs || exists i :: 0 <= i < |requests| && requests[i].name == n
    decreases |requests|
  {
    if requests != [] {
      var (next, first) := Write(blobs, requests[0], weather(k));
      if first.Some? {
        WriteAllKeeps(next, requests[1..], weather, k + 1);
        forall n <- WriteAll(blobs, requests, weather, k).0
          ensures n in blobs || exists i :: 0 <= i < |requests| && requests[i].name == n
        {
          if n !in next {
            var i :| 0 <= i < |requests[1..]| && requests[1..][i].name == n;
            assert requests[i + 1].name == n;
          }
        }
      }
    }
  }

  /** References come back only for a complete set, one for each request, naming what is stored. */
  lemma {:induction false} WriteAllStores(blobs: Blobs, requests: seq<Request>, weather: nat -> Weather, k: nat)
    requires WriteAll(blobs, requests, weather, k).1.Some?
    ensures var (after, references) := WriteAll(blobs, requests, weather, k);
            && |references.value| == |requests|
            && forall i :: 0 <= i < |requests| ==> Names(references.value[i], requests[i]) && Stored(after, references.value[i])
    decreases |requests|
  {
    if requests != [] {
      var (next, first) := Write(blobs, requests[0], weather(k));
      WriteAllStores(next, requests[1..], weather, k + 1);
      WriteAllKeeps(next, requests[1..], weather, k + 1);
      var (after, rest) := WriteAll(next, requests[1..], weather, k + 1);
      forall i | 0 <= i < |requests|
        ensures Names(([first.value] + rest.value)[i], requests[i]) && Stored(after, ([first.value] + rest.value)[i])
      {
        if i > 0 { assert requests[i] == requests[1..][i - 1]; }
      }
    }
  }

  predicate Fresh(blobs: Blobs, requests: seq<Request>) {
    && (forall i :: 0 <= i < |requests| ==> requests[i].name !in blobs)
    && forall i, j :: 0 <= i < j < |requests| ==> requests[i].name != requests[j].name
  }

  predicate Calm(weather: nat -> Weather, k: nat, n: nat) {
    forall i :: k <= i < k + n ==> weather(i).Stores?
  }

  /** A set of artifacts is written in full exactly when none of the names is taken and no upload fails. */
  lemma {:induction false} WriteAllSucceeds(blobs: Blobs, requests: seq<Request>, weather: nat -> Weather, k: nat)
    ensures WriteAll(blobs, requests, weather, k).1.Some? <==> Fresh(blobs, requests) && Calm(weather, k, |requests|)
    decreases |requests|
  {
    if requests != [] {
      var (next, first) := Write(blobs, requests[0], weather(k));
      var rest := requests[1..];
      if first.Some? {
        WriteAllSucceeds(next, rest, weather, k + 1);
        FreshTail(blobs, requests, next);
        assert Calm(weather, k, |requests|) <==> Calm(weather, k + 1, |rest|);
      } else {
        assert !(Fresh(blobs, requests) && Calm(weather, k, |requests|)) by {
          assert requests[0].name in blobs || !weather(k).Stores?;
        }
      }
    }
  }

  lemma FreshTail(blobs: Blobs, requests: seq<Request>, next: Blobs)
    requires requests != [] && requests[0].name !in blobs && next.Keys == blobs.Keys + {requests[0].name}
    ensures Fresh(blobs, requests) <==> Fresh(next, requests[1..])
  {
    var rest := requests[1..];
    assert forall i :: 0 <= i < |rest| ==> rest[i] == requests[i + 1];
    if Fresh(next, rest) {
      forall i, j | 0 <= i < j < |requests| ensures requests[i].name != requests[j].name {
        assert requests[j] == rest[j - 1];
        if i > 0 { assert requests[i] == rest[i - 1]; }
      }
      forall i | 0 <= i < |requests| ensures requests[i].name !in blobs {
        if i > 0 { assert requests[i] == rest[i - 1]; }
      }
    }
  }

  // ---------------------------------------------------------------- one phase

  function Requests(run: string, phase: Phase, contents: seq<Content>): seq<Request>
    requires |contents| == 5
  {
    seq(5, i requires 0 <= i < 5 => Request(ArtifactName(run, phase, SLOTS[i]), contents[i]))
  }

  function Artifacts(references: seq<Reference>): seq<Artifact>
    requires |references| == 5
  {
    seq(5, i requires 0 <= i < 5 => Artifact(KINDS[i], references[i]))
  }

  predicate AllNamed(requests: seq<Request>, references: seq<Reference>) {
    && |requests| == 5 && |references| == 5
    && forall i :: 0 <= i < 5 ==> Names(references[i], requests[i])
  }

  /** What the evaluation of a phase yields: digests, and the five artifacts in order. */
  datatype Evaluation = Evaluation(results: Results, contents: seq<Content>)

  datatype Delivery = Delivery(bundle: Bundle, inputs: Inputs, receipt: Content, previous: Option<Content>) {
    predicate Accepted() { Delivered(bundle, inputs, receipt, previous) }

    function Build(results: Results, artifacts: seq<Artifact>): Index
      requires Accepted()
    {
      CompletionIndex(bundle, inputs, receipt.receipt, if previous.Some? then Some(previous.value.index) else None,
                      results, artifacts)
    }
  }

  datatype Completion = Completion(index: Index, reference: Reference)

  function IndexRequest(index: Index): Request {
    Request(ArtifactName(index.body.run, index.body.phase, INDEX_SLOT), IndexBytes(index))
  }

  /** `run_operational_phase`; no evaluation stands for one that failed or did not match the phase. */
  function RunPhase(blobs: Blobs, d: Delivery, evaluation: Option<Evaluation>, weather: nat -> Weather)
    : (Blobs, Option<Completion>)
    requires evaluation.Some? ==> |evaluation.value.contents| == 5
  {
    if !d.Accepted() || evaluation.None? then (blobs, None)
    else
      var requests := Requests(d.bundle.run, d.inputs.phase, evaluation.value.contents);
      var (written, references) := WriteAll(blobs, requests, weather, 0);
      if references.None? || !AllNamed(requests, references.value) then (written, None)
      else
        var index := d.Build(evaluation.value.results, Artifacts(references.value));
        var (after, reference) := Write(written, IndexRequest(index), weather(5));
        (after, if reference.None? then None else Some(Completion(index, reference.value)))
  }

  // ---------------------------------------------------------------- what a stored index promises

  predicate Complete(blobs: Blobs, index: Index) {
    && ValidIndex(index)
    && forall i :: 0 <= i < 5 ==> Stored(blobs, index.body.artifacts[i].reference)
  }

  /** Every stored completion index refers to five stored artifacts with matching digests. */
  ghost predicate IndexesAreComplete(blobs: Blobs) {
    forall n <- blobs :: n.ArtifactName? && n.slot == INDEX_SLOT ==>
      blobs[n].content.IndexBytes? && Complete(blobs, blobs[n].content.index)
  }

  lemma CompleteStays(before: Blobs, after: Blobs, index: Index)
    requires Keeps(before, after) && Complete(before, index)
    ensures Complete(after, index)
  {
  }

  lemma ArtifactsAreNotIndexes(run: string, phase: Phase, contents: seq<Content>, i: nat)
    requires |contents| == 5 && i < 5
    ensures Requests(run, phase, contents)[i].name.slot != INDEX_SLOT
  {
  }

  lemma ArtifactsKeepIndexes(blobs: Blobs, run: string, phase: Phase, contents: seq<Content>, weather: nat -> Weather)
    requires |contents| == 5 && IndexesAreComplete(blobs)
    ensures IndexesAreComplete(WriteAll(blobs, Requests(run, phase, contents), weather, 0).0)
  {
    var requests := Requests(run, phase, contents);
    var after := WriteAll(blobs, requests, weather, 0).0;
    WriteAllKeeps(blobs, requests, weather, 0);
    forall n <- after | n.ArtifactName? && n.slot == INDEX_SLOT
      ensures after[n].content.IndexBytes? && Complete(after, after[n].content.index)
    {
      if n !in blobs {
        var i :| 0 <= i < |requests| && requests[i].name == n;
        ArtifactsAreNotIndexes(run, phase, contents, i);
        assert false;
      } else {
        CompleteStays(blobs, after, blobs[n].content.index);
      }
    }
  }

  /** The index the runner is about to write is valid, and its five artifacts are there. */
  lemma BuiltIndexIsComplete(blobs: Blobs, d: Delivery, evaluation: Evaluation, weather: nat -> Weather)
    requires d.Accepted() && |evaluation.contents| == 5
    requires WriteAll(blobs, Requests(d.bundle.run, d.inputs.phase, evaluation.contents), weather, 0).1.Some?
    ensures var requests := Requests(d.bundle.run, d.inputs.phase, evaluation.contents);
            var (written, references) := WriteAll(blobs, requests, weather, 0);
            && AllNamed(requests, references.value)
            && Complete(written, d.Build(evaluation.results, Artifacts(references.value)))
  {
    var requests := Requests(d.bundle.run, d.inputs.phase, evaluation.contents);
    var (written, references) := WriteAll(blobs, requests, weather, 0);
    WriteAllStores(blobs, requests, weather, 0);
    var artifacts := Artifacts(references.value);
    forall i | 0 <= i < 5
      ensures artifacts[i].reference.name == ArtifactName(d.bundle.run, d.inputs.phase, SLOTS[i])
    {
      assert Names(references.value[i], requests[i]);
    }
    BuiltIndexIsValid(d, evaluation.results, artifacts);
  }

  lemma BuiltIndexIsValid(d: Delivery, results: Results, artifacts: seq<Artifact>)
    requires d.Accepted() && NamedArtifacts(d.bundle.run, d.inputs.phase, artifacts)
    ensures ValidIndex(d.Build(results, artifacts))
  {
  }

  lemma IndexWriteKeepsIndexes(blobs: Blobs, index: Index, weather: Weather)
    requires IndexesAreComplete(blobs) && Complete(blobs, index)
    ensures IndexesAreComplete(Write(blobs, IndexRequest(index), weather).0)
  {
    var after := Write(blobs, IndexRequest(index), weather).0;
    assert Keeps(blobs, after);
    CompleteStays(blobs, after, index);
    forall n <- after | n.ArtifactName? && n.slot == INDEX_SLOT
      ensures after[n].content.IndexBytes? && Complete(after, after[n].content.index)
    {
      if n in blobs { CompleteStays(blobs, after, blobs[n].content.index); }
    }
  }

  /** Whatever fails, and wherever it fails, no stored index ever lacks an artifact. */
  lemma RunPhaseKeepsIndexes(blobs: Blobs, d: Delivery, evaluation: Option<Evaluation>, weather: nat -> Weather)
    requires evaluation.Some? ==> |evaluation.value.contents| == 5
    requires IndexesAreComplete(blobs)
    ensures IndexesAreComplete(RunPhase(blobs, d, evaluation, weather).0)
  {
    if d.Accepted() && evaluation.Some? {
      var requests := Requests(d.bundle.run, d.inputs.phase, evaluation.value.contents);
      var (written, references) := WriteAll(blobs, requests, weather, 0);
      ArtifactsKeepIndexes(blobs, d.bundle.run, d.inputs.phase, evaluation.value.contents, weather);
      if references.Some? {
        BuiltIndexIsComplete(blobs, d, evaluation.value, weather);
        IndexWriteKeepsIndexes(written, d.Build(evaluation.value.results, Artifacts(references.value)), weather(5));
      }
    }
  }

  /** A phase completes exactly when its delivery is accepted, its evaluation holds, its six names are
      free and all six uploads succeed; what it then returns is where the index is stored. */
  lemma RunPhaseCompletes(blobs: Blobs, d: Delivery, evaluation: Option<Evaluation>, weather: nat -> Weather)
    requires evaluation.Some? ==> |evaluation.value.contents| == 5
    ensures RunPhase(blobs, d, evaluation, weather).1.Some?
       <==> && d.Accepted() && evaluation.Some? && Calm(weather, 0, 6)
            && Fresh(blobs, Requests(d.bundle.run, d.inputs.phase, evaluation.value.contents))
            && ArtifactName(d.bundle.run, d.inputs.phase, INDEX_SLOT) !in blobs
    ensures var (after, completion) := RunPhase(blobs, d, evaluation, weather);
            completion.Some? ==>
              && Stored(after, completion.value.reference) && Complete(after, completion.value.index)
              && completion.value.reference.digest == Sha(IndexBytes(completion.value.index))
              && completion.value.reference.name == ArtifactName(d.bundle.run, d.inputs.phase, INDEX_SLOT)
  {
    if d.Accepted() && evaluation.Some? {
      var requests := Requests(d.bundle.run, d.inputs.phase, evaluation.value.contents);
      WriteAllSucceeds(blobs, requests, weather, 0);
      WriteAllKeeps(blobs, requests, weather, 0);
      var (written, references) := WriteAll(blobs, requests, weather, 0);
      IndexNameUnused(blobs, d.bundle.run, d.inputs.phase, evaluation.value.contents, weather);
      assert Calm(weather, 0, 6) <==> Calm(weather, 0, 5) && weather(5).Stores?;
      if references.Some? {
        BuiltIndexIsComplete(blobs, d, evaluation.value, weather);
        var index := d.Build(evaluation.value.results, Artifacts(references.value));
        CompleteStays(written, Write(written, IndexRequest(index), weather(5)).0, index);
      }
    }
  }

  /** The index of a completed phase is of this run and phase, carries the results of its evaluation, and
      names, kind by kind, what the evaluation yielded. */
  lemma CompletedIndexIs(blobs: Blobs, d: Delivery, evaluation: Option<Evaluation>, weather: nat -> Weather)
    requires evaluation.Some? ==> |evaluation.value.contents| == 5
    requires RunPhase(blobs, d, evaluation, weather).1.Some?
    ensures var body := RunPhase(blobs, d, evaluation, weather).1.value.index.body;
            && body.run == d.bundle.run && body.phase == d.inputs.phase && body.results == evaluation.value.results
            && |body.artifacts| == 5
            && forall i :: 0 <= i < 5 ==>
                 && body.artifacts[i].kind == KINDS[i]
                 && body.artifacts[i].reference.name == ArtifactName(d.bundle.run, d.inputs.phase, SLOTS[i])
                 && body.artifacts[i].reference.digest == Sha(evaluation.value.contents[i])
  {
    var requests := Requests(d.bundle.run, d.inputs.phase, evaluation.value.contents);
    var references := WriteAll(blobs, requests, weather, 0).1.value;
    forall i | 0 <= i < 5
      ensures Artifacts(references)[i] == Artifact(KINDS[i], references[i])
      ensures references[i].name == ArtifactName(d.bundle.run, d.inputs.phase, SLOTS[i])
      ensures references[i].digest == Sha(evaluation.value.contents[i])
    {
      assert Names(references[i], requests[i]);
    }
  }

  lemma IndexNameUnused(blobs: Blobs, run: string, phase: Phase, contents: seq<Content>, weather: nat -> Weather)
    requires |contents| == 5
    ensures ArtifactName(run, phase, INDEX_SLOT) in WriteAll(blobs, Requests(run, phase, contents), weather, 0).0
       <==> ArtifactName(run, phase, INDEX_SLOT) in blobs
  {
    var requests := Requests(run, phase, contents);
    WriteAllKeeps(blobs, requests, weather, 0);
    forall i | 0 <= i < 5 ensures requests[i].name.slot != INDEX_SLOT { ArtifactsAreNotIndexes(run, phase, contents, i); }
  }

  // ---------------------------------------------------------------- the runner

  class ArtifactContainer {
    var blobs: Blobs
    var uploads: nat

    constructor ()
      ensures blobs == map[] && uploads == 0
    {
      blobs := map[];
      uploads := 0;
    }

    method Upload(request: Request, weather: Weather) returns (r: Option<Reference>)
      modifies this
      ensures (blobs, r) == Write(old(blobs), request, weather) && uploads == old(uploads) + 1
    {
      uploads := uploads + 1;
      if request.name in blobs || weather.Fails? { return None; }
      blobs := blobs[request.name := Blob(weather.version, request.content)];
      return if weather.Stores? then Some(Reference(request.name, weather.version, Sha(request.content))) else None;
    }

    /** `create_only`. */
    method CreateOnly(requests: seq<Request>, weather: nat -> Weather) returns (r: Option<seq<Reference>>)
      modifies this
      ensures (blobs, r) == WriteAll(old(blobs), requests, weather, 0)
    {
      var references: seq<Reference> := [];
      ghost var whole := WriteAll(blobs, requests, weather, 0);
      assert requests[0..] == requests;
      assert whole.1.Some? ==> references + whole.1.value == whole.1.value;
      for i := 0 to |requests|
        invariant |references| == i
        invariant var (last, rest) := WriteAll(blobs, requests[i..], weather, i);
                  whole == (last, if rest.Some? then Some(references + rest.value) else None)
      {
        assert requests[i..][0] == requests[i] && requests[i..][1..] == requests[i + 1..];
        ghost var rest := WriteAll(Write(blobs, requests[i], weather(i)).0, requests[i + 1..], weather, i + 1).1;
        var reference := Upload(requests[i], weather(i));
        if reference.None? { return None; }
        assert rest.Some? ==> references + ([reference.value] + rest.value) == (references + [reference.value]) + rest.value;
        references := references + [reference.value];
      }
      assert requests[|requests|..] == [] && references + [] == references;
      return Some(references);
    }
  }

  /** `_validate_written_artifacts`: whatever the writer returned is checked against what was asked. */
  method ValidateWritten(requests: seq<Request>, references: seq<Reference>) returns (r: Option<seq<Artifact>>)
    ensures r.Some? <==> AllNamed(requests, references)
    ensures r.Some? ==> r.value == Artifacts(references)
  {
    if |requests| != 5 || |references| != |requests| { return None; }
    var output: seq<Artifact> := [];
    for i := 0 to 5
      invariant |output| == i && forall k :: 0 <= k < i ==> output[k] == Artifact(KINDS[k], references[k])
      invariant forall k :: 0 <= k < i ==> Names(references[k], requests[k])
    {
      if references[i].name != requests[i].name || references[i].digest != Sha(requests[i].content) { return None; }
      output := output + [Artifact(KINDS[i], references[i])];
    }
    return Some(output);
  }

  method RunOperationalPhase(container: ArtifactContainer, d: Delivery, evaluation: Option<Evaluation>, weather: nat -> Weather)
    returns (r: Option<Completion>)
    requires evaluation.Some? ==> |evaluation.value.contents| == 5
    modifies container
    ensures (container.blobs, r) == RunPhase(old(container.blobs), d, evaluation, weather)
  {
    if !d.Accepted() || evaluation.None? { return None; }
    var requests := Requests(d.bundle.run, d.inputs.phase, evaluation.value.contents);
    var references := container.CreateOnly(requests, weather);
    if references.None? { return None; }
    var artifacts := ValidateWritten(requests, references.value);
    if artifacts.None? { return None; }
    var index := d.Build(evaluation.value.results, artifacts.value);
    var reference := container.Upload(IndexRequest(index), weather(5));
    if reference.None? || !Names(reference.value, IndexRequest(index)) { return None; }
    return Some(Completion(index, reference.value));
  }
}
