/** The presentation payload as the Python contract defines it: its fields, its JSON document and the
    conditions its validators impose. */
module PresentationContract {
  import opened Options
  import opened StableSort

  datatype Phase = Baseline | Faulted | Recovered

  /** The property names in use; `Other` is any further one. */
  datatype Key =
    | SchemaVersion | ScenarioId | PhaseKey | WorkloadKey | FaultRunKey | AthenaKey | RuntimeStateKey | FindingsKey | ArgusKey
    | Name | ManifestId | ManifestVersion | ProfileId | ResourceGroup
    | FaultRunId | TargetVmName | AfterPowerState
    | SnapshotId | ArtifactDigest | SemanticDigest | ResultDigest | SignatureAlgorithm | KeyVaultKeyId
    | WebTierKey | ExpectedNodes | RunningNodes | FaultedNodes | ServiceState
    | ClauseId | Verdict | Summary | EvidenceRefs
    | RiskLevel | PredictedIssue | RecommendedAction
    | Other(name: string)

  datatype Json =
    | Null | Flag(on: bool) | Number(value: int) | Str(text: string)
    | Items(items: seq<Json>) | Object(fields: map<Key, Json>)

  datatype Workload = Workload(name: string, manifestId: string, version: string, profileId: string, group: string)
  datatype FaultRun = FaultRun(runId: string, target: string, power: string)
  datatype Athena = Athena(snapshotId: string, artifact: string, semantic: string, result: string,
                           algorithm: string, keyId: string)
  datatype Tier = Tier(expected: int, running: int, faulted: int, service: string)
  datatype Finding = Finding(clause: string, verdict: string, summary: string, refs: seq<string>)
  datatype Argus = Argus(risk: string, issue: string, action: string)

  datatype Payload = Payload(
    schema: string, scenario: string, phase: Phase, workload: Workload, faultRun: Option<FaultRun>,
    athena: Athena, tier: Tier, findings: seq<Finding>, argus: Argus)

  /** The frozen words and sentences of one phase; `word` is the phase's own name. */
  datatype Words = Words(word: string, service: string, verdict: string, risk: string, power: string)
  datatype Prose = Prose(summary: string, issue: string, action: string)

  /** `semver` stands for the version pattern, which both sides write alike. */
  datatype Rules = Rules(words: Phase -> Words, prose: Phase -> Prose, semver: string -> bool)

  const SCHEMA := "athena.argus.presentation.v1"
  const SCENARIO := "athena-web-node-fault.v1"
  const WORKLOAD_NAME := "Synthetic Athena web workload"
  const ALGORITHM := "RS256"

  function PythonWords(phase: Phase): Words {
    match phase
    case Baseline => Words("baseline", "healthy", "pass", "normal", "")
    case Faulted => Words("faulted", "degraded-redundancy", "fail", "warning", "stopped")
    case Recovered => Words("recovered", "recovered", "resolved", "normal", "running")
  }

  function PythonProse(phase: Phase): Prose {
    match phase
    case Baseline => Prose(
      "Both synthetic web nodes are represented as running.",
      "No synthetic web-node fault detected",
      "Observe the synthetic baseline and confirm both redundant nodes are represented as healthy.")
    case Faulted => Prose(
      "One redundant synthetic web node is stopped while its peer remains running.",
      "Reduced synthetic web-tier redundancy",
      "Review the synthetic finding and authorize recovery only through the separate demo operator workflow.")
    case Recovered => Prose(
      "The affected synthetic web node is represented as running after recovery.",
      "Synthetic web-tier redundancy restored",
      "Confirm the synthetic node and redundancy indicators are healthy, then close the demo finding.")
  }

  // ---------------------------------------------------------------- text patterns

  predicate LowerAlnum(c: char) { 'a' <= c <= 'z' || '0' <= c <= '9' }

  predicate Hex(c: char) { 'a' <= c <= 'f' || '0' <= c <= '9' }

  predicate All(ok: char -> bool, s: string) { forall i :: 0 <= i < |s| ==> ok(s[i]) }

  /** The fixed start, one letter or digit, and at most `more` characters of a wider alphabet. */
  predicate Patterned(start: string, wide: char -> bool, more: nat, s: string) {
    && |start| < |s| <= |start| + 1 + more && start <= s
    && LowerAlnum(s[|start|]) && All(wide, s[|start| + 1..])
  }

  const ID_START := "synthetic-"
  const KEY_START := "synthetic-key://"
  const DIGEST_START := "sha256:"

  predicate InId(c: char) { LowerAlnum(c) || c == '-' }

  predicate InKey(c: char) { LowerAlnum(c) || c == '.' || c == '_' || c == '/' || c == '-' }

  predicate SyntheticId(s: string) { Patterned(ID_START, InId, 126, s) }

  predicate SyntheticKey(s: string) { Patterned(KEY_START, InKey, 199, s) }

  predicate DigestText(s: string) {
    |s| == |DIGEST_START| + 64 && DIGEST_START <= s && All(Hex, s[|DIGEST_START|..])
  }

  // ---------------------------------------------------------------- sorted sets of texts

  function Codes(s: string): seq<int> { seq(|s|, i requires 0 <= i < |s| => s[i] as int) }

  predicate TextLeq(a: string, b: string) { LexLeq(Codes(a), Codes(b)) }

  function Dedup(s: seq<string>): seq<string> {
    if s == [] then []
    else
      var front := Dedup(s[..|s| - 1]);
      if s[|s| - 1] in front then front else front + [s[|s| - 1]]
  }

  /** `sorted(set(s))`. */
  function SortedSet(s: seq<string>): seq<string> { Sort(TextLeq, Dedup(s)) }

  predicate Distinct(s: seq<string>) { forall i, j :: 0 <= i < j < |s| ==> s[i] != s[j] }

  // ---------------------------------------------------------------- the validators

  predicate WorkloadOk(r: Rules, w: Workload) {
    w.name == WORKLOAD_NAME && SyntheticId(w.manifestId) && r.semver(w.version) && SyntheticId(w.profileId) && SyntheticId(w.group)
  }

  predicate AthenaOk(a: Athena) {
    && SyntheticId(a.snapshotId) && DigestText(a.artifact) && DigestText(a.semantic) && DigestText(a.result)
    && a.algorithm == ALGORITHM && SyntheticKey(a.keyId)
  }

  predicate TierOk(r: Rules, phase: Phase, t: Tier) {
    && 2 <= t.expected <= 100 && 0 <= t.running <= 100 && 0 <= t.faulted <= 100
    && t.expected == t.running + t.faulted && t.service == r.words(phase).service
    && (if phase == Faulted then t.faulted == 1 && t.running >= 1 else t.faulted == 0 && t.running == t.expected)
  }

  predicate RefsOk(refs: seq<string>) {
    1 <= |refs| <= 100 && (forall s <- refs :: SyntheticId(s)) && SortedSet(refs) == refs
  }

  predicate FindingOk(r: Rules, phase: Phase, f: Finding) {
    SyntheticId(f.clause) && f.verdict == r.words(phase).verdict && f.summary == r.prose(phase).summary && RefsOk(f.refs)
  }

  function Clauses(fs: seq<Finding>): seq<string> {
    seq(|fs|, i requires 0 <= i < |fs| => fs[i].clause)
  }

  predicate FindingsOk(r: Rules, phase: Phase, fs: seq<Finding>) {
    1 <= |fs| <= 100 && (forall f <- fs :: FindingOk(r, phase, f)) && Distinct(Clauses(fs))
  }

  predicate ArgusOk(r: Rules, phase: Phase, a: Argus) {
    a == Argus(r.words(phase).risk, r.prose(phase).issue, r.prose(phase).action)
  }

  predicate FaultRunOk(r: Rules, phase: Phase, f: FaultRun) {
    SyntheticId(f.runId) && SyntheticId(f.target) && f.power == r.words(phase).power
  }

  /** Every validator of `ArgusPresentationPayload` but the digest check. */
  predicate Conforms(r: Rules, p: Payload) {
    && p.schema == SCHEMA && p.scenario == SCENARIO
    && WorkloadOk(r, p.workload) && AthenaOk(p.athena) && TierOk(r, p.phase, p.tier)
    && FindingsOk(r, p.phase, p.findings) && ArgusOk(r, p.phase, p.argus)
    && (if p.phase == Baseline then p.faultRun.None? else p.faultRun.Some? && FaultRunOk(r, p.phase, p.faultRun.value))
  }

  // ---------------------------------------------------------------- the document

  function WorkloadDoc(w: Workload): Json {
    Object(map[Name := Str(w.name), ManifestId := Str(w.manifestId), ManifestVersion := Str(w.version),
               ProfileId := Str(w.profileId), ResourceGroup := Str(w.group)])
  }

  function FaultRunDoc(f: FaultRun): Json {
    Object(map[FaultRunId := Str(f.runId), TargetVmName := Str(f.target), AfterPowerState := Str(f.power)])
  }

  function AthenaDoc(a: Athena): Json {
    Object(map[SnapshotId := Str(a.snapshotId), ArtifactDigest := Str(a.artifact), SemanticDigest := Str(a.semantic),
               ResultDigest := Str(a.result), SignatureAlgorithm := Str(a.algorithm), KeyVaultKeyId := Str(a.keyId)])
  }

  function TierDoc(t: Tier): Json {
    Object(map[ExpectedNodes := Number(t.expected), RunningNodes := Number(t.running),
               FaultedNodes := Number(t.faulted), ServiceState := Str(t.service)])
  }

  function RuntimeDoc(t: Tier): Json { Object(map[WebTierKey := TierDoc(t)]) }

  function RefsDoc(refs: seq<string>): Json {
    Items(seq(|refs|, i requires 0 <= i < |refs| => Str(refs[i])))
  }

  function FindingDoc(f: Finding): Json {
    Object(map[ClauseId := Str(f.clause), Verdict := Str(f.verdict), Summary := Str(f.summary), EvidenceRefs := RefsDoc(f.refs)])
  }

  function FindingsDoc(fs: seq<Finding>): Json {
    Items(seq(|fs|, i requires 0 <= i < |fs| => FindingDoc(fs[i])))
  }

  function ArgusDoc(a: Argus): Json {
    Object(map[RiskLevel := Str(a.risk), PredictedIssue := Str(a.issue), RecommendedAction := Str(a.action)])
  }

  function PlainFields(r: Rules, p: Payload): map<Key, Json> {
    map[SchemaVersion := Str(p.schema), ScenarioId := Str(p.scenario), PhaseKey := Str(r.words(p.phase).word),
        WorkloadKey := WorkloadDoc(p.workload), AthenaKey := AthenaDoc(p.athena), RuntimeStateKey := RuntimeDoc(p.tier),
        FindingsKey := FindingsDoc(p.findings), ArgusKey := ArgusDoc(p.argus)]
  }

  /** The payload under its JSON property names, a missing fault run left out. */
  function Document(r: Rules, p: Payload): Json {
    Object(if p.faultRun.None? then PlainFields(r, p)
           else PlainFields(r, p)[FaultRunKey := FaultRunDoc(p.faultRun.value)])
  }

  /** What is hashed: the document without its own result digest. */
  function Preimage(r: Rules, p: Payload): Json {
    var fields := Document(r, p).fields;
    Object(fields[AthenaKey := Object(AthenaDoc(p.athena).fields - {ResultDigest})])
  }

  /** `ArgusPresentationPayload`: what an instance of the Python model satisfies. */
  predicate ValidPayload(r: Rules, hash: Json -> string, p: Payload) {
    Conforms(r, p) && p.athena.result == hash(Preimage(r, p))
  }

  // ---------------------------------------------------------------- sorted sets

  lemma {:induction false} DedupKeeps(s: seq<string>)
    ensures Distinct(Dedup(s)) && |Dedup(s)| <= |s|
    ensures forall x :: x in Dedup(s) <==> x in s
    ensures |Dedup(s)| == |s| ==> Dedup(s) == s
    ensures s != [] ==> Dedup(s) != []
  {
    if s != [] {
      DedupKeeps(s[..|s| - 1]);
      assert s == s[..|s| - 1] + [s[|s| - 1]];
    }
  }

  lemma {:induction false} DistinctStays(s: seq<string>)
    requires Distinct(s)
    ensures Dedup(s) == s
  {
    if s != [] {
      var front := s[..|s| - 1];
      DistinctStays(front);
      assert s == front + [s[|s| - 1]];
      assert forall i :: 0 <= i < |front| ==> front[i] == s[i];
    }
  }

  lemma TextOrder()
    ensures Order(TextLeq)
  {
    forall a, b ensures TextLeq(a, b) || TextLeq(b, a) { LexTotal(Codes(a), Codes(b)); }
    forall a, b, c | TextLeq(a, b) && TextLeq(b, c) ensures TextLeq(a, c) { LexTransitive(Codes(a), Codes(b), Codes(c)); }
  }

  lemma SortKeepsElements(s: seq<string>)
    ensures |Sort(TextLeq, s)| == |s| && forall x :: x in Sort(TextLeq, s) <==> x in s
  {
    TextOrder();
    SortSorts(TextLeq, s);
    forall x ensures x in Sort(TextLeq, s) <==> x in s {
      assert x in multiset(Sort(TextLeq, s)) <==> x in multiset(s);
    }
  }

  /** Being the sorted set of one's own elements is having no duplicate and being sorted. */
  lemma UniqueAndSorted(s: seq<string>)
    ensures SortedSet(s) == s <==> Distinct(s) && Sort(TextLeq, s) == s
  {
    if SortedSet(s) == s {
      SortKeepsElements(Dedup(s));
      DedupKeeps(s);
    }
    if Distinct(s) { DistinctStays(s); }
  }

  lemma DistinctSorted(s: seq<string>)
    requires Distinct(s)
    ensures Distinct(Sort(TextLeq, s))
  {
    TextOrder();
    SortSorts(TextLeq, s);
    var t := Sort(TextLeq, s);
    forall i, j | 0 <= i < j < |t| ensures t[i] != t[j] {
      if t[i] == t[j] {
        assert t == t[..i] + [t[i]] + t[i + 1..j] + [t[j]] + t[j + 1..];
        assert multiset(t)[t[i]] >= 2;
        OneOfEach(s, t[i]);
      }
    }
  }

  lemma {:induction false} OneOfEach(s: seq<string>, x: string)
    requires Distinct(s)
    ensures multiset(s)[x] <= 1
  {
    if s != [] {
      OneOfEach(s[1..], x);
      assert s == [s[0]] + s[1..];
      assert forall i :: 0 <= i < |s[1..]| ==> s[1..][i] == s[i + 1];
    }
  }

  /** `sorted(set(s))` is fixed by its own recipe, holds exactly the elements of `s`, and is no longer. */
  lemma SortedSetIsSortedSet(s: seq<string>)
    ensures SortedSet(SortedSet(s)) == SortedSet(s) && |SortedSet(s)| <= |s|
    ensures forall x :: x in SortedSet(s) <==> x in s
    ensures s != [] ==> SortedSet(s) != []
  {
    TextOrder();
    DedupKeeps(s);
    SortKeepsElements(Dedup(s));
    DistinctSorted(Dedup(s));
    DistinctStays(SortedSet(s));
    SortSorts(TextLeq, Dedup(s));
    SortedStays(TextLeq, SortedSet(s));
  }
}
