/** The browser's parser of a presentation payload and the two derivations made from what it accepts. */
module PresentationParser {
  import opened Options
  import opened StableSort
  import opened PresentationContract

  function BrowserWords(phase: Phase): Words {
    match phase
    case Baseline => Words("baseline", "healthy", "pass", "normal", "")
    case Faulted => Words("faulted", "degraded-redundancy", "fail", "warning", "stopped")
    case Recovered => Words("recovered", "recovered", "resolved", "normal", "running")
  }

  function BrowserProse(phase: Phase): Prose {
    match phase
    case Baseline => Prose(
      "Both synthetic web nodes are represented as running.",
      "No synthetic web-node fault detected",
      "Observe the synthetic baseline and confirm both redundant nodes are represented as healthy.")
    case Faulted => Prose(
      "One redundant synthetic web node is stopped while its peer remains running.",
      "Reduced synthetic web-tier redundancy",
      "Review the synthetic finding and authorize recovery only through the separate demo operator workflow.")
    case Recovered => Prose(
      "The affected synthetic web node is represented as running after recovery.",
      "Synthetic web-tier redundancy restored",
      "Confirm the synthetic node and redundancy indicators are healthy, then close the demo finding.")
  }

  // ---------------------------------------------------------------- field readers

  predicate Exactly(j: Json, keys: set<Key>) { j.Object? && j.fields.Keys == keys }

  predicate IdText(j: Json) { j.Str? && 1 <= |j.text| <= 137 && SyntheticId(j.text) }

  predicate KeyText(j: Json) { j.Str? && 1 <= |j.text| <= 216 && SyntheticKey(j.text) }

  predicate DigestField(j: Json) { j.Str? && 71 <= |j.text| <= 71 && DigestText(j.text) }

  const MAX_VERSION := 128

  predicate VersionText(r: Rules, j: Json) { j.Str? && 1 <= |j.text| <= MAX_VERSION && r.semver(j.text) }

  predicate Whole(j: Json, least: int, most: int) { j.Number? && least <= j.value <= most }

  function ReadPhase(r: Rules, j: Json): Option<Phase> {
    if j == Str(r.words(Baseline).word) then Some(Baseline)
    else if j == Str(r.words(Faulted).word) then Some(Faulted)
    else if j == Str(r.words(Recovered).word) then Some(Recovered)
    else None
  }

  function ParseWorkload(r: Rules, j: Json): Option<Workload> {
    if !Exactly(j, {Name, ManifestId, ManifestVersion, ProfileId, ResourceGroup}) then None
    else
      var f := j.fields;
      if f[Name] == Str(WORKLOAD_NAME) && IdText(f[ManifestId]) && VersionText(r, f[ManifestVersion])
         && IdText(f[ProfileId]) && IdText(f[ResourceGroup])
      then Some(Workload(f[Name].text, f[ManifestId].text, f[ManifestVersion].text, f[ProfileId].text, f[ResourceGroup].text))
      else None
  }

  function ParseFaultRun(r: Rules, phase: Phase, j: Json): Option<FaultRun> {
    if !Exactly(j, {FaultRunId, TargetVmName, AfterPowerState}) then None
    else
      var f := j.fields;
      if IdText(f[FaultRunId]) && IdText(f[TargetVmName]) && f[AfterPowerState] == Str(r.words(phase).power)
      then Some(FaultRun(f[FaultRunId].text, f[TargetVmName].text, f[AfterPowerState].text))
      else None
  }

  function ParseAthena(j: Json): Option<Athena> {
    if !Exactly(j, {SnapshotId, ArtifactDigest, SemanticDigest, ResultDigest, SignatureAlgorithm, KeyVaultKeyId}) then None
    else
      var f := j.fields;
      if IdText(f[SnapshotId]) && DigestField(f[ArtifactDigest]) && DigestField(f[SemanticDigest])
         && DigestField(f[ResultDigest]) && f[SignatureAlgorithm] == Str(ALGORITHM) && KeyText(f[KeyVaultKeyId])
      then Some(Athena(f[SnapshotId].text, f[ArtifactDigest].text, f[SemanticDigest].text, f[ResultDigest].text,
                       f[SignatureAlgorithm].text, f[KeyVaultKeyId].text))
      else None
  }

  function ParseTier(r: Rules, phase: Phase, j: Json): Option<Tier> {
    if !Exactly(j, {ExpectedNodes, RunningNodes, FaultedNodes, ServiceState}) then None
    else
      var f := j.fields;
      if !Whole(f[ExpectedNodes], 2, 100) || !Whole(f[RunningNodes], 0, 100) || !Whole(f[FaultedNodes], 0, 100) then None
      else
        var expected, running, faulted := f[ExpectedNodes].value, f[RunningNodes].value, f[FaultedNodes].value;
        if expected != running + faulted
           || (phase == Baseline && (faulted != 0 || running != expected))
           || (phase == Faulted && (faulted != 1 || running < 1))
           || (phase == Recovered && (faulted != 0 || running != expected))
           || f[ServiceState] != Str(r.words(phase).service)
        then None
        else Some(Tier(expected, running, faulted, f[ServiceState].text))
  }

  function ParseRuntimeState(r: Rules, phase: Phase, j: Json): Option<Tier> {
    if !Exactly(j, {WebTierKey}) then None else ParseTier(r, phase, j.fields[WebTierKey])
  }

  function ParseRefs(j: Json): Option<seq<string>> {
    if !j.Items? || |j.items| < 1 || |j.items| > 100 || exists i :: 0 <= i < |j.items| && !IdText(j.items[i]) then None
    else
      var refs := seq(|j.items|, i requires 0 <= i < |j.items| => j.items[i].text);
      if !Distinct(refs) || Sort(TextLeq, refs) != refs then None else Some(refs)
  }

  function ParseFinding(r: Rules, phase: Phase, j: Json): Option<Finding> {
    if !Exactly(j, {ClauseId, Verdict, Summary, EvidenceRefs}) then None
    else
      var f := j.fields;
      var refs := ParseRefs(f[EvidenceRefs]);
      if refs.Some? && IdText(f[ClauseId]) && f[Verdict] == Str(r.words(phase).verdict)
         && f[Summary] == Str(r.prose(phase).summary)
      then Some(Finding(f[ClauseId].text, f[Verdict].text, f[Summary].text, refs.value))
      else None
  }

  function ParseFindings(r: Rules, phase: Phase, j: Json): Option<seq<Finding>> {
    if !j.Items? || |j.items| < 1 || |j.items| > 100
       || exists i :: 0 <= i < |j.items| && ParseFinding(r, phase, j.items[i]).None?
    then None
    else
      var findings := seq(|j.items|, i requires 0 <= i < |j.items| => ParseFinding(r, phase, j.items[i]).value);
      if Distinct(Clauses(findings)) then Some(findings) else None
  }

  function ParseArgus(r: Rules, phase: Phase, j: Json): Option<Argus> {
    if Exactly(j, {RiskLevel, PredictedIssue, RecommendedAction})
       && j.fields[RiskLevel] == Str(r.words(phase).risk)
       && j.fields[PredictedIssue] == Str(r.prose(phase).issue)
       && j.fields[RecommendedAction] == Str(r.prose(phase).action)
    then Some(Argus(r.words(phase).risk, r.prose(phase).issue, r.prose(phase).action))
    else None
  }

  function PayloadKeys(phase: Phase): set<Key> {
    {SchemaVersion, ScenarioId, PhaseKey, WorkloadKey, AthenaKey, RuntimeStateKey, FindingsKey, ArgusKey}
    + if phase == Baseline then {} else {FaultRunKey}
  }

  /** `parsePresentationPayload`. */
  function ParsePayload(r: Rules, j: Json): Option<Payload> {
    if !j.Object? || PhaseKey !in j.fields || ReadPhase(r, j.fields[PhaseKey]).None? then None
    else
      var phase := ReadPhase(r, j.fields[PhaseKey]).value;
      if j.fields.Keys != PayloadKeys(phase) then None else ParseFields(r, phase, j.fields)
  }

  function ParseFields(r: Rules, phase: Phase, f: map<Key, Json>): Option<Payload>
    requires f.Keys == PayloadKeys(phase)
  {
    Assemble(phase, f[SchemaVersion] == Str(SCHEMA) && f[ScenarioId] == Str(SCENARIO),
             ParseWorkload(r, f[WorkloadKey]),
             if phase == Baseline then None else ParseFaultRun(r, phase, f[FaultRunKey]),
             ParseAthena(f[AthenaKey]), ParseRuntimeState(r, phase, f[RuntimeStateKey]),
             ParseFindings(r, phase, f[FindingsKey]), ParseArgus(r, phase, f[ArgusKey]))
  }

  function Assemble(phase: Phase, labelled: bool, workload: Option<Workload>, faultRun: Option<FaultRun>, athena: Option<Athena>,
                    tier: Option<Tier>, findings: Option<seq<Finding>>, argus: Option<Argus>): Option<Payload> {
    if !labelled || workload.None? || athena.None? || tier.None? || findings.None? || argus.None?
       || (phase != Baseline && faultRun.None?)
    then None
    else Some(Payload(SCHEMA, SCENARIO, phase, workload.value, if phase == Baseline then None else faultRun,
                      athena.value, tier.value, findings.value, argus.value))
  }

  // ---------------------------------------------------------------- each part is read back

  /** The length bounds of the browser say nothing that the patterns do not say already. */
  lemma BoundsAreImplied(s: string)
    ensures SyntheticId(s) ==> 1 <= |s| <= 137
    ensures SyntheticKey(s) ==> 1 <= |s| <= 216
    ensures DigestText(s) ==> |s| == 71
  {
  }

  lemma WorkloadReads(r: Rules, j: Json, w: Workload)
    requires WorkloadOk(r, w) ==> w.version != ""
    ensures ParseWorkload(r, j) == Some(w) <==> j == WorkloadDoc(w) && WorkloadOk(r, w) && |w.version| <= MAX_VERSION
  {
    BoundsAreImplied(w.manifestId);
    BoundsAreImplied(w.profileId);
    BoundsAreImplied(w.group);
    if ParseWorkload(r, j) == Some(w) { assert j.fields == WorkloadDoc(w).fields; }
  }

  lemma FaultRunReads(r: Rules, phase: Phase, j: Json, f: FaultRun)
    ensures ParseFaultRun(r, phase, j) == Some(f) <==> j == FaultRunDoc(f) && FaultRunOk(r, phase, f)
  {
    BoundsAreImplied(f.runId);
    BoundsAreImplied(f.target);
    if ParseFaultRun(r, phase, j) == Some(f) { assert j.fields == FaultRunDoc(f).fields; }
  }

  lemma AthenaReads(j: Json, a: Athena)
    ensures ParseAthena(j) == Some(a) <==> j == AthenaDoc(a) && AthenaOk(a)
  {
    BoundsAreImplied(a.snapshotId);
    BoundsAreImplied(a.keyId);
    BoundsAreImplied(a.artifact);
    BoundsAreImplied(a.semantic);
    BoundsAreImplied(a.result);
    if ParseAthena(j) == Some(a) { assert j.fields == AthenaDoc(a).fields; }
  }

  lemma TierReads(r: Rules, phase: Phase, j: Json, t: Tier)
    ensures ParseTier(r, phase, j) == Some(t) <==> j == TierDoc(t) && TierOk(r, phase, t)
  {
    if ParseTier(r, phase, j) == Some(t) { assert j.fields == TierDoc(t).fields; }
  }

  lemma RuntimeReads(r: Rules, phase: Phase, j: Json, t: Tier)
    ensures ParseRuntimeState(r, phase, j) == Some(t) <==> j == RuntimeDoc(t) && TierOk(r, phase, t)
  {
    if Exactly(j, {WebTierKey}) { TierReads(r, phase, j.fields[WebTierKey], t); }
    if ParseRuntimeState(r, phase, j) == Some(t) { assert j.fields == RuntimeDoc(t).fields; }
    if j == RuntimeDoc(t) { assert j.fields.Keys == {WebTierKey}; }
  }

  lemma RefsRead(j: Json, refs: seq<string>)
    ensures ParseRefs(j) == Some(refs) <==> j == RefsDoc(refs) && RefsOk(refs)
  {
    UniqueAndSorted(refs);
    if ParseRefs(j) == Some(refs) {
      assert j.items == RefsDoc(refs).items;
      forall s <- refs ensures SyntheticId(s) {
        var i :| 0 <= i < |refs| && refs[i] == s;
        assert IdText(j.items[i]);
      }
    }
    if j == RefsDoc(refs) && RefsOk(refs) {
      forall i | 0 <= i < |j.items| ensures IdText(j.items[i]) {
        assert refs[i] in refs;
        BoundsAreImplied(refs[i]);
      }
      assert refs == seq(|j.items|, i requires 0 <= i < |j.items| => j.items[i].text);
    }
  }

  lemma FindingReads(r: Rules, phase: Phase, j: Json, f: Finding)
    ensures ParseFinding(r, phase, j) == Some(f) <==> j == FindingDoc(f) && FindingOk(r, phase, f)
  {
    BoundsAreImplied(f.clause);
    RefsRead(RefsDoc(f.refs), f.refs);
    if ParseFinding(r, phase, j) == Some(f) {
      RefsRead(j.fields[EvidenceRefs], f.refs);
      assert j.fields == FindingDoc(f).fields;
    }
  }

  lemma FindingsRead(r: Rules, phase: Phase, j: Json, fs: seq<Finding>)
    ensures ParseFindings(r, phase, j) == Some(fs) <==> j == FindingsDoc(fs) && FindingsOk(r, phase, fs)
  {
    if ParseFindings(r, phase, j) == Some(fs) {
      forall i | 0 <= i < |fs| ensures j.items[i] == FindingDoc(fs[i]) && FindingOk(r, phase, fs[i]) {
        FindingReads(r, phase, j.items[i], fs[i]);
      }
      assert j.items == FindingsDoc(fs).items;
    }
    if j == FindingsDoc(fs) && FindingsOk(r, phase, fs) {
      forall i | 0 <= i < |fs| ensures ParseFinding(r, phase, j.items[i]) == Some(fs[i]) {
        assert fs[i] in fs;
        FindingReads(r, phase, j.items[i], fs[i]);
      }
      assert fs == seq(|j.items|, i requires 0 <= i < |j.items| => ParseFinding(r, phase, j.items[i]).value);
    }
  }

  lemma ArgusReads(r: Rules, phase: Phase, j: Json, a: Argus)
    ensures ParseArgus(r, phase, j) == Some(a) <==> j == ArgusDoc(a) && ArgusOk(r, phase, a)
  {
    if ParseArgus(r, phase, j) == Some(a) { assert j.fields == ArgusDoc(a).fields; }
  }

  // ---------------------------------------------------------------- the whole payload

  /** The words of the three phases differ, and no version is empty. */
  ghost predicate Sound(r: Rules) {
    && r.words(Baseline).word != r.words(Faulted).word && r.words(Baseline).word != r.words(Recovered).word
    && r.words(Faulted).word != r.words(Recovered).word
    && (forall s :: r.semver(s) ==> s != "")
  }

  /** Property by property, `f` is the document of `p`. */
  predicate Matches(r: Rules, p: Payload, f: map<Key, Json>)
    requires f.Keys == PayloadKeys(p.phase)
  {
    && f[SchemaVersion] == Str(p.schema) && f[ScenarioId] == Str(p.scenario)
    && f[PhaseKey] == Str(r.words(p.phase).word) && f[WorkloadKey] == WorkloadDoc(p.workload)
    && f[AthenaKey] == AthenaDoc(p.athena) && f[RuntimeStateKey] == RuntimeDoc(p.tier)
    && f[FindingsKey] == FindingsDoc(p.findings) && f[ArgusKey] == ArgusDoc(p.argus)
    && (if p.phase == Baseline then p.faultRun.None?
        else p.faultRun.Some? && f[FaultRunKey] == FaultRunDoc(p.faultRun.value))
  }

  lemma Assembled(phase: Phase, labelled: bool, workload: Option<Workload>, faultRun: Option<FaultRun>, athena: Option<Athena>,
                  tier: Option<Tier>, findings: Option<seq<Finding>>, argus: Option<Argus>, p: Payload)
    requires p.phase == phase
    ensures Assemble(phase, labelled, workload, faultRun, athena, tier, findings, argus) == Some(p)
       <==> labelled && p.schema == SCHEMA && p.scenario == SCENARIO
            && workload == Some(p.workload) && athena == Some(p.athena) && tier == Some(p.tier)
            && findings == Some(p.findings) && argus == Some(p.argus)
            && (if phase == Baseline then p.faultRun.None? else p.faultRun.Some? && faultRun == p.faultRun)
  {
  }

  lemma FieldsRead(r: Rules, p: Payload, f: map<Key, Json>)
    requires Sound(r) && f.Keys == PayloadKeys(p.phase) && f[PhaseKey] == Str(r.words(p.phase).word)
    ensures ParseFields(r, p.phase, f) == Some(p)
       <==> Matches(r, p, f) && Conforms(r, p) && |p.workload.version| <= MAX_VERSION
  {
    var phase := p.phase;
    var faultRun := if phase == Baseline then None else ParseFaultRun(r, phase, f[FaultRunKey]);
    Assembled(phase, f[SchemaVersion] == Str(SCHEMA) && f[ScenarioId] == Str(SCENARIO), ParseWorkload(r, f[WorkloadKey]),
              faultRun, ParseAthena(f[AthenaKey]), ParseRuntimeState(r, phase, f[RuntimeStateKey]),
              ParseFindings(r, phase, f[FindingsKey]), ParseArgus(r, phase, f[ArgusKey]), p);
    WorkloadReads(r, f[WorkloadKey], p.workload);
    AthenaReads(f[AthenaKey], p.athena);
    RuntimeReads(r, phase, f[RuntimeStateKey], p.tier);
    FindingsRead(r, phase, f[FindingsKey], p.findings);
    ArgusReads(r, phase, f[ArgusKey], p.argus);
    if phase != Baseline && p.faultRun.Some? { FaultRunReads(r, phase, f[FaultRunKey], p.faultRun.value); }
  }

  lemma MatchIsDocument(r: Rules, p: Payload, f: map<Key, Json>)
    requires f.Keys == PayloadKeys(p.phase) && Matches(r, p, f)
    ensures Object(f) == Document(r, p)
  {
    assert f == Document(r, p).fields;
  }

  lemma DocumentMatches(r: Rules, p: Payload)
    requires p.faultRun.None? <==> p.phase == Baseline
    ensures Document(r, p).fields.Keys == PayloadKeys(p.phase) && Matches(r, p, Document(r, p).fields)
  {
  }

  lemma PhaseReads(r: Rules, phase: Phase, j: Json)
    requires Sound(r)
    ensures ReadPhase(r, j) == Some(phase) <==> j == Str(r.words(phase).word)
  {
  }

  /** The parser accepts a JSON value as `p` exactly when it is the document of `p`, `p` meets every
      validator of the Python model but the digest check, and its version is not too long. */
  lemma ParserReadsDocuments(r: Rules, j: Json, p: Payload)
    requires Sound(r)
    ensures ParsePayload(r, j) == Some(p)
       <==> j == Document(r, p) && Conforms(r, p) && |p.workload.version| <= MAX_VERSION
  {
    if ParsePayload(r, j) == Some(p) { ParsedIsDocument(r, j, p); }
    if j == Document(r, p) && Conforms(r, p) && |p.workload.version| <= MAX_VERSION { DocumentIsParsed(r, p); }
  }

  lemma ParsedIsDocument(r: Rules, j: Json, p: Payload)
    requires Sound(r) && ParsePayload(r, j) == Some(p)
    ensures j == Document(r, p) && Conforms(r, p) && |p.workload.version| <= MAX_VERSION
  {
    PhaseReads(r, p.phase, j.fields[PhaseKey]);
    FieldsRead(r, p, j.fields);
    MatchIsDocument(r, p, j.fields);
  }

  lemma DocumentIsParsed(r: Rules, p: Payload)
    requires Sound(r) && Conforms(r, p) && |p.workload.version| <= MAX_VERSION
    ensures ParsePayload(r, Document(r, p)) == Some(p)
  {
    DocumentMatches(r, p);
    var f := Document(r, p).fields;
    PhaseReads(r, p.phase, f[PhaseKey]);
    FieldsRead(r, p, f);
  }

  /** Both sides have the same words and sentences for every phase. */
  lemma TermsAgree(phase: Phase)
    ensures BrowserWords(phase) == PythonWords(phase)
    ensures BrowserProse(phase) == PythonProse(phase)
  {
  }

  // ---------------------------------------------------------------- derivations

  datatype Radius = NoneActive | ContainedWebTier | Resolved

  datatype Impact = Impact(warned: bool, reduced: bool, attention: bool)

  /** `deriveBlastRadius`; `None` is its exception. */
  function BlastRadius(r: Rules, p: Payload): Option<Radius> {
    var t := p.tier;
    if p.phase == Baseline && p.faultRun.None? && t.service == r.words(Baseline).service
       && t.faulted == 0 && t.running == t.expected
    then Some(NoneActive)
    else if p.phase == Faulted && p.faultRun.Some? && p.faultRun.value.power == r.words(Faulted).power
       && t.service == r.words(Faulted).service && t.faulted == 1 && t.running >= 1 && t.running + t.faulted == t.expected
    then Some(ContainedWebTier)
    else if p.phase == Recovered && p.faultRun.Some? && p.faultRun.value.power == r.words(Recovered).power
       && t.service == r.words(Recovered).service && t.faulted == 0 && t.running == t.expected
    then Some(Resolved)
    else None
  }

  /** `deriveImpactLevel`. */
  function ImpactLevel(r: Rules, p: Payload): Option<Impact> {
    var service, faulted, risk := p.tier.service, p.tier.faulted, p.argus.risk;
    if service != r.words(Faulted).service && service != r.words(Baseline).service && service != r.words(Recovered).service
    then None
    else if faulted != 0 && faulted != 1 then None
    else if risk != r.words(Faulted).risk && risk != r.words(Baseline).risk then None
    else Some(Impact(service == r.words(Faulted).service, faulted == 1, risk == r.words(Faulted).risk))
  }

  function RadiusOf(phase: Phase): Radius {
    match phase
    case Baseline => NoneActive
    case Faulted => ContainedWebTier
    case Recovered => Resolved
  }

  /** The words of the three phases are told apart where the derivations look. */
  predicate Telling(r: Rules) {
    && r.words(Faulted).service != r.words(Baseline).service && r.words(Faulted).service != r.words(Recovered).service
    && r.words(Baseline).risk == r.words(Recovered).risk && r.words(Baseline).risk != r.words(Faulted).risk
  }

  /** On every document the parser accepts both derivations succeed, and the phase alone decides them. */
  lemma DerivationsFollowThePhase(r: Rules, j: Json)
    requires Sound(r) && Telling(r) && ParsePayload(r, j).Some?
    ensures var p := ParsePayload(r, j).value;
            && BlastRadius(r, p) == Some(RadiusOf(p.phase))
            && ImpactLevel(r, p) == Some(Impact(p.phase == Faulted, p.phase == Faulted, p.phase == Faulted))
  {
    ParserReadsDocuments(r, j, ParsePayload(r, j).value);
  }

  /** The words actually used are as the theorems above ask. */
  lemma BrowserWordsAreSound(prose: Phase -> Prose, semver: string -> bool)
    requires forall s :: semver(s) ==> s != ""
    ensures Sound(Rules(BrowserWords, prose, semver)) && Telling(Rules(BrowserWords, prose, semver))
  {
    WordLengths(Baseline);
    WordLengths(Faulted);
    WordLengths(Recovered);
  }

  lemma WordLengths(phase: Phase)
    ensures |BrowserWords(phase).word| == match phase case Baseline => 8 case Faulted => 7 case Recovered => 9
    ensures |BrowserWords(phase).service| == match phase case Baseline => 7 case Faulted => 19 case Recovered => 9
    ensures |BrowserWords(phase).risk| == if phase == Faulted then 7 else 6
    ensures phase != Faulted ==> BrowserWords(phase).risk == "normal"
  {
  }
}
