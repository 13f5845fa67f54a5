/** The projection of verified evidence into a presentation payload, and what the browser makes of it. */
module PresentationProjection {
  import opened Options
  import opened StableSort
  import opened PresentationContract
  import opened PresentationParser

  datatype Power = Running | Stopped | Deallocated | Unknown

  datatype Resource = Resource(id: string, kind: string, state: Power, digest: nat)
  datatype Evidence = ResourceEvidence(resource: Resource) | OtherEvidence

  /** `text` is the canonical text of a reference; references are equal exactly when their texts are. */
  datatype Reference = Item(digest: nat, text: string) | Gap(text: string)

  datatype SourceVerdict = Pass | Observation | Unclear

  datatype SourceFinding = SourceFinding(
    operational: bool, clause: string, riskAccepted: bool, manifestId: string, profileId: string,
    scopeManifest: string, scopeProfile: string, scopePath: string, verdict: SourceVerdict, refs: seq<Reference>)

  datatype Snapshot = Snapshot(
    id: string, refs: seq<Reference>, records: seq<Evidence>, collectedAt: int, expiresAt: int,
    artifact: string, semantic: string)

  datatype Action = Inject | Status | Reset

  datatype Receipt = Receipt(
    text: string, runId: string, action: Action, group: string, target: string, targetId: string,
    eligible: seq<string>, after: Power, startedAt: int, completedAt: int)

  datatype Publication = Publication(manifestId: string, version: string, profileId: string)

  datatype Input = Input(
    findings: seq<SourceFinding>, snapshot: Snapshot, publication: Publication, receipt: Receipt,
    phase: Phase, keyId: string)

  /** Case folding, `_resource_group_and_name` (`None` when it raises), the digits of an identifier's
      SHA-256, and the digest of a canonical document. */
  datatype Host = Host(
    fold: string -> string, place: string -> Option<(string, string)>,
    hex: (string, string) -> string, hash: Json -> string)

  // ---------------------------------------------------------------- the operational finding

  const CLAUSE := "web-service-operational-state"
  const SCOPE_PATH := "/constraints/web-service-operational-state"
  const WEB_TYPE := "microsoft.compute/virtualmachines"

  function Operationals(fs: seq<SourceFinding>): seq<SourceFinding> {
    if fs == [] then []
    else Operationals(fs[..|fs| - 1]) + if fs[|fs| - 1].operational then [fs[|fs| - 1]] else []
  }

  predicate ExactClause(f: SourceFinding) {
    && f.clause == CLAUSE && !f.riskAccepted && f.scopeManifest == f.manifestId && f.scopeProfile == f.profileId
    && f.scopePath == SCOPE_PATH
  }

  predicate Unique(refs: seq<Reference>) { forall i, j :: 0 <= i < j < |refs| ==> refs[i] != refs[j] }

  /** The resource records with a digest, in their order. */
  function WithDigest(records: seq<Evidence>, digest: nat): seq<Resource> {
    if records == [] then []
    else
      var last := records[|records| - 1];
      WithDigest(records[..|records| - 1], digest)
      + if last.ResourceEvidence? && last.resource.digest == digest then [last.resource] else []
  }

  /** The one virtual machine a reference cites. */
  function Cite(host: Host, snapshot: Snapshot, ref: Reference): Option<Resource> {
    if !ref.Item? || ref !in snapshot.refs || |WithDigest(snapshot.records, ref.digest)| != 1 then None
    else
      var record := WithDigest(snapshot.records, ref.digest)[0];
      if host.fold(record.kind) == WEB_TYPE then Some(record) else None
  }

  function Cited(host: Host, snapshot: Snapshot, refs: seq<Reference>): Option<seq<Resource>> {
    if refs == [] then Some([])
    else
      var front, last := Cited(host, snapshot, refs[..|refs| - 1]), Cite(host, snapshot, refs[|refs| - 1]);
      if front.None? || last.None? then None else Some(front.value + [last.value])
  }

  function ById(host: Host): (Resource, Resource) -> bool {
    (a: Resource, b: Resource) => TextLeq(host.fold(a.id), host.fold(b.id))
  }

  function Operational(host: Host, findings: seq<SourceFinding>, snapshot: Snapshot): Option<(SourceFinding, seq<Resource>)> {
    var found := Operationals(findings);
    if |found| != 1 || !ExactClause(found[0]) || !Unique(found[0].refs) then None
    else
      var cited := Cited(host, snapshot, found[0].refs);
      if cited.None? || |cited.value| < 2 then None else Some((found[0], Sort(ById(host), cited.value)))
  }

  function Group(groups: map<nat, seq<Resource>>, digest: nat): seq<Resource> {
    if digest in groups then groups[digest] else []
  }

  ghost predicate Grouped(groups: map<nat, seq<Resource>>, records: seq<Evidence>) {
    forall d: nat :: Group(groups, d) == WithDigest(records, d)
  }

  lemma OneMoreRecord(groups: map<nat, seq<Resource>>, front: seq<Evidence>, e: Evidence)
    requires Grouped(groups, front)
    ensures e.ResourceEvidence? ==>
              Grouped(groups[e.resource.digest := Group(groups, e.resource.digest) + [e.resource]], front + [e])
    ensures !e.ResourceEvidence? ==> Grouped(groups, front + [e])
  {
    assert (front + [e])[..|front|] == front;
    forall d: nat ensures WithDigest(front + [e], d)
                       == WithDigest(front, d) + if e.ResourceEvidence? && e.resource.digest == d then [e.resource] else []
    {
    }
  }

  method GroupByDigest(records: seq<Evidence>) returns (groups: map<nat, seq<Resource>>)
    ensures forall d: nat :: Group(groups, d) == WithDigest(records, d)
  {
    groups := map[];
    for i := 0 to |records|
      invariant Grouped(groups, records[..i])
    {
      assert records[..i + 1] == records[..i] + [records[i]];
      OneMoreRecord(groups, records[..i], records[i]);
      if records[i].ResourceEvidence? {
        var r := records[i].resource;
        groups := groups[r.digest := Group(groups, r.digest) + [r]];
      }
    }
    assert records[..|records|] == records;
  }

  lemma {:induction false} OneUncited(host: Host, snapshot: Snapshot, refs: seq<Reference>, i: nat)
    requires i < |refs| && Cite(host, snapshot, refs[i]).None?
    ensures Cited(host, snapshot, refs).None?
  {
    if i < |refs| - 1 { OneUncited(host, snapshot, refs[..|refs| - 1], i); }
  }

  /** The loop over the references: each is looked up among the records of its digest. */
  method CiteAll(host: Host, snapshot: Snapshot, refs: seq<Reference>) returns (r: Option<seq<Resource>>)
    ensures r == Cited(host, snapshot, refs)
  {
    var groups: map<nat, seq<Resource>> := GroupByDigest(snapshot.records);
    var cited: seq<Resource> := [];
    for i := 0 to |refs|
      invariant Cited(host, snapshot, refs[..i]) == Some(cited)
    {
      assert refs[..i + 1][..i] == refs[..i];
      var ref := refs[i];
      if ref.Item? { assert Group(groups, ref.digest) == WithDigest(snapshot.records, ref.digest); }
      if !ref.Item? || ref !in snapshot.refs || ref.digest !in groups || |groups[ref.digest]| != 1
         || host.fold(groups[ref.digest][0].kind) != WEB_TYPE {
        OneUncited(host, snapshot, refs, i);
        return None;
      }
      cited := cited + [groups[ref.digest][0]];
    }
    assert refs[..|refs|] == refs;
    return Some(cited);
  }

  /** `_operational_finding`. */
  method OperationalFinding(host: Host, findings: seq<SourceFinding>, snapshot: Snapshot)
    returns (r: Option<(SourceFinding, seq<Resource>)>)
    ensures r == Operational(host, findings, snapshot)
  {
    var found := Operationals(findings);
    if |found| != 1 || !ExactClause(found[0]) || !Unique(found[0].refs) { return None; }
    var cited := CiteAll(host, snapshot, found[0].refs);
    if cited.None? || |cited.value| < 2 { return None; }
    return Some((found[0], Sort(ById(host), cited.value)));
  }

  // ---------------------------------------------------------------- receipt and phase

  /** The records under their folded names, and the folded resource groups. */
  function Placed(host: Host, rs: seq<Resource>): Option<(map<string, Resource>, set<string>)> {
    if rs == [] then Some((map[], {}))
    else
      var front, at := Placed(host, rs[..|rs| - 1]), host.place(rs[|rs| - 1].id);
      if front.None? || at.None? || host.fold(at.value.1) in front.value.0 then None
      else Some((front.value.0[host.fold(at.value.1) := rs[|rs| - 1]], front.value.1 + {host.fold(at.value.0)}))
  }

  function Count(state: Power -> bool, rs: seq<Resource>): nat {
    if rs == [] then 0 else Count(state, rs[..|rs| - 1]) + if state(rs[|rs| - 1].state) then 1 else 0
  }

  predicate Down(p: Power) { p == Stopped || p == Deallocated }

  function Up(): Power -> bool { p => p == Running }

  predicate Timely(snapshot: Snapshot, receipt: Receipt) {
    && receipt.completedAt <= snapshot.collectedAt
    && receipt.startedAt >= snapshot.collectedAt - (snapshot.expiresAt - snapshot.collectedAt)
  }

  predicate PhaseAgrees(receipt: Receipt, phase: Phase, verdict: SourceVerdict, target: Resource, up: nat, down: nat, all: nat) {
    match phase
    case Baseline => receipt.action == Status && receipt.after == Running && up == all && down == 0 && verdict == Pass
    case Faulted =>
      && receipt.action == Inject && Down(receipt.after) && Down(target.state) && receipt.after == target.state
      && up >= 1 && down == 1 && verdict == Observation
    case Recovered =>
      && receipt.action == Reset && receipt.after == Running && target.state == Running && up == all && down == 0
      && verdict == Pass
  }

  /** The record the receipt was taken for, when names, groups and target all agree. */
  function Target(host: Host, receipt: Receipt, placed: Option<(map<string, Resource>, set<string>)>): Option<Resource> {
    if placed.None? || placed.value.1 != {host.fold(receipt.group)}
       || placed.value.0.Keys != (set n | n in receipt.eligible :: host.fold(n))
       || host.fold(receipt.target) !in placed.value.0
    then None
    else
      var target := placed.value.0[host.fold(receipt.target)];
      if host.fold(target.id) == host.fold(receipt.targetId) then Some(target) else None
  }

  function Agreed(host: Host, input: Input, finding: SourceFinding, rs: seq<Resource>): Option<(nat, nat)> {
    AgreedOn(input, finding, rs, Target(host, input.receipt, Placed(host, rs)))
  }

  /** The counts of running and of stopped machines, if the receipt and the phase agree with them. */
  function AgreedOn(input: Input, finding: SourceFinding, rs: seq<Resource>, target: Option<Resource>): Option<(nat, nat)> {
    var up, down := Count(Up(), rs), Count(Down, rs);
    if Timely(input.snapshot, input.receipt) && target.Some? && up + down == |rs|
       && PhaseAgrees(input.receipt, input.phase, finding.verdict, target.value, up, down, |rs|)
    then Some((up, down)) else None
  }

  lemma {:induction false} OneUnplaced(host: Host, rs: seq<Resource>, i: nat)
    requires i <= |rs| && Placed(host, rs[..i]).None?
    ensures Placed(host, rs).None?
    decreases |rs|
  {
    if i == |rs| {
      assert rs[..i] == rs;
    } else {
      assert rs[..|rs| - 1][..i] == rs[..i];
      OneUnplaced(host, rs[..|rs| - 1], i);
    }
  }

  /** The loop of `_validate_receipt_and_phase`. */
  method PlaceRecords(host: Host, rs: seq<Resource>) returns (r: Option<(map<string, Resource>, set<string>)>)
    ensures r == Placed(host, rs)
  {
    var names: map<string, Resource>, groups: set<string> := map[], {};
    for i := 0 to |rs|
      invariant Placed(host, rs[..i]) == Some((names, groups))
    {
      assert rs[..i + 1][..i] == rs[..i];
      var at := host.place(rs[i].id);
      if at.None? || host.fold(at.value.1) in names {
        OneUnplaced(host, rs, i + 1);
        return None;
      }
      names := names[host.fold(at.value.1) := rs[i]];
      groups := groups + {host.fold(at.value.0)};
    }
    assert rs[..|rs|] == rs;
    return Some((names, groups));
  }

  // ---------------------------------------------------------------- the payload

  datatype IdKind = EvidenceId | RunId | VmId | ManifestKind | ProfileKind | GroupId | SnapshotKind | ClauseKind

  function KindText(kind: IdKind): string {
    match kind
    case EvidenceId => "evidence" case RunId => "fault-run" case VmId => "vm" case ManifestKind => "manifest"
    case ProfileKind => "profile" case GroupId => "rg" case SnapshotKind => "snapshot" case ClauseKind => "clause"
  }

  /** `_synthetic_identifier`. */
  function Identifier(host: Host, kind: IdKind, value: string): string {
    ID_START + KindText(kind) + "-" + host.hex(KindText(kind), value)
  }

  function RefIds(host: Host, refs: seq<Reference>): seq<string> {
    seq(|refs|, i requires 0 <= i < |refs| => Identifier(host, EvidenceId, refs[i].text))
  }

  function EvidenceIds(host: Host, phase: Phase, refs: seq<Reference>, receipt: Receipt): seq<string> {
    SortedSet(RefIds(host, refs) + if phase == Baseline then [] else [Identifier(host, EvidenceId, receipt.text)])
  }

  const ZERO_DIGEST := "sha256:0000000000000000000000000000000000000000000000000000000000000000"

  /** Everything but the result digest. */
  function Draft(r: Rules, host: Host, input: Input, finding: SourceFinding, up: nat, down: nat, all: nat): Payload {
    var phase, receipt := input.phase, input.receipt;
    Payload(SCHEMA, SCENARIO, phase,
      Workload(WORKLOAD_NAME, Identifier(host, ManifestKind, input.publication.manifestId), input.publication.version,
               Identifier(host, ProfileKind, input.publication.profileId),
               Identifier(host, GroupId, host.fold(receipt.group))),
      if phase == Baseline then None
      else Some(FaultRun(Identifier(host, RunId, receipt.runId), Identifier(host, VmId, host.fold(receipt.targetId)),
                         r.words(phase).power)),
      Athena(Identifier(host, SnapshotKind, input.snapshot.id), input.snapshot.artifact, input.snapshot.semantic,
             ZERO_DIGEST, ALGORITHM, input.keyId),
      Tier(all, up, down, r.words(phase).service),
      [Finding(Identifier(host, ClauseKind, finding.clause), r.words(phase).verdict, r.prose(phase).summary,
               EvidenceIds(host, phase, finding.refs, receipt))],
      Argus(r.words(phase).risk, r.prose(phase).issue, r.prose(phase).action))
  }

  function WithResult(p: Payload, digest: string): Payload { p.(athena := p.athena.(result := digest)) }

  function Finished(r: Rules, host: Host, draft: Payload): Payload {
    WithResult(draft, host.hash(Preimage(r, draft)))
  }

  /** `project_argus_presentation`; `None` is its validation error. */
  function Project(r: Rules, host: Host, input: Input): Option<Payload> {
    var source := Operational(host, input.findings, input.snapshot);
    if source.None? then None
    else
      var (finding, rs) := source.value;
      var agreed := Agreed(host, input, finding, rs);
      if agreed.None? then None
      else
        var p := Finished(r, host, Draft(r, host, input, finding, agreed.value.0, agreed.value.1, |rs|));
        if ValidPayload(r, host.hash, p) then Some(p) else None
  }

  method ProjectArgusPresentation(r: Rules, host: Host, input: Input) returns (p: Option<Payload>)
    ensures p == Project(r, host, input)
  {
    var source := OperationalFinding(host, input.findings, input.snapshot);
    if source.None? { return None; }
    var finding, rs := source.value.0, source.value.1;
    var placed := PlaceRecords(host, rs);
    var agreed := AgreedOn(input, finding, rs, Target(host, input.receipt, placed));
    if agreed.None? { return None; }
    var payload := Draft(r, host, input, finding, agreed.value.0, agreed.value.1, |rs|);
    var digest := host.hash(Preimage(r, payload));
    payload := WithResult(payload, digest);
    return if ValidPayload(r, host.hash, payload) then Some(payload) else None;
  }

  // ---------------------------------------------------------------- when a payload is emitted

  ghost predicate Lawful(host: Host) {
    && (forall kind, value :: |host.hex(kind, value)| == 64 && All(Hex, host.hex(kind, value)))
    && (forall j :: DigestText(host.hash(j)))
  }

  lemma KindFits(kind: IdKind)
    ensures var k := KindText(kind); 1 <= |k| <= 9 && LowerAlnum(k[0]) && All(InId, k)
  {
  }

  lemma IdentifierIsSynthetic(host: Host, kind: IdKind, value: string)
    requires Lawful(host)
    ensures SyntheticId(Identifier(host, kind, value))
  {
    KindFits(kind);
    Spelled(ID_START, KindText(kind), host.hex(KindText(kind), value));
  }

  lemma Spelled(start: string, kind: string, hex: string)
    requires 1 <= |kind| <= 9 && LowerAlnum(kind[0]) && All(InId, kind) && |hex| == 64 && All(Hex, hex)
    ensures Patterned(start, InId, 126, start + kind + "-" + hex)
  {
    var s := start + kind + "-" + hex;
    assert s == start + (kind + "-" + hex);
    assert s[|start| + 1..] == kind[1..] + "-" + hex;
  }

  lemma PreimageIgnoresResult(r: Rules, p: Payload, digest: string)
    ensures Preimage(r, WithResult(p, digest)) == Preimage(r, p)
  {
    assert AthenaDoc(WithResult(p, digest).athena).fields - {ResultDigest} == AthenaDoc(p.athena).fields - {ResultDigest};
    assert Document(r, WithResult(p, digest)).fields == Document(r, p).fields[AthenaKey := AthenaDoc(WithResult(p, digest).athena)];
  }

  lemma EvidenceFits(host: Host, phase: Phase, refs: seq<Reference>, receipt: Receipt)
    requires Lawful(host) && refs != []
    ensures var ids := EvidenceIds(host, phase, refs, receipt);
            && (RefsOk(ids) <==> |ids| <= 100)
            && |ids| <= |refs| + if phase == Baseline then 0 else 1
  {
    var all := RefIds(host, refs) + if phase == Baseline then [] else [Identifier(host, EvidenceId, receipt.text)];
    SortedSetIsSortedSet(all);
    forall s <- all ensures SyntheticId(s) {
      if s in RefIds(host, refs) {
        var i :| 0 <= i < |refs| && RefIds(host, refs)[i] == s;
        IdentifierIsSynthetic(host, EvidenceId, refs[i].text);
      } else {
        IdentifierIsSynthetic(host, EvidenceId, receipt.text);
      }
    }
  }

  /** What the source may still get wrong once finding, receipt and phase agree. */
  predicate Presentable(r: Rules, host: Host, input: Input, finding: SourceFinding, all: nat) {
    && all <= 100 && |EvidenceIds(host, input.phase, finding.refs, input.receipt)| <= 100
    && r.semver(input.publication.version) && SyntheticKey(input.keyId)
    && DigestText(input.snapshot.artifact) && DigestText(input.snapshot.semantic)
  }

  lemma {:induction false} CitedLength(host: Host, snapshot: Snapshot, refs: seq<Reference>)
    requires Cited(host, snapshot, refs).Some?
    ensures |Cited(host, snapshot, refs).value| == |refs|
  {
    if refs != [] { CitedLength(host, snapshot, refs[..|refs| - 1]); }
  }

  lemma OperationalSize(host: Host, findings: seq<SourceFinding>, snapshot: Snapshot)
    requires Operational(host, findings, snapshot).Some?
    ensures var (finding, rs) := Operational(host, findings, snapshot).value; |rs| == |finding.refs| >= 2
  {
    var cited := Cited(host, snapshot, Operationals(findings)[0].refs).value;
    CitedLength(host, snapshot, Operationals(findings)[0].refs);
    InsertedLength(ById(host), cited);
  }

  lemma {:induction false} InsertedLength<A(!new)>(leq: (A, A) -> bool, s: seq<A>)
    ensures |Sort(leq, s)| == |s|
  {
    if s != [] {
      InsertedLength(leq, s[1..]);
      InsertAdds(leq, s[0], Sort(leq, s[1..]));
      assert |multiset(Sort(leq, s))| == |s|;
    }
  }

  lemma AgreedCounts(host: Host, input: Input, finding: SourceFinding, rs: seq<Resource>)
    requires Agreed(host, input, finding, rs).Some?
    ensures var (up, down) := Agreed(host, input, finding, rs).value;
            && up + down == |rs|
            && (if input.phase == Faulted then down == 1 && up >= 1 else down == 0 && up == |rs|)
  {
  }

  lemma DraftConforms(r: Rules, host: Host, input: Input, finding: SourceFinding, up: nat, down: nat, all: nat, digest: string)
    requires Lawful(host) && DigestText(digest) && finding.refs != [] && 2 <= all
    requires up + down == all && (if input.phase == Faulted then down == 1 && up >= 1 else down == 0 && up == all)
    ensures Conforms(r, WithResult(Draft(r, host, input, finding, up, down, all), digest))
       <==> Presentable(r, host, input, finding, all)
  {
    var receipt := input.receipt;
    IdentifierIsSynthetic(host, ManifestKind, input.publication.manifestId);
    IdentifierIsSynthetic(host, ProfileKind, input.publication.profileId);
    IdentifierIsSynthetic(host, GroupId, host.fold(receipt.group));
    IdentifierIsSynthetic(host, RunId, receipt.runId);
    IdentifierIsSynthetic(host, VmId, host.fold(receipt.targetId));
    IdentifierIsSynthetic(host, SnapshotKind, input.snapshot.id);
    IdentifierIsSynthetic(host, ClauseKind, finding.clause);
    EvidenceFits(host, input.phase, finding.refs, receipt);
    var p := WithResult(Draft(r, host, input, finding, up, down, all), digest);
    OneFinding(r, p.phase, p.findings[0]);
  }

  lemma OneFinding(r: Rules, phase: Phase, f: Finding)
    ensures FindingsOk(r, phase, [f]) <==> FindingOk(r, phase, f)
  {
    if FindingsOk(r, phase, [f]) { assert f in [f]; }
  }

  /** Once finding, receipt and phase agree, a payload is emitted exactly when there are at most 100
      machines and 100 evidence identifiers and the remaining texts are well formed. */
  lemma EmittedExactly(r: Rules, host: Host, input: Input)
    requires Lawful(host) && Operational(host, input.findings, input.snapshot).Some?
    requires var (finding, rs) := Operational(host, input.findings, input.snapshot).value;
             Agreed(host, input, finding, rs).Some?
    ensures var (finding, rs) := Operational(host, input.findings, input.snapshot).value;
            Project(r, host, input).Some? <==> Presentable(r, host, input, finding, |rs|)
  {
    var (finding, rs) := Operational(host, input.findings, input.snapshot).value;
    var (up, down) := Agreed(host, input, finding, rs).value;
    OperationalSize(host, input.findings, input.snapshot);
    AgreedCounts(host, input, finding, rs);
    var draft := Draft(r, host, input, finding, up, down, |rs|);
    PreimageIgnoresResult(r, draft, host.hash(Preimage(r, draft)));
    DraftConforms(r, host, input, finding, up, down, |rs|, host.hash(Preimage(r, draft)));
  }

  /** Ninety-nine cited machines always leave room for the receipt. */
  lemma NinetyNineFit(host: Host, input: Input)
    requires Lawful(host) && Operational(host, input.findings, input.snapshot).Some?
    requires |Operational(host, input.findings, input.snapshot).value.0.refs| <= 99
    ensures var (finding, rs) := Operational(host, input.findings, input.snapshot).value;
            |rs| <= 100 && |EvidenceIds(host, input.phase, finding.refs, input.receipt)| <= 100
  {
    OperationalSize(host, input.findings, input.snapshot);
    EvidenceFits(host, input.phase, Operational(host, input.findings, input.snapshot).value.0.refs, input.receipt);
  }

  // ---------------------------------------------------------------- producer and consumer

  /** The browser writes the same words and sentences as the producer. */
  ghost predicate SameTexts(producer: Rules, browser: Rules) {
    && producer.semver == browser.semver
    && (forall phase :: producer.words(phase) == browser.words(phase) && producer.prose(phase) == browser.prose(phase))
  }

  lemma SameJudgement(a: Rules, b: Rules, p: Payload)
    requires SameTexts(a, b)
    ensures Document(a, p) == Document(b, p) && (Conforms(a, p) <==> Conforms(b, p))
  {
    assert a.words(p.phase) == b.words(p.phase) && a.prose(p.phase) == b.prose(p.phase);
    if forall f <- p.findings :: FindingOk(a, p.phase, f) {
      forall f <- p.findings ensures FindingOk(b, p.phase, f) { assert FindingOk(a, p.phase, f); }
    }
    if forall f <- p.findings :: FindingOk(b, p.phase, f) {
      forall f <- p.findings ensures FindingOk(a, p.phase, f) { assert FindingOk(b, p.phase, f); }
    }
  }

  lemma SameVersion(r: Rules, p: Payload, q: Payload)
    requires Document(r, p) == Document(r, q)
    ensures p.workload.version == q.workload.version
  {
    var f := Document(r, p).fields;
    assert f[WorkloadKey] == WorkloadDoc(p.workload) == WorkloadDoc(q.workload);
    assert WorkloadDoc(p.workload).fields[ManifestVersion] == Str(p.workload.version);
    assert WorkloadDoc(q.workload).fields[ManifestVersion] == Str(q.workload.version);
  }

  /** The browser reads an emitted payload back as it was written, unless its manifest version has
      more than 128 characters; then it refuses the document. */
  lemma EmittedIsRead(producer: Rules, browser: Rules, host: Host, input: Input)
    requires SameTexts(producer, browser) && Sound(browser) && Project(producer, host, input).Some?
    ensures var p := Project(producer, host, input).value;
            ParsePayload(browser, Document(producer, p))
              == if |input.publication.version| <= MAX_VERSION then Some(p) else None
  {
    var p := Project(producer, host, input).value;
    SameJudgement(producer, browser, p);
    ParserReadsDocuments(browser, Document(producer, p), p);
    var read := ParsePayload(browser, Document(producer, p));
    if read.Some? {
      ParserReadsDocuments(browser, Document(producer, p), read.value);
      SameVersion(browser, p, read.value);
    }
  }

  /** With the words both programs really use: what Python emits, the browser reads, and derives from it
      what the phase says. */
  lemma EmittedIsDerived(semver: string -> bool, host: Host, input: Input)
    requires forall s :: semver(s) ==> s != ""
    requires |input.publication.version| <= MAX_VERSION
    requires Project(Rules(PythonWords, PythonProse, semver), host, input).Some?
    ensures var producer, browser := Rules(PythonWords, PythonProse, semver), Rules(BrowserWords, BrowserProse, semver);
            var p := Project(producer, host, input).value;
            && ParsePayload(browser, Document(producer, p)) == Some(p)
            && BlastRadius(browser, p) == Some(RadiusOf(input.phase))
  {
    var producer, browser := Rules(PythonWords, PythonProse, semver), Rules(BrowserWords, BrowserProse, semver);
    forall phase ensures PythonWords(phase) == BrowserWords(phase) && PythonProse(phase) == BrowserProse(phase) {
      TermsAgree(phase);
    }
    BrowserWordsAreSound(BrowserProse, semver);
    EmittedIsRead(producer, browser, host, input);
    DerivationsFollowThePhase(browser, Document(producer, Project(producer, host, input).value));
  }

  // ---------------------------------------------------------------- the version bound is only the browser's

  predicate Digit(c: char) { '0' <= c <= '9' }

  predicate Numeral(s: string) { s == "0" || (s != "" && Digit(s[0]) && s[0] != '0' && All(Digit, s)) }

  /** Three numbers: the versions a publication may carry, all of which `semver` allows. */
  predicate ThreeNumbers(major: string, minor: string, patch: string, s: string) {
    Numeral(major) && Numeral(minor) && Numeral(patch) && s == major + "." + minor + "." + patch
  }

  function LongVersion(): string { seq(125, i => '1') + "." + "0" + "." + "0" }

  lemma LongVersionIsAVersion()
    ensures ThreeNumbers(seq(125, i => '1'), "0", "0", LongVersion()) && |LongVersion()| == 129
  {
  }

  /** Give any emitted payload's source a 129-character version: it is still emitted, but not read. */
  lemma LongVersionsAreRefused(producer: Rules, browser: Rules, host: Host, input: Input)
    requires Lawful(host) && SameTexts(producer, browser) && Sound(browser)
    requires forall a, b, c, s :: ThreeNumbers(a, b, c, s) ==> producer.semver(s)
    requires Project(producer, host, input).Some?
    ensures var longer := input.(publication := input.publication.(version := LongVersion()));
            && Project(producer, host, longer).Some?
            && ParsePayload(browser, Document(producer, Project(producer, host, longer).value)).None?
  {
    var longer := input.(publication := input.publication.(version := LongVersion()));
    LongVersionIsAVersion();
    EmittedExactly(producer, host, input);
    EmittedExactly(producer, host, longer);
    EmittedIsRead(producer, browser, host, longer);
  }

  // ---------------------------------------------------------------- the fault is the target's

  lemma {:induction false} PlacedHolds(host: Host, rs: seq<Resource>, name: string)
    requires Placed(host, rs).Some? && name in Placed(host, rs).value.0
    ensures Placed(host, rs).value.0[name] in rs
  {
    if rs != [] {
      var front := rs[..|rs| - 1];
      if name in Placed(host, front).value.0 { PlacedHolds(host, front, name); }
    }
  }

  lemma {:induction false} CountsAt(state: Power -> bool, rs: seq<Resource>, i: nat)
    requires i < |rs| && state(rs[i].state)
    ensures Count(state, rs) >= 1
  {
    if i < |rs| - 1 { CountsAt(state, rs[..|rs| - 1], i); }
  }

  lemma {:induction false} OnlyOneCounts(state: Power -> bool, rs: seq<Resource>, i: nat, j: nat)
    requires Count(state, rs) == 1 && i < j < |rs| && state(rs[i].state)
    ensures !state(rs[j].state)
  {
    var front := rs[..|rs| - 1];
    CountsAt(state, front, i);
    if j < |rs| - 1 { OnlyOneCounts(state, front, i, j); }
  }

  lemma {:induction false} AllCount(rs: seq<Resource>)
    ensures Count(Up(), rs) + Count(Down, rs) <= |rs|
    ensures Count(Up(), rs) + Count(Down, rs) == |rs| ==> forall r <- rs :: r.state == Running || Down(r.state)
  {
    if rs != [] { AllCount(rs[..|rs| - 1]); }
  }

  /** In a faulted presentation exactly one cited machine is not running, and it is the one the
      receipt was taken for. */
  lemma FaultIsTheTarget(host: Host, input: Input, finding: SourceFinding, rs: seq<Resource>) returns (k: nat)
    requires input.phase == Faulted && Agreed(host, input, finding, rs).Some?
    ensures k < |rs| && host.fold(rs[k].id) == host.fold(input.receipt.targetId) && Down(rs[k].state)
    ensures rs[k].state == input.receipt.after
    ensures forall i :: 0 <= i < |rs| && i != k ==> rs[i].state == Running
  {
    var target := Target(host, input.receipt, Placed(host, rs)).value;
    PlacedHolds(host, rs, host.fold(input.receipt.target));
    k :| 0 <= k < |rs| && rs[k] == target;
    AllCount(rs);
    forall i | 0 <= i < |rs| && i != k ensures rs[i].state == Running {
      assert rs[i] in rs;
      if Down(rs[i].state) {
        if i < k { OnlyOneCounts(Down, rs, i, k); } else { OnlyOneCounts(Down, rs, k, i); }
      }
    }
  }
}
