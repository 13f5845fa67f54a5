/** Coverage of scheduled queries: which executions a coverage record may list, what the listed
    executions cover, and that every execution is listed exactly once. Times are milliseconds;
    windows and frequencies are whole seconds. */
module MonitoringCoverage {

  import opened Options
  import StableSort

  datatype Family = Guest | NetworkFlow | ConnectionMonitor | EndpointHealth | PlatformHealth
  datatype Status = Complete | Partial | UnavailableData | Truncated

  /** What a record or a coverage is about. Heartbeat and VM connection records have no endpoint
      test, and their coverage is not compared on it. */
  datatype Scope = Scope(
    resources: set<string>, path: Option<string>, direction: Option<string>, fiveTuple: Option<nat>,
    test: Option<(string, nat)>)

  /** One scheduled query execution. `digest` stands for the sha256 value that binds the rest. */
  datatype Execution = Execution(
    sourceId: string, controlId: string, family: Family, digest: nat, query: nat, target: string,
    start: int, end: int, window: nat, frequency: nat, scope: Scope)

  datatype Record = Query(execution: Execution) | HealthEvent(sourceId: string) | ChangeEvent(sourceId: string)

  datatype Coverage = Coverage(
    sourceId: string, controlId: string, family: Family, start: int, end: int,
    query: Option<nat>, target: Option<string>, window: Option<nat>, frequency: Option<nat>,
    executions: seq<nat>, status: Status, scope: Scope)

  datatype Signal =
    | LogQuery(family: Family, query: nat, target: string, window: nat, frequency: nat)
    | ResourceHealth(maximumAge: nat)
    | ActivityLog

  type Controls = map<string, Signal>

  // ---------------------------------------------------------------- validators of the record types

  predicate ExecutionShape(e: Execution) {
    && e.start <= e.end && 60 <= e.window <= 86400 && 60 <= e.frequency <= 3600
    && e.frequency <= e.window && e.window % e.frequency == 0
  }

  predicate Ascending(digests: seq<nat>) {
    forall i, j :: 0 <= i < j < |digests| ==> digests[i] < digests[j]
  }

  predicate CoverageShape(c: Coverage) {
    && c.start <= c.end
    && if c.family == PlatformHealth then
         c.query.None? && c.target.None? && c.window.None? && c.frequency.None? && c.executions == []
       else
         && c.query.Some? && c.target.Some? && c.window.Some? && c.frequency.Some?
         && (c.status == Complete ==> c.executions != [])
         && (c.status == UnavailableData ==> c.executions == [])
         && Ascending(c.executions)
  }

  /** `_require_log_query`: the execution is the reviewed one, as long as the reviewed window, and
      fresh on both clocks. */
  predicate AcceptedExecution(e: Execution, controls: Controls, collectedAt: int, trustedAsOf: int) {
    && e.controlId in controls
    && match controls[e.controlId]
       case LogQuery(family, query, target, window, frequency) =>
         && e.family == family && e.query == query && e.target == target
         && e.window == window && e.frequency == frequency
         && e.end - e.start == 1000 * window
         && e.end <= collectedAt && e.end <= trustedAsOf
         && collectedAt - e.end <= 1000 * (window + frequency)
         && trustedAsOf - e.end <= 1000 * (window + frequency)
       case _ => false
  }

  predicate ScopeMatches(e: Execution, c: Coverage) {
    match e.family
    case Guest => c.scope.(test := None) == e.scope.(test := None)
    case EndpointHealth => c.scope.(test := None) == e.scope.(test := None)
    case ConnectionMonitor => c.scope == e.scope
    case NetworkFlow => c.scope == e.scope.(test := None)
    case PlatformHealth => false
  }

  predicate SameQuery(e: Execution, c: Coverage) {
    && e.controlId == c.controlId && c.query == Some(e.query) && c.target == Some(e.target)
    && c.window == Some(e.window) && c.frequency == Some(e.frequency) && ScopeMatches(e, c)
  }

  // ---------------------------------------------------------------- schedule order

  predicate Before(a: Execution, b: Execution) {
    a.start < b.start || (a.start == b.start && (a.end < b.end || (a.end == b.end && a.digest <= b.digest)))
  }

  /** `sorted` by start, end and digest. */
  function Sorted(es: seq<Execution>): seq<Execution> { StableSort.Sort(Before, es) }

  lemma SortedIsSorted(es: seq<Execution>)
    ensures StableSort.Sorted(Before, Sorted(es)) && multiset(Sorted(es)) == multiset(es) && |Sorted(es)| == |es|
  {
    StableSort.SortSorts(Before, es);
  }

  /** Consecutive executions start and end exactly one frequency apart. */
  predicate Scheduled(es: seq<Execution>, frequency: nat) {
    forall i :: 0 < i < |es| ==>
      es[i].start - es[i - 1].start == 1000 * frequency && es[i].end - es[i - 1].end == 1000 * frequency
  }

  // ---------------------------------------------------------------- binding a coverage

  type Executions = map<nat, Execution>

  function Listed(c: Coverage, byDigest: Executions): seq<Execution>
    requires forall d <- c.executions :: d in byDigest
  {
    seq(|c.executions|, i requires 0 <= i < |c.executions| => byDigest[c.executions[i]])
  }

  /** `_validate_coverage_query_binding`. */
  predicate Bound(c: Coverage, signal: Signal, byDigest: Executions, collectedAt: int, trustedAsOf: int) {
    match signal
    case ActivityLog => false
    case ResourceHealth(age) =>
      && c.end <= collectedAt && c.end <= trustedAsOf
      && collectedAt - c.start <= 1000 * age && collectedAt - c.end <= 1000 * age
      && trustedAsOf - c.start <= 1000 * age && trustedAsOf - c.end <= 1000 * age
    case LogQuery(family, query, target, window, frequency) =>
      && c.query == Some(query) && c.target == Some(target)
      && c.window == Some(window) && c.frequency == Some(frequency)
      && c.end <= collectedAt && c.end <= trustedAsOf && c.start < c.end
      && collectedAt - c.end <= 1000 * (window + frequency)
      && trustedAsOf - c.end <= 1000 * (window + frequency)
      && if c.status == UnavailableData then c.end - c.start == 1000 * window
         else
           && (forall d <- c.executions :: d in byDigest)
           && (forall d <- c.executions :: SameQuery(byDigest[d], c))
           && var ordered := Sorted(Listed(c, byDigest));
              ordered != [] && ordered[0].start == c.start && ordered[|ordered| - 1].end == c.end
              && Scheduled(ordered, frequency)
  }

  /** `_coverage`: the family must be the one of the published control. */
  predicate FamilyMatches(c: Coverage, signal: Signal) {
    match signal
    case ActivityLog => false
    case ResourceHealth(_) => c.family == PlatformHealth
    case LogQuery(family, _, _, _, _) => c.family == family
  }

  // ---------------------------------------------------------------- a whole batch

  /** How often `d` is listed, over all coverages. */
  function Listings(cs: seq<Coverage>, d: nat): nat {
    if cs == [] then 0 else Listings(cs[..|cs| - 1], d) + multiset(cs[|cs| - 1].executions)[d]
  }

  function Queries(rs: seq<Record>): seq<Execution> {
    if rs == [] then []
    else Queries(rs[..|rs| - 1]) + (if rs[|rs| - 1].Query? then [rs[|rs| - 1].execution] else [])
  }

  function ByDigest(es: seq<Execution>): Executions {
    if es == [] then map[] else ByDigest(es[..|es| - 1])[es[|es| - 1].digest := es[|es| - 1]]
  }

  predicate DistinctDigests(es: seq<Execution>) {
    forall i, j :: 0 <= i < j < |es| ==> es[i].digest != es[j].digest
  }

  /** What the types of the batch guarantee before `prepare` looks at it. */
  predicate BatchShape(rs: seq<Record>, cs: seq<Coverage>, controls: Controls) {
    && (forall e <- Queries(rs) :: ExecutionShape(e))
    && (forall c <- cs :: CoverageShape(c))
    && (forall id <- controls :: controls[id].LogQuery? ==> controls[id].family != PlatformHealth)
  }

  ghost predicate AllAccepted(es: seq<Execution>, controls: Controls, collectedAt: int, trustedAsOf: int) {
    forall e <- es :: AcceptedExecution(e, controls, collectedAt, trustedAsOf)
  }

  /** The part of `prepare` that accepts or rejects the query executions and their coverage. */
  ghost predicate Accepted(rs: seq<Record>, cs: seq<Coverage>, controls: Controls, collectedAt: int, trustedAsOf: int) {
    && AllAccepted(Queries(rs), controls, collectedAt, trustedAsOf)
    && DistinctDigests(Queries(rs))
    && (forall c <- cs :: c.controlId in controls)
    && (forall c <- cs :: Bound(c, controls[c.controlId], ByDigest(Queries(rs)), collectedAt, trustedAsOf))
    && (forall e <- Queries(rs) :: Listings(cs, e.digest) == 1)
    && (forall c <- cs :: FamilyMatches(c, controls[c.controlId]))
  }

  lemma {:induction false} ByDigestDomain(es: seq<Execution>, d: nat)
    ensures d in ByDigest(es) <==> exists i :: 0 <= i < |es| && es[i].digest == d
  {
    if es != [] {
      var front, last := es[..|es| - 1], es[|es| - 1];
      ByDigestDomain(front, d);
      assert forall i :: 0 <= i < |front| ==> es[i] == front[i];
      if last.digest == d { assert es[|es| - 1].digest == d; }
    }
  }

  lemma {:induction false} ByDigestValue(es: seq<Execution>, d: nat)
    requires d in ByDigest(es)
    ensures ByDigest(es)[d] in es && ByDigest(es)[d].digest == d
  {
    var front, last := es[..|es| - 1], es[|es| - 1];
    if last.digest != d { ByDigestValue(front, d); }
  }

  lemma {:induction false} ByDigestSize(es: seq<Execution>)
    ensures |ByDigest(es)| <= |es|
  {
    if es != [] {
      var front, last := es[..|es| - 1], es[|es| - 1];
      ByDigestSize(front);
      assert ByDigest(es).Keys == ByDigest(front).Keys + {last.digest};
    }
  }

  /** The index is as large as the record list exactly when no digest repeats. */
  lemma {:induction false} FullIndexIsDistinct(es: seq<Execution>)
    ensures |ByDigest(es)| == |es| <==> DistinctDigests(es)
  {
    if es != [] {
      var front, last := es[..|es| - 1], es[|es| - 1];
      FullIndexIsDistinct(front);
      ByDigestSize(front);
      ByDigestDomain(front, last.digest);
      DistinctFront(es);
      assert ByDigest(es).Keys == ByDigest(front).Keys + {last.digest};
      assert Unused(front, last.digest) <==> last.digest !in ByDigest(front);
      if last.digest in ByDigest(front) {
        assert ByDigest(es).Keys == ByDigest(front).Keys;
      } else {
        assert |ByDigest(es).Keys| == |ByDigest(front).Keys| + 1;
      }
    }
  }

  predicate Unused(es: seq<Execution>, d: nat) {
    forall i :: 0 <= i < |es| ==> es[i].digest != d
  }

  lemma DistinctFront(es: seq<Execution>)
    requires es != []
    ensures DistinctDigests(es)
       <==> DistinctDigests(es[..|es| - 1])
            && Unused(es[..|es| - 1], es[|es| - 1].digest)
  {
    var front, last := es[..|es| - 1], es[|es| - 1];
    if DistinctDigests(es) {
      assert forall i :: 0 <= i < |front| ==> front[i] == es[i];
    } else {
      var i, j :| 0 <= i < j < |es| && es[i].digest == es[j].digest;
      assert front[i] == es[i];
      if j < |es| - 1 { assert front[j] == es[j]; }
    }
  }

  lemma QueriesStep(rs: seq<Record>, i: nat)
    requires i < |rs|
    ensures Queries(rs[..i + 1]) == Queries(rs[..i]) + (if rs[i].Query? then [rs[i].execution] else [])
  {
    assert rs[..i + 1][..i] == rs[..i];
  }

  lemma {:induction false} QueriesPrefix(rs: seq<Record>, i: nat)
    requires i <= |rs|
    ensures Queries(rs[..i]) <= Queries(rs)
    decreases |rs| - i
  {
    if i == |rs| {
      assert rs[..i] == rs;
    } else {
      QueriesStep(rs, i);
      QueriesPrefix(rs, i + 1);
    }
  }

  lemma ListingsStep(cs: seq<Coverage>, i: nat, d: nat)
    requires i < |cs|
    ensures Listings(cs[..i + 1], d) == Listings(cs[..i], d) + multiset(cs[i].executions)[d]
  {
    assert cs[..i + 1][..i] == cs[..i];
  }

  /** The inner loop: one more for every known digest, each time it is listed. */
  method CountOne(counts: map<nat, nat>, listed: seq<nat>) returns (r: map<nat, nat>)
    ensures r.Keys == counts.Keys && forall d <- counts :: r[d] == counts[d] + multiset(listed)[d]
  {
    r := counts;
    for j := 0 to |listed|
      invariant r.Keys == counts.Keys
      invariant forall d <- counts :: r[d] == counts[d] + multiset(listed[..j])[d]
    {
      assert listed[..j + 1] == listed[..j] + [listed[j]];
      if listed[j] in r { r := r[listed[j] := r[listed[j]] + 1]; }
    }
    assert listed[..|listed|] == listed;
  }

  /** The counting loop: for every known digest, how often the coverages list it. */
  method CountListings(cs: seq<Coverage>, byDigest: Executions) returns (counts: map<nat, nat>)
    ensures counts.Keys == byDigest.Keys
    ensures forall d <- counts :: counts[d] == Listings(cs, d)
  {
    counts := map d | d in byDigest :: 0;
    for i := 0 to |cs|
      invariant counts.Keys == byDigest.Keys
      invariant forall d <- counts :: counts[d] == Listings(cs[..i], d)
    {
      counts := CountOne(counts, cs[i].executions);
      forall d <- counts ensures counts[d] == Listings(cs[..i + 1], d) { ListingsStep(cs, i, d); }
    }
    assert cs[..|cs|] == cs;
  }

  lemma IndexGrows(rs: seq<Record>, i: nat, controls: Controls, collectedAt: int, trustedAsOf: int)
    requires i < |rs| && AllAccepted(Queries(rs[..i]), controls, collectedAt, trustedAsOf)
    requires rs[i].Query? ==> AcceptedExecution(rs[i].execution, controls, collectedAt, trustedAsOf)
    ensures AllAccepted(Queries(rs[..i + 1]), controls, collectedAt, trustedAsOf)
    ensures |Queries(rs[..i + 1])| == |Queries(rs[..i])| + (if rs[i].Query? then 1 else 0)
    ensures ByDigest(Queries(rs[..i + 1]))
         == if rs[i].Query? then ByDigest(Queries(rs[..i]))[rs[i].execution.digest := rs[i].execution]
            else ByDigest(Queries(rs[..i]))
  {
    QueriesStep(rs, i);
    var before, after := Queries(rs[..i]), Queries(rs[..i + 1]);
    if rs[i].Query? {
      assert after[..|after| - 1] == before;
    } else {
      assert after == before;
    }
  }

  lemma RejectedQuery(rs: seq<Record>, i: nat)
    requires i < |rs| && rs[i].Query?
    ensures rs[i].execution in Queries(rs)
  {
    QueriesStep(rs, i);
    QueriesPrefix(rs, i + 1);
    var at := |Queries(rs[..i])|;
    assert Queries(rs[..i + 1])[at] == rs[i].execution;
    assert Queries(rs)[at] == rs[i].execution;
  }

  /** The records of a batch, checked one by one and indexed by execution digest. */
  method IndexExecutions(rs: seq<Record>, controls: Controls, collectedAt: int, trustedAsOf: int)
    returns (r: Option<Executions>)
    ensures r.Some? <==> AllAccepted(Queries(rs), controls, collectedAt, trustedAsOf) && DistinctDigests(Queries(rs))
    ensures r.Some? ==> r.value == ByDigest(Queries(rs))
  {
    var byDigest: Executions := map[];
    var total := 0;
    for i := 0 to |rs|
      invariant byDigest == ByDigest(Queries(rs[..i])) && total == |Queries(rs[..i])|
      invariant AllAccepted(Queries(rs[..i]), controls, collectedAt, trustedAsOf)
    {
      if rs[i].Query? {
        var e := rs[i].execution;
        if !AcceptedExecution(e, controls, collectedAt, trustedAsOf) {
          RejectedQuery(rs, i);
          return None;
        }
        byDigest := byDigest[e.digest := e];
        total := total + 1;
      }
      IndexGrows(rs, i, controls, collectedAt, trustedAsOf);
    }
    assert rs[..|rs|] == rs;
    FullIndexIsDistinct(Queries(rs));
    return if |byDigest| == total then Some(byDigest) else None;
  }

  method KnownControls(cs: seq<Coverage>, controls: Controls) returns (ok: bool)
    ensures ok <==> forall c <- cs :: c.controlId in controls
  {
    for i := 0 to |cs|
      invariant forall c <- cs[..i] :: c.controlId in controls
    {
      if cs[i].controlId !in controls { return false; }
    }
    assert cs[..|cs|] == cs;
    return true;
  }

  method AllBound(cs: seq<Coverage>, controls: Controls, byDigest: Executions, collectedAt: int, trustedAsOf: int)
    returns (ok: bool)
    requires forall c <- cs :: c.controlId in controls
    ensures ok <==> forall c <- cs :: Bound(c, controls[c.controlId], byDigest, collectedAt, trustedAsOf)
  {
    for i := 0 to |cs|
      invariant forall j :: 0 <= j < i ==> Bound(cs[j], controls[cs[j].controlId], byDigest, collectedAt, trustedAsOf)
    {
      if !Bound(cs[i], controls[cs[i].controlId], byDigest, collectedAt, trustedAsOf) {
        assert cs[i] in cs;
        return false;
      }
    }
    return true;
  }

  method AllFamiliesMatch(cs: seq<Coverage>, controls: Controls) returns (ok: bool)
    requires forall c <- cs :: c.controlId in controls
    ensures ok <==> forall c <- cs :: FamilyMatches(c, controls[c.controlId])
  {
    for i := 0 to |cs|
      invariant forall j :: 0 <= j < i ==> FamilyMatches(cs[j], controls[cs[j].controlId])
    {
      if !FamilyMatches(cs[i], controls[cs[i].controlId]) {
        assert cs[i] in cs;
        return false;
      }
    }
    return true;
  }

  lemma CountsDecide(es: seq<Execution>, cs: seq<Coverage>, counts: map<nat, nat>)
    requires counts.Keys == ByDigest(es).Keys && forall d <- counts :: counts[d] == Listings(cs, d)
    ensures (forall d <- counts :: counts[d] == 1) <==> forall e <- es :: Listings(cs, e.digest) == 1
  {
    forall e <- es ensures e.digest in counts { ByDigestDomain(es, e.digest); }
    forall d <- counts ensures exists e <- es :: e.digest == d { ByDigestValue(es, d); }
  }

  method CheckBatch(rs: seq<Record>, cs: seq<Coverage>, controls: Controls, collectedAt: int, trustedAsOf: int)
    returns (ok: bool)
    ensures ok <==> Accepted(rs, cs, controls, collectedAt, trustedAsOf)
  {
    var known := KnownControls(cs, controls);
    if !known { return false; }
    var indexed := IndexExecutions(rs, controls, collectedAt, trustedAsOf);
    if indexed.None? { return false; }
    var bound := AllBound(cs, controls, indexed.value, collectedAt, trustedAsOf);
    if !bound { return false; }
    var counts := CountListings(cs, indexed.value);
    CountsDecide(Queries(rs), cs, counts);
    if exists d <- counts :: counts[d] != 1 { return false; }
    ok := AllFamiliesMatch(cs, controls);
  }

  // ---------------------------------------------------------------- exactly once

  lemma {:induction false} ListedSomewhere(cs: seq<Coverage>, d: nat)
    ensures Listings(cs, d) > 0 <==> exists i :: 0 <= i < |cs| && d in cs[i].executions
  {
    if cs != [] {
      var front := cs[..|cs| - 1];
      ListedSomewhere(front, d);
      assert forall i :: 0 <= i < |front| ==> front[i] == cs[i];
    }
  }

  lemma {:induction false} ListedTwice(cs: seq<Coverage>, d: nat, i: nat, j: nat)
    requires i < j < |cs| && d in cs[i].executions && d in cs[j].executions
    ensures Listings(cs, d) >= 2
  {
    var front := cs[..|cs| - 1];
    if j == |cs| - 1 {
      ListedSomewhere(front, d);
      assert front[i] == cs[i];
    } else {
      ListedTwice(front, d, i, j);
    }
  }

  /** On an accepted batch every query record is listed by exactly one coverage. */
  lemma ExactlyOneCoverage(rs: seq<Record>, cs: seq<Coverage>, controls: Controls, collectedAt: int, trustedAsOf: int,
                           e: Execution)
    requires BatchShape(rs, cs, controls) && Accepted(rs, cs, controls, collectedAt, trustedAsOf)
    requires e in Queries(rs)
    ensures exists i :: 0 <= i < |cs| && e.digest in cs[i].executions
    ensures forall i, j :: 0 <= i < |cs| && 0 <= j < |cs| && e.digest in cs[i].executions && e.digest in cs[j].executions
              ==> i == j
  {
    ListedSomewhere(cs, e.digest);
    forall i, j | 0 <= i < j < |cs| && e.digest in cs[i].executions && e.digest in cs[j].executions
      ensures false
    {
      ListedTwice(cs, e.digest, i, j);
    }
  }

  /** And every listed digest is that of one accepted query record, about the same scope; resource
      health coverage lists none. */
  lemma ListedDigestsResolve(rs: seq<Record>, cs: seq<Coverage>, controls: Controls, collectedAt: int, trustedAsOf: int,
                             c: Coverage)
    requires BatchShape(rs, cs, controls) && Accepted(rs, cs, controls, collectedAt, trustedAsOf)
    requires c in cs
    ensures c.family == PlatformHealth || controls[c.controlId].ResourceHealth? ==> c.executions == []
    ensures forall d <- c.executions :: exists e <- Queries(rs) :: e.digest == d && SameQuery(e, c)
  {
    assert CoverageShape(c) && Bound(c, controls[c.controlId], ByDigest(Queries(rs)), collectedAt, trustedAsOf);
    assert FamilyMatches(c, controls[c.controlId]);
    forall d <- c.executions ensures exists e <- Queries(rs) :: e.digest == d && SameQuery(e, c) {
      ByDigestValue(Queries(rs), d);
      var e := ByDigest(Queries(rs))[d];
      assert e in Queries(rs) && e.digest == d && SameQuery(e, c);
    }
  }
}
