/** Exactly which coverages are bound to their control, without sorting: by the starting times of the
    executions they list, and by the age of what they cover. */
module CoverageRules {

  import opened Options
  import opened MonitoringCoverage
  import opened CoverageTiling
  import StableSort

  /** Not later than either clock says it is, and at most so many seconds before. */
  predicate Fresh(t: int, seconds: nat, collectedAt: int, trustedAsOf: int) {
    && t <= collectedAt && t <= trustedAsOf
    && collectedAt <= t + 1000 * seconds && trustedAsOf <= t + 1000 * seconds
  }

  // ---------------------------------------------------------------- resource health and activity logs

  /** Coverage of resource health is bound exactly when every instant of it is fresh; an activity log
      never binds a coverage. */
  lemma HealthExactly(c: Coverage, signal: Signal, byDigest: Executions, collectedAt: int, trustedAsOf: int)
    requires c.start <= c.end && !signal.LogQuery?
    ensures Bound(c, signal, byDigest, collectedAt, trustedAsOf)
       <==> signal.ResourceHealth? && forall t :: c.start <= t <= c.end ==> Fresh(t, signal.maximumAge, collectedAt, trustedAsOf)
  {
    if signal.ResourceHealth? {
      if forall t :: c.start <= t <= c.end ==> Fresh(t, signal.maximumAge, collectedAt, trustedAsOf) {
        assert Fresh(c.start, signal.maximumAge, collectedAt, trustedAsOf);
        assert Fresh(c.end, signal.maximumAge, collectedAt, trustedAsOf);
      }
    }
  }

  // ---------------------------------------------------------------- positions in the schedule

  /** Some execution starts `i` frequencies after the first. */
  predicate StartsAt(es: seq<Execution>, start: int, f: nat, i: int) {
    exists e <- es :: e.start == start + 1000 * (i * f)
  }

  ghost predicate StartsOneByOne(es: seq<Execution>, start: int, f: nat) {
    forall i :: 0 <= i < |es| ==> StartsAt(es, start, f, i)
  }

  predicate StartSorted(es: seq<Execution>) {
    forall p, q :: 0 <= p < q < |es| ==> es[p].start <= es[q].start
  }

  lemma NextStartIsLater(es: seq<Execution>, start: int, f: nat, i: int, p: nat, q: nat)
    requires StartSorted(es) && f > 0 && p < |es| && q < |es|
    requires es[p].start == start + 1000 * (i * f) && es[q].start == start + 1000 * ((i + 1) * f)
    ensures p < q
  {
    assert (i + 1) * f == i * f + f;
  }

  lemma {:induction false} AtLeast(es: seq<Execution>, start: int, f: nat, i: nat, p: nat)
    requires StartSorted(es) && StartsOneByOne(es, start, f) && f > 0 && i < |es| && p < |es|
    requires es[p].start == start + 1000 * (i * f)
    ensures p >= i
  {
    if i > 0 {
      assert StartsAt(es, start, f, i - 1);
      var q :| 0 <= q < |es| && es[q].start == start + 1000 * ((i - 1) * f);
      AtLeast(es, start, f, i - 1, q);
      NextStartIsLater(es, start, f, i - 1, q, p);
    }
  }

  lemma {:induction false} AtMost(es: seq<Execution>, start: int, f: nat, i: nat, p: nat)
    requires StartSorted(es) && StartsOneByOne(es, start, f) && f > 0 && i < |es| && p < |es|
    requires es[p].start == start + 1000 * (i * f)
    ensures p <= i
    decreases |es| - i
  {
    if i < |es| - 1 {
      assert StartsAt(es, start, f, i + 1);
      var q :| 0 <= q < |es| && es[q].start == start + 1000 * ((i + 1) * f);
      AtMost(es, start, f, i + 1, q);
      NextStartIsLater(es, start, f, i, p, q);
    }
  }

  /** In order of start, the execution that starts `i` frequencies later is the `i`-th. */
  lemma StartOf(es: seq<Execution>, start: int, f: nat, i: nat)
    requires StartSorted(es) && StartsOneByOne(es, start, f) && f > 0 && i < |es|
    ensures es[i].start == start + 1000 * (i * f)
  {
    assert StartsAt(es, start, f, i);
    var p :| 0 <= p < |es| && es[p].start == start + 1000 * (i * f);
    AtLeast(es, start, f, i, p);
    AtMost(es, start, f, i, p);
  }

  // ---------------------------------------------------------------- bound coverages

  predicate AsLongAs(es: seq<Execution>, window: nat) { forall e <- es :: e.end - e.start == 1000 * window }

  /** What `prepare` finds of the sorted executions. */
  ghost predicate Spans(es: seq<Execution>, start: int, end: int, frequency: nat) {
    && Sorted(es) != [] && Sorted(es)[0].start == start && Sorted(es)[|Sorted(es)| - 1].end == end
    && Scheduled(Sorted(es), frequency)
  }

  lemma SortedByStart(es: seq<Execution>)
    ensures StartSorted(Sorted(es)) && |Sorted(es)| == |es| && forall e :: e in es <==> e in Sorted(es)
  {
    SortedIsSorted(es);
    forall p, q | 0 <= p < q < |Sorted(es)| ensures Sorted(es)[p].start <= Sorted(es)[q].start {
      assert Before(Sorted(es)[p], Sorted(es)[q]);
    }
    forall e ensures e in es <==> e in Sorted(es) { assert e in multiset(es) <==> e in multiset(Sorted(es)); }
  }

  lemma SameStarts(es: seq<Execution>, start: int, f: nat)
    ensures StartsOneByOne(es, start, f) <==> StartsOneByOne(Sorted(es), start, f)
  {
    SortedByStart(es);
    forall i ensures StartsAt(es, start, f, i) <==> StartsAt(Sorted(es), start, f, i) { }
  }

  lemma SpansTiles(es: seq<Execution>, start: int, end: int, window: nat, frequency: nat)
    requires AsLongAs(es, window) && Spans(es, start, end, frequency)
    ensures es != [] && StartsOneByOne(es, start, frequency)
    ensures end - start == 1000 * (window + (|es| - 1) * frequency)
  {
    SortedByStart(es);
    SameStarts(es, start, frequency);
    forall i | 0 <= i < |es| ensures Sorted(es)[i].start == start + 1000 * (i * frequency) {
      ScheduleTiles(Sorted(es), window, frequency, i);
    }
    forall i | 0 <= i < |es| ensures StartsAt(Sorted(es), start, frequency, i) { assert Sorted(es)[i] in Sorted(es); }
    ScheduleTiles(Sorted(es), window, frequency, |es| - 1);
  }

  lemma TilesSpan(es: seq<Execution>, start: int, end: int, window: nat, frequency: nat)
    requires AsLongAs(es, window) && es != [] && StartsOneByOne(es, start, frequency) && frequency > 0
    requires end - start == 1000 * (window + (|es| - 1) * frequency)
    ensures Spans(es, start, end, frequency)
  {
    var sorted := Sorted(es);
    SortedByStart(es);
    SameStarts(es, start, frequency);
    forall i | 0 <= i < |es|
      ensures sorted[i].start == start + 1000 * (i * frequency) && sorted[i].end == sorted[i].start + 1000 * window
    {
      StartOf(sorted, start, frequency, i);
      assert sorted[i] in es;
    }
    forall i | 0 < i < |sorted|
      ensures sorted[i].start - sorted[i - 1].start == 1000 * frequency && sorted[i].end - sorted[i - 1].end == 1000 * frequency
    {
      assert i * frequency == (i - 1) * frequency + frequency;
    }
  }

  lemma SpansExactly(es: seq<Execution>, start: int, end: int, window: nat, frequency: nat)
    requires AsLongAs(es, window) && frequency > 0
    ensures Spans(es, start, end, frequency)
       <==> && es != [] && StartsOneByOne(es, start, frequency)
            && end - start == 1000 * (window + (|es| - 1) * frequency)
  {
    if Spans(es, start, end, frequency) { SpansTiles(es, start, end, window, frequency); }
    if es != [] && StartsOneByOne(es, start, frequency) && end - start == 1000 * (window + (|es| - 1) * frequency) {
      TilesSpan(es, start, end, window, frequency);
    }
  }

  /** The coverage repeats what was reviewed of its query. */
  predicate Repeats(c: Coverage, signal: Signal)
    requires signal.LogQuery?
  {
    && c.query == Some(signal.query) && c.target == Some(signal.target)
    && c.window == Some(signal.window) && c.frequency == Some(signal.frequency)
  }

  ghost predicate Resolves(c: Coverage, byDigest: Executions) {
    forall d <- c.executions :: d in byDigest && SameQuery(byDigest[d], c)
  }

  /** What a coverage says it covers: one window if there is no data, or else what its executions cover,
      which start one frequency after another from its start on. */
  ghost predicate Covers(c: Coverage, window: nat, frequency: nat, byDigest: Executions) {
    if c.status == UnavailableData then c.end - c.start == 1000 * window
    else
      && Resolves(c, byDigest) && c.executions != []
      && StartsOneByOne(Listed(c, byDigest), c.start, frequency)
      && c.end - c.start == 1000 * (window + (|c.executions| - 1) * frequency)
  }

  /** A coverage of a log query is bound exactly when it repeats the reviewed query, its end is fresh, and
      its executions are those of the query, one starting after the other. */
  lemma LogExactly(c: Coverage, signal: Signal, byDigest: Executions, collectedAt: int, trustedAsOf: int)
    requires signal.LogQuery? && signal.window > 0 && signal.frequency > 0
    requires forall d <- c.executions :: d in byDigest ==> byDigest[d].end - byDigest[d].start == 1000 * signal.window
    ensures Bound(c, signal, byDigest, collectedAt, trustedAsOf)
       <==> && Repeats(c, signal) && Fresh(c.end, signal.window + signal.frequency, collectedAt, trustedAsOf)
            && Covers(c, signal.window, signal.frequency, byDigest)
  {
    if Resolves(c, byDigest) {
      var es := Listed(c, byDigest);
      forall e <- es ensures e.end - e.start == 1000 * signal.window {
        var i :| 0 <= i < |es| && es[i] == e;
        assert c.executions[i] in c.executions;
      }
      SpansExactly(es, c.start, c.end, signal.window, signal.frequency);
      if c.executions != [] { assert (|c.executions| - 1) * signal.frequency >= 0; }
    }
  }

  // ---------------------------------------------------------------- single records

  /** An execution is accepted exactly when its control reviews the very same query, it lasts one window,
      and its end is fresh. */
  lemma ExecutionExactly(e: Execution, controls: Controls, collectedAt: int, trustedAsOf: int)
    ensures AcceptedExecution(e, controls, collectedAt, trustedAsOf)
       <==> && e.controlId in controls
            && controls[e.controlId] == LogQuery(e.family, e.query, e.target, e.window, e.frequency)
            && e.end - e.start == 1000 * e.window && Fresh(e.end, e.window + e.frequency, collectedAt, trustedAsOf)
  {
    if e.controlId in controls && controls[e.controlId].LogQuery? {
      var signal := controls[e.controlId];
      assert signal == LogQuery(signal.family, signal.query, signal.target, signal.window, signal.frequency);
    }
  }

  /** Scopes agree on resources, path, direction and flow; on the endpoint test only where the family has
      one, and coverage of network flows must not name any. */
  lemma ScopeExactly(e: Execution, c: Coverage)
    requires e.family != PlatformHealth
    ensures ScopeMatches(e, c)
       <==> && c.scope.resources == e.scope.resources && c.scope.path == e.scope.path
            && c.scope.direction == e.scope.direction && c.scope.fiveTuple == e.scope.fiveTuple
            && (e.family == ConnectionMonitor ==> c.scope.test == e.scope.test)
            && (e.family == NetworkFlow ==> c.scope.test.None?)
  {
    var s, t := c.scope, e.scope;
    assert s == Scope(s.resources, s.path, s.direction, s.fiveTuple, s.test);
    assert t == Scope(t.resources, t.path, t.direction, t.fiveTuple, t.test);
  }
}
