/** What an accepted coverage says about time: its executions tile the covered interval, every part
    of it is observed a known number of times, and freshness bounds how many there can be. */
module CoverageTiling {

  import opened MonitoringCoverage
  import StableSort

  function Min(a: int, b: int): int { if a <= b then a else b }
  function Max(a: int, b: int): int { if a <= b then b else a }

  /** Windows of `window` seconds, one every `frequency` seconds, the first starting at `start`. */
  ghost predicate Tiles(es: seq<Execution>, start: int, window: nat, frequency: nat) {
    forall i :: 0 <= i < |es| ==>
      es[i].start == start + 1000 * (i * frequency) && es[i].end == es[i].start + 1000 * window
  }

  /** How many executions observe the whole of `[from, to]`. */
  function Observing(es: seq<Execution>, from: int, to: int): nat {
    if es == [] then 0 else (if es[0].start <= from && to <= es[0].end then 1 else 0) + Observing(es[1..], from, to)
  }

  lemma {:induction false} ObservingInsert(e: Execution, es: seq<Execution>, from: int, to: int)
    ensures Observing(StableSort.Insert(Before, e, es), from, to) == Observing([e], from, to) + Observing(es, from, to)
  {
    if es != [] && !Before(e, es[0]) {
      ObservingInsert(e, es[1..], from, to);
      assert StableSort.Insert(Before, e, es)[1..] == StableSort.Insert(Before, e, es[1..]);
    } else {
      assert StableSort.Insert(Before, e, es)[1..] == es;
    }
  }

  lemma {:induction false} ObservingSorted(es: seq<Execution>, from: int, to: int)
    ensures Observing(Sorted(es), from, to) == Observing(es, from, to)
  {
    if es != [] {
      ObservingSorted(es[1..], from, to);
      ObservingInsert(es[0], Sorted(es[1..]), from, to);
    }
  }

  lemma {:induction false} ObservingAppend(es: seq<Execution>, e: Execution, from: int, to: int)
    ensures Observing(es + [e], from, to) == Observing(es, from, to) + (if e.start <= from && to <= e.end then 1 else 0)
  {
    if es == [] {
      assert es + [e] == [e];
    } else {
      assert (es + [e])[1..] == es[1..] + [e];
      ObservingAppend(es[1..], e, from, to);
    }
  }

  lemma StridesAreMonotone(i: int, j: int, f: nat)
    requires f > 0
    ensures i <= j <==> i * f <= j * f
  {
    if i < j { StridesGrow(i, j - i, f); }
    if j < i { StridesGrow(j, i - j, f); }
  }

  lemma StridesGrow(i: int, d: int, f: nat)
    requires f > 0 && d > 0
    ensures (i + d) * f > i * f
  {
    assert (i + d) * f == i * f + d * f;
  }

  /** Window `i` observes slot `j` exactly when `i <= j < i + window / frequency`. */
  lemma WindowSeesSlot(i: nat, j: nat, k: nat, f: nat)
    requires f > 0
    ensures (i * f <= j * f && (j + 1) * f <= i * f + k * f) <==> i <= j < i + k
  {
    StridesAreMonotone(i, j, f);
    StridesAreMonotone(j + 1, i + k, f);
    assert (i + k) * f == i * f + k * f;
  }

  function Slot(start: int, f: nat, j: nat): int { start + 1000 * (j * f) }

  lemma SlotInWindow(e: Execution, start: int, k: nat, f: nat, i: nat, j: nat)
    requires f > 0 && e.start == start + 1000 * (i * f) && e.end == e.start + 1000 * (k * f)
    ensures (e.start <= Slot(start, f, j) && Slot(start, f, j + 1) <= e.end) <==> i <= j < i + k
  {
    WindowSeesSlot(i, j, k, f);
  }

  lemma {:induction false} PrefixCount(es: seq<Execution>, start: int, k: nat, f: nat, j: nat, m: nat)
    requires f > 0 && m <= |es| && Tiles(es, start, k * f, f)
    ensures Observing(es[..m], Slot(start, f, j), Slot(start, f, j + 1)) == Max(0, Min(j + 1, m) - Max(0, j + 1 - k))
  {
    if m > 0 {
      PrefixCount(es, start, k, f, j, m - 1);
      assert es[..m] == es[..m - 1] + [es[m - 1]];
      ObservingAppend(es[..m - 1], es[m - 1], Slot(start, f, j), Slot(start, f, j + 1));
      SlotInWindow(es[m - 1], start, k, f, m - 1, j);
    }
  }

  /** Every instant of the tiled interval lies in some window. */
  lemma {:induction false} NoGap(es: seq<Execution>, start: int, window: nat, frequency: nat, t: int)
    requires es != [] && frequency <= window && Tiles(es, start, window, frequency)
    requires start <= t <= es[|es| - 1].end
    ensures exists i :: 0 <= i < |es| && es[i].start <= t <= es[i].end
  {
    var last := es[|es| - 1];
    if |es| == 1 || last.start <= t {
      assert last.start <= t <= last.end;
    } else {
      var front := es[..|es| - 1];
      var i, n := |es| - 2, |es| - 1;
      assert n * frequency == i * frequency + frequency;
      NoGap(front, start, window, frequency, t);
      var k :| 0 <= k < |front| && front[k].start <= t <= front[k].end;
      assert es[k] == front[k];
    }
  }

  lemma {:induction false} ScheduleTiles(es: seq<Execution>, window: nat, frequency: nat, i: nat)
    requires i < |es| && Scheduled(es, frequency) && (forall e <- es :: e.end - e.start == 1000 * window)
    ensures es[i].start == es[0].start + 1000 * (i * frequency) && es[i].end == es[i].start + 1000 * window
  {
    if i > 0 {
      ScheduleTiles(es, window, frequency, i - 1);
      assert i * frequency == (i - 1) * frequency + frequency;
      assert es[i].start - es[i - 1].start == 1000 * frequency;
    }
  }

  /** The executions of a bound coverage that is not unavailable, as `prepare` finds them. */
  ghost predicate Accounted(es: seq<Execution>, c: Coverage, signal: Signal, collectedAt: int, trustedAsOf: int) {
    && signal.LogQuery? && es != [] && Sorted(es) != []
    && Sorted(es)[0].start == c.start && Sorted(es)[|Sorted(es)| - 1].end == c.end
    && Scheduled(Sorted(es), signal.frequency)
    && forall e <- es ::
         && ExecutionShape(e) && e.window == signal.window && e.frequency == signal.frequency
         && e.end - e.start == 1000 * signal.window
         && e.end <= collectedAt && e.end <= trustedAsOf
         && collectedAt - e.end <= 1000 * (signal.window + signal.frequency)
         && trustedAsOf - e.end <= 1000 * (signal.window + signal.frequency)
  }

  lemma ListedAccepted(es: seq<Execution>, c: Coverage, controls: Controls, collectedAt: int, trustedAsOf: int, d: nat)
    requires (forall e <- es :: ExecutionShape(e)) && AllAccepted(es, controls, collectedAt, trustedAsOf)
    requires d in ByDigest(es) && SameQuery(ByDigest(es)[d], c)
    ensures AcceptedExecution(ByDigest(es)[d], controls, collectedAt, trustedAsOf) && ExecutionShape(ByDigest(es)[d])
    ensures ByDigest(es)[d].controlId == c.controlId
  {
    ByDigestValue(es, d);
  }

  lemma CoverageIsAccounted(rs: seq<Record>, cs: seq<Coverage>, controls: Controls, collectedAt: int, trustedAsOf: int,
                            c: Coverage)
    requires BatchShape(rs, cs, controls) && Accepted(rs, cs, controls, collectedAt, trustedAsOf)
    requires c in cs && controls[c.controlId].LogQuery? && c.status != UnavailableData
    ensures forall d <- c.executions :: d in ByDigest(Queries(rs))
    ensures Accounted(Listed(c, ByDigest(Queries(rs))), c, controls[c.controlId], collectedAt, trustedAsOf)
  {
    var byDigest := ByDigest(Queries(rs));
    assert Bound(c, controls[c.controlId], byDigest, collectedAt, trustedAsOf);
    var es := Listed(c, byDigest);
    SortedIsSorted(es);
    forall e <- es
      ensures AcceptedExecution(e, controls, collectedAt, trustedAsOf) && ExecutionShape(e) && e.controlId == c.controlId
    {
      var i :| 0 <= i < |es| && es[i] == e;
      ListedAccepted(Queries(rs), c, controls, collectedAt, trustedAsOf, c.executions[i]);
    }
  }

  lemma SortedTiles(es: seq<Execution>, c: Coverage, signal: Signal, collectedAt: int, trustedAsOf: int)
    requires Accounted(es, c, signal, collectedAt, trustedAsOf)
    ensures |Sorted(es)| == |es| && Tiles(Sorted(es), c.start, signal.window, signal.frequency)
    ensures 0 < signal.frequency <= signal.window && signal.window % signal.frequency == 0
    ensures forall e <- Sorted(es) :: e in es
    ensures c.end == c.start + 1000 * ((|es| - 1) * signal.frequency) + 1000 * signal.window
  {
    SortedIsSorted(es);
    forall e <- Sorted(es) ensures e in es { assert e in multiset(Sorted(es)); }
    assert es[0] in es;
    forall i | 0 <= i < |es|
      ensures Sorted(es)[i].start == c.start + 1000 * (i * signal.frequency)
           && Sorted(es)[i].end == Sorted(es)[i].start + 1000 * signal.window
    {
      ScheduleTiles(Sorted(es), signal.window, signal.frequency, i);
    }
  }

  /** The covered interval has length W + (n-1)F, and every instant of it was observed. */
  lemma CoverageHasNoGap(rs: seq<Record>, cs: seq<Coverage>, controls: Controls, collectedAt: int, trustedAsOf: int,
                         c: Coverage, t: int)
    requires BatchShape(rs, cs, controls) && Accepted(rs, cs, controls, collectedAt, trustedAsOf)
    requires c in cs && controls[c.controlId].LogQuery? && c.status != UnavailableData
    ensures c.executions != []
    ensures var signal := controls[c.controlId];
            c.end - c.start == 1000 * (signal.window + (|c.executions| - 1) * signal.frequency)
    ensures c.start <= t <= c.end ==> exists e <- Queries(rs) :: e.digest in c.executions && e.start <= t <= e.end
  {
    var es := Queries(rs);
    CoverageIsAccounted(rs, cs, controls, collectedAt, trustedAsOf, c);
    AccountedHasNoGap(Listed(c, ByDigest(es)), c, controls[c.controlId], collectedAt, trustedAsOf, t);
    if c.start <= t <= c.end {
      var e :| e in Listed(c, ByDigest(es)) && e.start <= t <= e.end;
      ListedComeFrom(es, c, e);
    }
  }

  lemma AccountedHasNoGap(es: seq<Execution>, c: Coverage, signal: Signal, collectedAt: int, trustedAsOf: int, t: int)
    requires Accounted(es, c, signal, collectedAt, trustedAsOf)
    ensures c.end - c.start == 1000 * (signal.window + (|es| - 1) * signal.frequency)
    ensures c.start <= t <= c.end ==> exists e <- es :: e.start <= t <= e.end
  {
    SortedTiles(es, c, signal, collectedAt, trustedAsOf);
    if c.start <= t <= c.end {
      NoGap(Sorted(es), c.start, signal.window, signal.frequency, t);
    }
  }

  lemma ListedComeFrom(es: seq<Execution>, c: Coverage, e: Execution)
    requires (forall d <- c.executions :: d in ByDigest(es)) && e in Listed(c, ByDigest(es))
    ensures e in es && e.digest in c.executions
  {
    var k :| 0 <= k < |c.executions| && Listed(c, ByDigest(es))[k] == e;
    ByDigestValue(es, c.executions[k]);
  }

  /** Slot `j`, the `j`-th stretch of one frequency, is observed by exactly
      min(j+1, n, W/F, W/F + n-1-j) of the listed executions. */
  lemma SlotCoverage(rs: seq<Record>, cs: seq<Coverage>, controls: Controls, collectedAt: int, trustedAsOf: int,
                     c: Coverage, j: nat)
    requires BatchShape(rs, cs, controls) && Accepted(rs, cs, controls, collectedAt, trustedAsOf)
    requires c in cs && controls[c.controlId].LogQuery? && c.status != UnavailableData
    requires Slot(c.start, controls[c.controlId].frequency, j + 1) <= c.end
    ensures controls[c.controlId].frequency > 0
    ensures forall d <- c.executions :: d in ByDigest(Queries(rs))
    ensures var f, n := controls[c.controlId].frequency, |c.executions|;
            var k := controls[c.controlId].window / f;
            Observing(Listed(c, ByDigest(Queries(rs))), Slot(c.start, f, j), Slot(c.start, f, j + 1))
            == Min(Min(j + 1, n), Min(k, k + n - 1 - j))
  {
    var signal := controls[c.controlId];
    CoverageIsAccounted(rs, cs, controls, collectedAt, trustedAsOf, c);
    CountSlot(Listed(c, ByDigest(Queries(rs))), c, signal, collectedAt, trustedAsOf, j);
  }

  lemma CountSlot(es: seq<Execution>, c: Coverage, signal: Signal, collectedAt: int, trustedAsOf: int, j: nat)
    requires Accounted(es, c, signal, collectedAt, trustedAsOf) && Slot(c.start, signal.frequency, j + 1) <= c.end
    ensures signal.frequency > 0
    ensures var f, n := signal.frequency, |es|;
            var k := signal.window / f;
            Observing(es, Slot(c.start, f, j), Slot(c.start, f, j + 1)) == Min(Min(j + 1, n), Min(k, k + n - 1 - j))
  {
    var f := signal.frequency;
    SortedTiles(es, c, signal, collectedAt, trustedAsOf);
    Multiple(signal.window, f);
    ObservingSorted(es, Slot(c.start, f, j), Slot(c.start, f, j + 1));
    CountTile(Sorted(es), c.start, signal.window / f, f, j);
  }

  lemma Multiple(w: nat, f: nat)
    requires f > 0 && w % f == 0
    ensures w == (w / f) * f && w / f >= 0
    ensures f <= w ==> w / f >= 1
  {
  }

  lemma CountTile(es: seq<Execution>, start: int, k: nat, f: nat, j: nat)
    requires es != [] && f > 0 && k > 0 && Tiles(es, start, k * f, f)
    requires Slot(start, f, j + 1) <= start + 1000 * ((|es| - 1) * f) + 1000 * (k * f)
    ensures Observing(es, Slot(start, f, j), Slot(start, f, j + 1)) == Min(Min(j + 1, |es|), Min(k, k + |es| - 1 - j))
  {
    var n := |es|;
    PrefixCount(es, start, k, f, j, n);
    assert es[..n] == es;
    LastSlot(n, k, f, j);
  }

  lemma LastSlot(n: nat, k: nat, f: nat, j: nat)
    requires n > 0 && f > 0 && (j + 1) * f <= (n - 1) * f + k * f
    ensures j + 1 <= n - 1 + k
  {
    assert (n - 1 + k) * f == (n - 1) * f + k * f;
    StridesAreMonotone(j + 1, n - 1 + k, f);
  }

  /** Every record must be fresh on its own, so a coverage lists at most W/F + 2 executions; one that
      lists as many ends at the very instant of collection and of the trusted clock. */
  lemma FreshnessBoundsExecutions(rs: seq<Record>, cs: seq<Coverage>, controls: Controls, collectedAt: int,
                                  trustedAsOf: int, c: Coverage)
    requires BatchShape(rs, cs, controls) && Accepted(rs, cs, controls, collectedAt, trustedAsOf)
    requires c in cs && controls[c.controlId].LogQuery? && c.status != UnavailableData
    ensures controls[c.controlId].frequency > 0
    ensures var k := controls[c.controlId].window / controls[c.controlId].frequency;
            |c.executions| <= k + 2 && (|c.executions| == k + 2 ==> c.end == collectedAt == trustedAsOf)
  {
    var signal := controls[c.controlId];
    CoverageIsAccounted(rs, cs, controls, collectedAt, trustedAsOf, c);
    BoundExecutions(Listed(c, ByDigest(Queries(rs))), c, signal, collectedAt, trustedAsOf);
  }

  lemma BoundExecutions(es: seq<Execution>, c: Coverage, signal: Signal, collectedAt: int, trustedAsOf: int)
    requires Accounted(es, c, signal, collectedAt, trustedAsOf)
    ensures signal.frequency > 0
    ensures var k := signal.window / signal.frequency;
            |es| <= k + 2 && (|es| == k + 2 ==> c.end == collectedAt == trustedAsOf)
  {
    var f, n := signal.frequency, |es|;
    SortedTiles(es, c, signal, collectedAt, trustedAsOf);
    Multiple(signal.window, f);
    assert Sorted(es)[0] in es && Sorted(es)[n - 1] in es;
    StridesBound(n - 1, signal.window / f, f, c.end, collectedAt, trustedAsOf, Sorted(es)[0].end);
  }

  lemma StridesBound(m: nat, k: nat, f: nat, end: int, collectedAt: int, trustedAsOf: int, first: int)
    requires f > 0 && end - first == 1000 * (m * f) && end <= collectedAt && end <= trustedAsOf
    requires collectedAt - first <= 1000 * (k * f + f) && trustedAsOf - first <= 1000 * (k * f + f)
    ensures m <= k + 1 && (m == k + 1 ==> end == collectedAt == trustedAsOf)
  {
    assert (k + 1) * f == k * f + f;
    StridesAreMonotone(m, k + 1, f);
  }
}
