/** Growing the window of an incident: from the selected unhealthy observations to every observation
    of the same resource and state that the window reaches, however indirectly. */
module IncidentExpansion {

  datatype Health = Healthy | Degraded | Unhealthy | Unavailable | Unknown

  /** Times are milliseconds. A network or connection observation has no health state. */
  datatype Observation = Observation(
    id: nat, subject: string, health: Health, hasHealth: bool, start: int, end: int)

  predicate Eligible(o: Observation, resource: string, health: Health) {
    o.subject == resource && o.hasHealth && o.health == health
  }

  predicate Touches(o: Observation, lo: int, hi: int) {
    o.start <= hi && lo <= o.end
  }

  /** `lo`..`hi` is the hull of the set: the least start and the greatest end. */
  ghost predicate Hull(s: set<Observation>, lo: int, hi: int) {
    && (forall o <- s :: lo <= o.start && o.end <= hi)
    && (exists o <- s :: o.start == lo)
    && (exists o <- s :: o.end == hi)
  }

  /** Nothing eligible that the hull of `s` touches is missing from `s`. */
  ghost predicate Closed(s: set<Observation>, all: seq<Observation>, resource: string, health: Health) {
    forall lo, hi :: Hull(s, lo, hi) ==>
      forall o <- all :: Eligible(o, resource, health) && Touches(o, lo, hi) ==> o in s
  }

  ghost predicate Least(s: set<Observation>, selected: set<Observation>, all: seq<Observation>,
                        resource: string, health: Health) {
    && selected <= s && Closed(s, all, resource, health)
    && forall t: set<Observation> :: (selected <= t && Closed(t, all, resource, health) && HasHull(t)) ==> s <= t
  }

  ghost predicate HasHull(s: set<Observation>) {
    exists lo, hi :: Hull(s, lo, hi)
  }

  lemma HullIsUnique(s: set<Observation>, lo: int, hi: int, lo': int, hi': int)
    requires Hull(s, lo, hi) && Hull(s, lo', hi')
    ensures lo == lo' && hi == hi'
  {
  }

  lemma {:induction false} NonEmptySetsHaveHulls(s: set<Observation>)
    requires s != {}
    ensures HasHull(s)
    decreases s
  {
    var o :| o in s;
    if s == {o} {
      assert Hull(s, o.start, o.end);
    } else {
      var rest := s - {o};
      NonEmptySetsHaveHulls(rest);
      var lo, hi :| Hull(rest, lo, hi);
      GrownHull(rest, lo, hi, o);
      assert rest + {o} == s;
      assert Hull(s, if o.start < lo then o.start else lo, if hi < o.end then o.end else hi);
    }
  }

  lemma GrownHull(s: set<Observation>, lo: int, hi: int, o: Observation)
    requires Hull(s, lo, hi)
    ensures Hull(s + {o}, if o.start < lo then o.start else lo, if hi < o.end then o.end else hi)
  {
    var first :| first in s && first.start == lo;
    var last :| last in s && last.end == hi;
    assert first in s + {o} && last in s + {o} && o in s + {o};
  }

  /** One candidate: what any closed superset of the current set must contain too. */
  lemma ForcedCandidate(s: set<Observation>, lo: int, hi: int, o: Observation, t: set<Observation>,
                        all: seq<Observation>, resource: string, health: Health)
    requires Hull(s, lo, hi) && s <= t && Closed(t, all, resource, health) && HasHull(t)
    requires o in all && Eligible(o, resource, health) && Touches(o, lo, hi)
    ensures o in t
  {
    var lo', hi' :| Hull(t, lo', hi');
    var first :| first in s && first.start == lo;
    var last :| last in s && last.end == hi;
    assert lo' <= first.start && last.end <= hi';
  }

  ghost predicate Forced(s: set<Observation>, selected: set<Observation>, all: seq<Observation>,
                         resource: string, health: Health) {
    forall t: set<Observation> :: (selected <= t && Closed(t, all, resource, health) && HasHull(t)) ==> s <= t
  }

  /** How far the growth has come: a forced superset of the selection with the given hull. */
  ghost predicate Growing(s: set<Observation>, lo: int, hi: int, current: seq<Observation>, all: seq<Observation>,
                          resource: string, health: Health) {
    && (set o | o in current) <= s && Hull(s, lo, hi)
    && Forced(s, (set o | o in current), all, resource, health)
    && forall o <- s :: o in current || (o in all && Eligible(o, resource, health))
  }

  /** Nothing eligible among `seen` that the window touches is missing. */
  ghost predicate NothingMissing(s: set<Observation>, lo: int, hi: int, seen: seq<Observation>,
                                 resource: string, health: Health) {
    forall o <- seen :: Eligible(o, resource, health) && Touches(o, lo, hi) ==> o in s
  }

  lemma GrowingStep(s: set<Observation>, lo: int, hi: int, o: Observation, current: seq<Observation>,
                    all: seq<Observation>, resource: string, health: Health)
    requires Growing(s, lo, hi, current, all, resource, health)
    requires o in all && Eligible(o, resource, health) && Touches(o, lo, hi)
    ensures Growing(s + {o}, if o.start < lo then o.start else lo, if hi < o.end then o.end else hi,
                    current, all, resource, health)
  {
    ForcedStep(s, lo, hi, o, (set o | o in current), all, resource, health);
    GrownHull(s, lo, hi, o);
  }

  lemma OneMoreSeen(s: set<Observation>, lo: int, hi: int, all: seq<Observation>, i: nat, resource: string, health: Health)
    requires i < |all| && NothingMissing(s, lo, hi, all[..i], resource, health)
    requires all[i] in s || !Eligible(all[i], resource, health) || !Touches(all[i], lo, hi)
    ensures NothingMissing(s, lo, hi, all[..i + 1], resource, health)
  {
    assert all[..i + 1] == all[..i] + [all[i]];
  }

  lemma PoolShrinks(pool: set<Observation>, before: set<Observation>, s: set<Observation>, o: Observation)
    requires (s == before || pool - s < pool - before) && o in pool && o !in s
    ensures pool - (s + {o}) < pool - before
  {
    assert o in pool - s && pool - (s + {o}) <= pool - s;
  }

  lemma GrownIsLeast(s: set<Observation>, lo: int, hi: int, current: seq<Observation>, all: seq<Observation>,
                     resource: string, health: Health)
    requires Growing(s, lo, hi, current, all, resource, health)
    requires NothingMissing(s, lo, hi, all, resource, health)
    ensures Least(s, (set o | o in current), all, resource, health)
  {
    forall lo', hi' | Hull(s, lo', hi')
      ensures forall o <- all :: Eligible(o, resource, health) && Touches(o, lo', hi') ==> o in s
    {
      HullIsUnique(s, lo, hi, lo', hi');
    }
  }

  lemma {:induction false} GrownEnough(s: set<Observation>, lo: int, hi: int, current: seq<Observation>,
                                       all: seq<Observation>, resource: string, health: Health)
    returns (t: set<Observation>)
    requires Growing(s, lo, hi, current, all, resource, health)
    ensures Expanded(t, current, all, resource, health)
    decreases (set o | o in all) - s
  {
    if o :| o in all && Eligible(o, resource, health) && Touches(o, lo, hi) && o !in s {
      GrowingStep(s, lo, hi, o, current, all, resource, health);
      PoolShrinks((set p | p in all), s, s, o);
      t := GrownEnough(s + {o}, if o.start < lo then o.start else lo, if hi < o.end then o.end else hi,
                       current, all, resource, health);
    } else {
      GrownIsLeast(s, lo, hi, current, all, resource, health);
      t := s;
    }
  }

  /** Least closed, with a hull, and with nothing in it but the selection and eligible observations. */
  ghost predicate Expanded(t: set<Observation>, current: seq<Observation>, all: seq<Observation>, resource: string, health: Health) {
    && Least(t, (set o | o in current), all, resource, health) && HasHull(t)
    && forall o <- t :: o in current || (o in all && Eligible(o, resource, health))
  }

  /** Every selection has an expansion. */
  lemma ExpansionExists(current: seq<Observation>, all: seq<Observation>, resource: string, health: Health)
    requires current != []
    ensures exists t :: Expanded(t, current, all, resource, health)
  {
    var w := Window(current);
    var t := GrownEnough((set o | o in current), w.0, w.1, current, all, resource, health);
  }

  /** The expansion of a selection. */
  ghost function Expansion(current: seq<Observation>, all: seq<Observation>, resource: string, health: Health): (t: set<Observation>)
    requires current != []
    ensures Expanded(t, current, all, resource, health)
  {
    ExpansionExists(current, all, resource, health);
    var t :| Expanded(t, current, all, resource, health);
    t
  }

  ghost function StartOf(s: set<Observation>): (lo: int)
    requires HasHull(s)
    ensures forall lo', hi' :: Hull(s, lo', hi') ==> lo' == lo
  {
    var lo, hi :| Hull(s, lo, hi);
    assert forall lo', hi' :: Hull(s, lo', hi') ==> lo' == lo by {
      forall lo', hi' | Hull(s, lo', hi') ensures lo' == lo { HullIsUnique(s, lo, hi, lo', hi'); }
    }
    lo
  }

  lemma ExpandedIsExpansion(s: set<Observation>, lo: int, hi: int, current: seq<Observation>, all: seq<Observation>,
                            resource: string, health: Health)
    requires current != [] && Least(s, (set o | o in current), all, resource, health) && Hull(s, lo, hi)
    ensures s == Expansion(current, all, resource, health) && lo == StartOf(s)
  {
  }

  /** The nested loop of `prepare`: pass over the observations until a pass adds none. */
  method Expand(observations: seq<Observation>, current: seq<Observation>, resource: string, health: Health)
    returns (expanded: set<Observation>, lo: int, hi: int)
    requires current != []
    ensures Least(expanded, (set o | o in current), observations, resource, health)
    ensures Hull(expanded, lo, hi) && expanded == Expansion(current, observations, resource, health)
    ensures forall o <- expanded :: o in current || (o in observations && Eligible(o, resource, health))
    ensures forall o <- observations :: Eligible(o, resource, health) && o !in expanded ==> !Touches(o, lo, hi)
  {
    ghost var pool := set o | o in observations;
    var window := Window(current);
    lo, hi := window.0, window.1;
    expanded := set o | o in current;
    var changed := true;
    while changed
      invariant Growing(expanded, lo, hi, current, observations, resource, health)
      invariant !changed ==> NothingMissing(expanded, lo, hi, observations, resource, health)
      decreases pool - expanded, changed
    {
      changed := false;
      ghost var before := expanded;
      for i := 0 to |observations|
        invariant Growing(expanded, lo, hi, current, observations, resource, health)
        invariant if changed then pool - expanded < pool - before else expanded == before
        invariant !changed ==> NothingMissing(expanded, lo, hi, observations[..i], resource, health)
      {
        var candidate := observations[i];
        if candidate in expanded || !Eligible(candidate, resource, health)
           || candidate.start > hi || candidate.end < lo {
          if !changed { OneMoreSeen(expanded, lo, hi, observations, i, resource, health); }
          continue;
        }
        GrowingStep(expanded, lo, hi, candidate, current, observations, resource, health);
        PoolShrinks(pool, before, expanded, candidate);
        expanded := expanded + {candidate};
        lo := if candidate.start < lo then candidate.start else lo;
        hi := if hi < candidate.end then candidate.end else hi;
        changed := true;
      }
      assert observations[..|observations|] == observations;
    }
    GrownIsExpansion(expanded, lo, hi, current, observations, resource, health);
  }

  lemma GrownIsExpansion(s: set<Observation>, lo: int, hi: int, current: seq<Observation>, all: seq<Observation>,
                         resource: string, health: Health)
    requires current != [] && Growing(s, lo, hi, current, all, resource, health)
    requires NothingMissing(s, lo, hi, all, resource, health)
    ensures Least(s, (set o | o in current), all, resource, health) && Hull(s, lo, hi)
    ensures s == Expansion(current, all, resource, health)
    ensures forall o <- s :: o in current || (o in all && Eligible(o, resource, health))
    ensures forall o <- all :: Eligible(o, resource, health) && o !in s ==> !Touches(o, lo, hi)
  {
    GrownIsLeast(s, lo, hi, current, all, resource, health);
    ExpandedIsExpansion(s, lo, hi, current, all, resource, health);
  }

  lemma ForcedStep(s: set<Observation>, lo: int, hi: int, o: Observation, selected: set<Observation>,
                   all: seq<Observation>, resource: string, health: Health)
    requires Hull(s, lo, hi) && Forced(s, selected, all, resource, health)
    requires o in all && Eligible(o, resource, health) && Touches(o, lo, hi)
    ensures Forced(s + {o}, selected, all, resource, health)
  {
    forall t: set<Observation> | selected <= t && Closed(t, all, resource, health) && HasHull(t)
      ensures s + {o} <= t
    {
      ForcedCandidate(s, lo, hi, o, t, all, resource, health);
    }
  }

  /** `min` of the starts and `max` of the ends. */
  function Window(os: seq<Observation>): (w: (int, int))
    requires os != []
    ensures Hull((set o | o in os), w.0, w.1)
  {
    if |os| == 1 then
      assert os[0] in (set o | o in os);
      (os[0].start, os[0].end)
    else
      var rest := Window(os[1..]);
      GrownHull((set o | o in os[1..]), rest.0, rest.1, os[0]);
      assert (set o | o in os) == (set o | o in os[1..]) + {os[0]};
      (if os[0].start < rest.0 then os[0].start else rest.0, if rest.1 < os[0].end then os[0].end else rest.1)
  }

  // ---------------------------------------------------------------- what the expansion is

  /** There is only one least closed set, so the result does not depend on the order in which the
      observations are visited: `again` may be any rearrangement of `all`, repetitions included. */
  lemma OrderDoesNotMatter(s: set<Observation>, t: set<Observation>, selected: set<Observation>,
                           all: seq<Observation>, again: seq<Observation>, resource: string, health: Health)
    requires selected != {} && (forall o :: o in all <==> o in again)
    requires Least(s, selected, all, resource, health) && Least(t, selected, again, resource, health)
    ensures s == t
  {
    NonEmptySetsHaveHulls(s);
    NonEmptySetsHaveHulls(t);
    assert Closed(t, all, resource, health);
    assert Closed(s, again, resource, health);
  }

  /** The citations a correlation request is built from: each observation's times under its id. */
  type Citations = map<nat, (int, int)>

  /** `_build_transition`: the window recomputed from the citations of the expanded observations. */
  method TransitionWindow(citations: Citations, ids: seq<nat>) returns (lo: int, hi: int)
    requires ids != [] && forall id <- ids :: id in citations
    ensures forall id <- ids :: lo <= citations[id].0 && citations[id].1 <= hi
    ensures exists id <- ids :: citations[id].0 == lo
    ensures exists id <- ids :: citations[id].1 == hi
  {
    lo, hi := citations[ids[0]].0, citations[ids[0]].1;
    for i := 1 to |ids|
      invariant forall id <- ids[..i] :: lo <= citations[id].0 && citations[id].1 <= hi
      invariant exists id <- ids[..i] :: citations[id].0 == lo
      invariant exists id <- ids[..i] :: citations[id].1 == hi
    {
      assert ids[..i + 1] == ids[..i] + [ids[i]];
      if citations[ids[i]].0 < lo { lo := citations[ids[i]].0; }
      if hi < citations[ids[i]].1 { hi := citations[ids[i]].1; }
    }
    assert ids[..|ids|] == ids;
  }

  /** The window the transition reports is the window the expansion ended with. */
  lemma TransitionWindowIsExpanded(expanded: set<Observation>, lo: int, hi: int, citations: Citations,
                                   ids: seq<nat>, lo': int, hi': int)
    requires Hull(expanded, lo, hi)
    requires forall o <- expanded :: o.id in ids && o.id in citations && citations[o.id] == (o.start, o.end)
    requires forall id <- ids :: exists o <- expanded :: o.id == id
    requires forall id <- ids :: id in citations && lo' <= citations[id].0 && citations[id].1 <= hi'
    requires exists id <- ids :: citations[id].0 == lo'
    requires exists id <- ids :: citations[id].1 == hi'
    ensures lo == lo' && hi == hi'
  {
    var first :| first in expanded && first.start == lo;
    var last :| last in expanded && last.end == hi;
    assert lo' <= citations[first.id].0 && citations[last.id].1 <= hi';
  }

  // ---------------------------------------------------------------- the previous healthy observation

  /** The observations that start no earlier than `p`. */
  function From(all: seq<Observation>, p: int): (r: seq<Observation>)
    ensures forall o :: o in r <==> o in all && p <= o.start
  {
    if all == [] then [] else (if p <= all[0].start then [all[0]] else []) + From(all[1..], p)
  }

  /** Nothing eligible that starts before `p` reaches the window grown without such observations. */
  ghost predicate NothingReachesBack(current: seq<Observation>, all: seq<Observation>, p: int, resource: string, health: Health)
    requires current != []
  {
    forall o <- all :: Eligible(o, resource, health) && o.start < p
      ==> o.end < StartOf(Expansion(current, From(all, p), resource, health))
  }

  /** The window that `Expand` returns starts no earlier than `p`, the end of the previous healthy
      observation, exactly when nothing eligible that starts before `p` reaches the window grown from the
      others. */
  lemma PreviousStaysBefore(current: seq<Observation>, all: seq<Observation>, p: int, resource: string, health: Health,
                            lo: int, hi: int)
    requires current != [] && (forall o <- current :: p <= o.start <= o.end)
    requires Hull(Expansion(current, all, resource, health), lo, hi)
    ensures p <= lo <==> NothingReachesBack(current, all, p, resource, health)
  {
    if NothingReachesBack(current, all, p, resource, health) {
      NotReachedBack(current, all, p, resource, health);
    } else {
      ReachedBack(current, all, p, resource, health, lo, hi);
    }
  }

  lemma RestrictedIsSmaller(current: seq<Observation>, all: seq<Observation>, p: int, resource: string, health: Health)
    requires current != []
    ensures Expansion(current, From(all, p), resource, health) <= Expansion(current, all, resource, health)
  {
    assert Closed(Expansion(current, all, resource, health), From(all, p), resource, health);
  }

  lemma ReachedBack(current: seq<Observation>, all: seq<Observation>, p: int, resource: string, health: Health,
                    lo: int, hi: int)
    requires current != [] && (forall o <- current :: p <= o.start <= o.end)
    requires !NothingReachesBack(current, all, p, resource, health)
    requires Hull(Expansion(current, all, resource, health), lo, hi)
    ensures lo < p
  {
    var full, later := Expansion(current, all, resource, health), Expansion(current, From(all, p), resource, health);
    var o :| o in all && Eligible(o, resource, health) && o.start < p && StartOf(later) <= o.end;
    RestrictedIsSmaller(current, all, p, resource, health);
    StartsEarlier(later, full, lo, hi);
    assert current[0] in full;
    assert Touches(o, lo, hi);
  }

  lemma StartsEarlier(part: set<Observation>, whole: set<Observation>, lo: int, hi: int)
    requires HasHull(part) && part <= whole && Hull(whole, lo, hi)
    ensures lo <= StartOf(part)
  {
    var lo', hi' :| Hull(part, lo', hi');
    var first :| first in part && first.start == lo';
    assert first in whole;
  }

  lemma NotReachedBack(current: seq<Observation>, all: seq<Observation>, p: int, resource: string, health: Health)
    requires current != [] && (forall o <- current :: p <= o.start)
    requires NothingReachesBack(current, all, p, resource, health)
    ensures p <= StartOf(Expansion(current, all, resource, health))
  {
    var full, later := Expansion(current, all, resource, health), Expansion(current, From(all, p), resource, health);
    forall lo, hi, o | Hull(later, lo, hi) && o in all && Eligible(o, resource, health) && Touches(o, lo, hi)
      ensures o in later
    {
      assert lo == StartOf(later);
      assert o in From(all, p);
    }
    assert Closed(later, all, resource, health);
    var lo, hi :| Hull(full, lo, hi);
    var first :| first in full && first.start == lo;
    assert first in later;
  }

  /** A test a caller can make beforehand: nothing eligible that starts before `p` lasts until `p`. */
  lemma NothingLastsUntil(current: seq<Observation>, all: seq<Observation>, p: int, resource: string, health: Health,
                          lo: int, hi: int)
    requires current != [] && (forall o <- current :: p <= o.start <= o.end)
    requires Hull(Expansion(current, all, resource, health), lo, hi)
    requires forall o <- all :: Eligible(o, resource, health) && o.start < p ==> o.end < p
    ensures p <= lo
  {
    var later := Expansion(current, From(all, p), resource, health);
    var first :| first in later && first.start == StartOf(later) by { var lo', hi' :| Hull(later, lo', hi'); }
    PreviousStaysBefore(current, all, p, resource, health, lo, hi);
  }

  /** An observation that starts before `p` and lasts into the selection is enough to reach behind it:
      the code compares the previous observation with the window as selected, not as grown. */
  lemma ExpansionMayOvertakePrevious(resource: string, health: Health, p: int)
    ensures var selected := Observation(1, resource, health, true, p, p + 100);
            var early := Observation(2, resource, health, true, p - 50, p + 50);
            var grown := Expansion([selected], [selected, early], resource, health);
            grown == {selected, early} && StartOf(grown) == p - 50
  {
    var selected := Observation(1, resource, health, true, p, p + 100);
    var early := Observation(2, resource, health, true, p - 50, p + 50);
    var grown := Expansion([selected], [selected, early], resource, health);
    var lo, hi :| Hull(grown, lo, hi);
    assert selected in [selected] && selected in grown;
    assert early in [selected, early] && Touches(early, lo, hi);
    assert early in grown;
    assert forall o <- grown :: o == selected || o == early;
  }
}
