/** What the active index says, told from the committed publications alone: who is in it, with what, and
    what a change leaves as it was. */
module IndexContents {

  import opened Options
  import opened IncidentDocuments
  import opened Publication
  import opened PublicationSystem
  import opened PublicationTheorems

  /** The entry of an incident whose state `body` was published at `at`. */
  ghost predicate EntrySays(anchor: Anchor, e: Entry, body: StateBody, at: Millis) {
    var result := Sha(StatePreimage(body));
    var attestation := StateAttestation(result, anchor.vaultKey, Signed(anchor.vaultKey, StatePreimage(body)));
    var published := if at < body.updatedAt then body.updatedAt else at;
    && e.scenario == body.scenario && e.role == body.role
    && e.detectedAt == body.detectedAt && e.updatedAt == body.updatedAt
    && e.version == result
    && e.pointerSha == Sha(PointerDoc(Pointer(body.incident, result, Sha(StateDoc(body, result)), Sha(attestation),
                                              anchor.trust, published)))
  }

  ghost predicate Listed(index: Option<Index>, id: IncidentId) { index.Some? && id in index.value.entries }

  /** Both indexes say the same of the incident. */
  ghost predicate SameEntry(a: Option<Index>, b: Option<Index>, id: IncidentId) {
    && (Listed(a, id) <==> Listed(b, id))
    && (Listed(a, id) ==> a.value.entries[id] == b.value.entries[id])
  }

  ghost predicate IsAbout(c: Change, id: IncidentId) { c.Publish? && c.body.incident == id }

  /** What a change makes of the index before it. */
  ghost predicate Applies(anchor: Anchor, c: Change, before: Option<Index>, after: Option<Index>) {
    && (forall id: IncidentId :: !IsAbout(c, id) ==> SameEntry(before, after, id))
    && (c.Publish? ==>
          && (Listed(after, c.body.incident) <==> c.body.lifecycle == Active)
          && (c.body.lifecycle == Active ==> EntrySays(anchor, after.value.entries[c.body.incident], c.body, c.at)))
  }

  lemma BuiltApplies(anchor: Anchor, c: Change, before: Option<Index>)
    ensures Applies(anchor, c, before, Some(NextIndex(anchor, c, before)))
  {
  }

  /** The new index is published at the time of the change or of the state, whichever is later, but at least a millisecond
      after the index it replaces. */
  ghost predicate Dated(c: Change, before: Option<Index>, after: Index) {
    var asked := if c.Publish? && c.at < c.body.updatedAt then c.body.updatedAt else c.at;
    after.publishedAt == if before.Some? && asked <= before.value.publishedAt then before.value.publishedAt + 1 else asked
  }

  lemma NewIndexIsDated(anchor: Anchor, c: Change, before: Option<Index>)
    requires before.Some? ==> NextIndex(anchor, c, before) != before.value
    ensures Dated(c, before, NextIndex(anchor, c, before))
  {
  }

  /** A built request asks for the index it was built from exactly when the publication changes nothing. */
  lemma UnchangedIsReused(anchor: Anchor, c: Change, before: Index)
    requires before.trust == anchor.trust && Build(anchor, c, Some(before)).Some?
    ensures Build(anchor, c, Some(before)).value.index == before
       <==> && c.Publish?
            && (c.body.lifecycle == Active <==> c.body.incident in before.entries)
            && (c.body.lifecycle == Active ==> EntrySays(anchor, before.entries[c.body.incident], c.body, c.at))
  {
    BuiltApplies(anchor, c, Some(before));
    var after := NextIndex(anchor, c, Some(before));
    if c.Publish? && (c.body.lifecycle == Active <==> c.body.incident in before.entries)
       && (c.body.lifecycle == Active ==> EntrySays(anchor, before.entries[c.body.incident], c.body, c.at)) {
      SameEntryTwice(anchor, c, before);
    }
  }

  lemma SameEntryTwice(anchor: Anchor, c: Change, before: Index)
    requires c.Publish? && (c.body.lifecycle == Active <==> c.body.incident in before.entries)
    requires c.body.lifecycle == Active ==> EntrySays(anchor, before.entries[c.body.incident], c.body, c.at)
    ensures NextEntries(anchor, c, Some(before)) == before.entries
  {
  }

  // ---------------------------------------------------------------- one commit

  /** Every change of active.json is the commit of one publisher's change: it says of the published incident
      what its state says, and of every other incident, and after a heartbeat of all, what it said before. */
  lemma CommitKeepsOthers(anchor: Anchor, actions: seq<Action>, action: Action)
    requires Snapshot(After(anchor, actions + [action]).store) != Snapshot(After(anchor, actions).store)
    ensures var before, after := After(anchor, actions), After(anchor, actions + [action]);
            && action.Call? && action.pid in before.works && before.works[action.pid].IndexWork?
            && var c := before.works[action.pid].change;
               && Applies(anchor, c, Snapshot(before.store), Snapshot(after.store))
               && Snapshot(after.store).Some? && Dated(c, Snapshot(before.store), Snapshot(after.store).value)
  {
    IndexChangeReplacesItsBasis(anchor, actions, action);
    var before := After(anchor, actions);
    var c := before.works[action.pid].change;
    BuiltApplies(anchor, c, Snapshot(before.store));
    NewIndexIsDated(anchor, c, Snapshot(before.store));
  }

  // ---------------------------------------------------------------- all commits

  /** The `k`-th committed change is the last publication of the incident. */
  ghost predicate LastPublication(changes: seq<Change>, id: IncidentId, k: int) {
    && 0 <= k < |changes| && IsAbout(changes[k], id)
    && forall j :: k < j < |changes| ==> !IsAbout(changes[j], id)
  }

  /** The index says of the incident what its last publication said, and nothing if there was none. */
  ghost predicate SaysLast(anchor: Anchor, changes: seq<Change>, index: Option<Index>, id: IncidentId) {
    && (Listed(index, id) <==> exists k :: LastPublication(changes, id, k) && changes[k].body.lifecycle == Active)
    && (forall k :: LastPublication(changes, id, k) && Listed(index, id) ==>
          EntrySays(anchor, index.value.entries[id], changes[k].body, changes[k].at))
  }

  lemma OneMoreAbout(changes: seq<Change>, id: IncidentId, k: int)
    requires changes != [] && IsAbout(changes[|changes| - 1], id)
    ensures LastPublication(changes, id, k) <==> k == |changes| - 1
  {
  }

  lemma OneMoreAside(changes: seq<Change>, id: IncidentId, k: int)
    requires changes != [] && !IsAbout(changes[|changes| - 1], id)
    ensures LastPublication(changes, id, k) <==> LastPublication(changes[..|changes| - 1], id, k)
  {
    var front := changes[..|changes| - 1];
    assert forall j :: 0 <= j < |front| ==> front[j] == changes[j];
  }

  lemma SaysLastAbout(anchor: Anchor, changes: seq<Change>, before: Option<Index>, after: Option<Index>, id: IncidentId)
    requires changes != [] && IsAbout(changes[|changes| - 1], id) && Applies(anchor, changes[|changes| - 1], before, after)
    ensures SaysLast(anchor, changes, after, id)
  {
    var n := |changes| - 1;
    OneMoreAbout(changes, id, n);
    forall k | LastPublication(changes, id, k) ensures k == n { OneMoreAbout(changes, id, k); }
  }

  lemma SaysLastAside(anchor: Anchor, changes: seq<Change>, before: Option<Index>, after: Option<Index>, id: IncidentId)
    requires changes != [] && !IsAbout(changes[|changes| - 1], id) && Applies(anchor, changes[|changes| - 1], before, after)
    requires SaysLast(anchor, changes[..|changes| - 1], before, id)
    ensures SaysLast(anchor, changes, after, id)
  {
    var front := changes[..|changes| - 1];
    assert SameEntry(before, after, id);
    forall k: int ensures LastPublication(changes, id, k) <==> LastPublication(front, id, k) { OneMoreAside(changes, id, k); }
    forall k | LastPublication(changes, id, k) ensures LastPublication(front, id, k) && front[k] == changes[k] {
      OneMoreAside(changes, id, k);
    }
    if Listed(before, id) {
      var k :| LastPublication(front, id, k) && front[k].body.lifecycle == Active;
      assert LastPublication(changes, id, k) && changes[k] == front[k];
    }
  }

  lemma {:induction false} FoldSaysLast(anchor: Anchor, changes: seq<Change>, id: IncidentId)
    ensures SaysLast(anchor, changes, Fold(anchor, changes), id)
  {
    if changes != [] {
      var n := |changes| - 1;
      FoldSaysLast(anchor, changes[..n], id);
      BuiltApplies(anchor, changes[n], Fold(anchor, changes[..n]));
      if IsAbout(changes[n], id) {
        SaysLastAbout(anchor, changes, Fold(anchor, changes[..n]), Fold(anchor, changes), id);
      } else {
        SaysLastAside(anchor, changes, Fold(anchor, changes[..n]), Fold(anchor, changes), id);
      }
    }
  }

  /** In every reachable state an incident is in the stored index exactly when its last committed publication
      was of an active state, and its entry is that of this publication. */
  lemma IndexSaysLast(anchor: Anchor, actions: seq<Action>, id: IncidentId)
    ensures var sys := After(anchor, actions); SaysLast(anchor, Changes(sys.commits), Snapshot(sys.store), id)
  {
    IndexIsFoldOfChanges(anchor, actions);
    FoldSaysLast(anchor, Changes(After(anchor, actions).commits), id);
  }
}
