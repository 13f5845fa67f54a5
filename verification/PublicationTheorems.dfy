/** What every interleaving of publishers keeps, told in terms of the blobs themselves. */
module PublicationTheorems {
  import opened Options
  import opened IncidentDocuments
  import opened Publication
  import opened PublicationSystem

  function After(anchor: Anchor, actions: seq<Action>): Sys {
    Execute(Init(anchor), actions)
  }

  lemma Reached(anchor: Anchor, actions: seq<Action>)
    ensures Inv(After(anchor, actions)) && After(anchor, actions).anchor == anchor
  {
    InitInv(anchor);
    ExecutionKeepsInv(Init(anchor), actions);
  }

  lemma {:induction false} ExecuteOneMore(sys: Sys, actions: seq<Action>, action: Action)
    ensures Execute(sys, actions + [action]) == Step(Execute(sys, actions), action)
    decreases |actions|
  {
    if actions == [] {
      assert [action][1..] == [];
    } else {
      assert (actions + [action])[1..] == actions[1..] + [action];
      ExecuteOneMore(Step(sys, actions[0]), actions[1..], action);
    }
  }

  function CurrentPointer(s: Store, id: IncidentId): Option<Pointer> {
    if Current(id) in s.blobs && s.blobs[Current(id)].payload.PointerDoc?
    then Some(s.blobs[Current(id)].payload.pointer) else None
  }

  // ---------------------------------------------------------------- no lost update

  lemma SnapshotIsLastCommit(sys: Sys)
    requires Inv(sys)
    ensures Snapshot(sys.store) == BasisAt(sys.commits, |sys.commits|)
  {
  }

  /** Only a successful swap by a publisher that is about to write the index changes active.json, and
      what it replaces is exactly the snapshot that publisher built its request from. */
  lemma IndexChangeReplacesItsBasis(anchor: Anchor, actions: seq<Action>, action: Action)
    requires Snapshot(After(anchor, actions + [action]).store) != Snapshot(After(anchor, actions).store)
    ensures var before := After(anchor, actions); var after := After(anchor, actions + [action]);
            && action.Call? && action.pid in before.works && before.works[action.pid].IndexWork?
            && before.works[action.pid].basis == Snapshot(before.store)
            && Snapshot(after.store) == Some(NextIndex(anchor, before.works[action.pid].change, Snapshot(before.store)))
            && (Snapshot(before.store).Some? ==>
                  Snapshot(before.store).value.publishedAt < Snapshot(after.store).value.publishedAt)
  {
    ExecuteOneMore(Init(anchor), actions, action);
    Reached(anchor, actions);
    Reached(anchor, actions + [action]);
    ChangeReplacesBasis(After(anchor, actions), action);
  }

  /** One step adds at most one commit, that of the process called. */
  lemma StepCommits(sys: Sys, action: Action)
    requires Step(sys, action).commits != sys.commits
    ensures action.Call? && action.pid in sys.works && sys.works[action.pid].IndexWork?
    ensures var w := sys.works[action.pid];
            Step(sys, action).commits == sys.commits + [Commit(w.change, w.basis, w.proc.request.index)]
  {
  }

  lemma ChangeReplacesBasis(before: Sys, action: Action)
    requires Inv(before) && Inv(Step(before, action)) && Step(before, action).anchor == before.anchor
    requires Snapshot(Step(before, action).store) != Snapshot(before.store)
    ensures var after := Step(before, action);
            && action.Call? && action.pid in before.works && before.works[action.pid].IndexWork?
            && before.works[action.pid].basis == Snapshot(before.store)
            && Snapshot(after.store)
                 == Some(NextIndex(before.anchor, before.works[action.pid].change, Snapshot(before.store)))
            && (Snapshot(before.store).Some? ==>
                  Snapshot(before.store).value.publishedAt < Snapshot(after.store).value.publishedAt)
  {
    var after := Step(before, action);
    SnapshotIsLastCommit(before);
    SnapshotIsLastCommit(after);
    assert after.commits != before.commits;
    StepCommits(before, action);
    var n := |before.commits|;
    assert CommitInv(after.anchor, after.store, after.pointers, after.commits, n);
    assert BasisAt(after.commits, n) == BasisAt(before.commits, n);
  }

  function Changes(commits: seq<Commit>): (changes: seq<Change>)
    ensures |changes| == |commits|
  {
    seq(|commits|, k requires 0 <= k < |commits| => commits[k].change)
  }

  /** The index that results from applying the changes one after the other. */
  function Fold(anchor: Anchor, changes: seq<Change>): Option<Index> {
    if changes == [] then None
    else Some(NextIndex(anchor, changes[|changes| - 1], Fold(anchor, changes[..|changes| - 1])))
  }

  lemma {:induction false} CommitsFold(sys: Sys, k: nat)
    requires CommitsInv(sys) && k <= |sys.commits|
    ensures Fold(sys.anchor, Changes(sys.commits)[..k]) == BasisAt(sys.commits, k)
  {
    if k > 0 {
      CommitsFold(sys, k - 1);
      assert CommitInv(sys.anchor, sys.store, sys.pointers, sys.commits, k - 1);
      assert Changes(sys.commits)[..k][..k - 1] == Changes(sys.commits)[..k - 1];
    }
  }

  /** The stored index is the fold of every committed change in commit order. */
  lemma IndexIsFoldOfChanges(anchor: Anchor, actions: seq<Action>)
    ensures var sys := After(anchor, actions); Snapshot(sys.store) == Fold(anchor, Changes(sys.commits))
  {
    var sys := After(anchor, actions);
    Reached(anchor, actions);
    SnapshotIsLastCommit(sys);
    CommitsFold(sys, |sys.commits|);
    assert Changes(sys.commits)[..|sys.commits|] == Changes(sys.commits);
  }

  lemma {:induction false} CommitsIncrease(sys: Sys, i: nat, j: nat)
    requires CommitsInv(sys) && i < j < |sys.commits|
    ensures sys.commits[i].index.publishedAt < sys.commits[j].index.publishedAt
    decreases j
  {
    assert CommitInv(sys.anchor, sys.store, sys.pointers, sys.commits, j);
    if i < j - 1 { CommitsIncrease(sys, i, j - 1); }
  }

  /** No value of active.json ever comes back: two moments with the same index have had no other
      index in between. */
  lemma IndexNeverRecurs(anchor: Anchor, first: seq<Action>, second: seq<Action>, third: seq<Action>)
    requires first <= second <= third
    requires Snapshot(After(anchor, first).store).Some?
    requires Snapshot(After(anchor, first).store) == Snapshot(After(anchor, third).store)
    ensures Snapshot(After(anchor, second).store) == Snapshot(After(anchor, first).store)
  {
    SnapshotsGrow(anchor, first, second);
    SnapshotsGrow(anchor, second, third);
  }

  lemma {:induction false} SnapshotsGrow(anchor: Anchor, early: seq<Action>, late: seq<Action>)
    requires early <= late && Snapshot(After(anchor, early).store).Some?
    ensures var a, b := Snapshot(After(anchor, early).store), Snapshot(After(anchor, late).store);
            b == a || (b.Some? && a.value.publishedAt < b.value.publishedAt)
    decreases |late|
  {
    if early != late {
      var front := late[..|late| - 1];
      assert late == front + [late[|late| - 1]];
      SnapshotsGrow(anchor, early, front);
      if Snapshot(After(anchor, late).store) != Snapshot(After(anchor, front).store) {
        IndexChangeReplacesItsBasis(anchor, front, late[|late| - 1]);
      }
    }
  }

  // ---------------------------------------------------------------- referential integrity

  ghost predicate Names(s: Store, n: Name, digest: Digest) {
    n in s.blobs && Intact(s.blobs[n]) && Sha(s.blobs[n].payload) == digest
  }

  /** The blob at `n` is an attestation by the deployment's key over `message`. */
  ghost predicate Attests(anchor: Anchor, s: Store, n: Name, message: Payload) {
    && n in s.blobs && Intact(s.blobs[n])
    && match s.blobs[n].payload
       case PointerAttestation(digest, key, sig) =>
         digest == Sha(message) && key == anchor.vaultKey && Verifies(anchor, message, sig)
       case IndexAttestation(digest, key, sig) =>
         digest == Sha(message) && key == anchor.vaultKey && Verifies(anchor, message, sig)
       case StateAttestation(digest, key, sig) =>
         digest == Sha(message) && key == anchor.vaultKey && Verifies(anchor, message, sig)
       case _ => false
  }

  ghost predicate PointerResolves(anchor: Anchor, s: Store, p: Pointer) {
    && p.trust == anchor.trust
    && Names(s, State(p.incident, p.version), p.stateSha)
    && Names(s, StateAtt(p.incident, p.version), p.attestationSha)
    && Names(s, PointerCopy(p.incident, p.version), Sha(PointerDoc(p)))
    && Attests(anchor, s, PointerAtt(p.incident, p.version), PointerDoc(p))
    && var state := s.blobs[State(p.incident, p.version)].payload;
       && state.StateDoc? && state.body.incident == p.incident && state.resultDigest == p.version
       && Attests(anchor, s, StateAtt(p.incident, p.version), StatePreimage(state.body))
  }

  lemma StoredPointerResolves(anchor: Anchor, s: Store, p: Pointer)
    requires PointerStored(anchor, s, p)
    ensures PointerResolves(anchor, s, p)
  {
  }

  /** In every reachable state, crashed publishers and all: whatever the mutable blobs name is stored
      with the digest they name, and is signed. */
  lemma ReferentialIntegrity(anchor: Anchor, actions: seq<Action>)
    ensures var s := After(anchor, actions).store;
            && (forall id: IncidentId :: Current(id) in s.blobs ==>
                  CurrentPointer(s, id).Some? && CurrentPointer(s, id).value.incident == id
                  && PointerResolves(anchor, s, CurrentPointer(s, id).value))
            && (ActiveIndex in s.blobs ==>
                  && Snapshot(s).Some? && Snapshot(s).value.trust == anchor.trust
                  && Attests(anchor, s, IndexAtt(Snapshot(s).value.attestationVersion), IndexDoc(Snapshot(s).value))
                  && forall id <- Snapshot(s).value.entries :: var e := Snapshot(s).value.entries[id];
                       Names(s, PointerCopy(id, e.version), e.pointerSha))
            && (RuntimeManifest in s.blobs ==>
                  && s.blobs[RuntimeManifest].payload.ManifestDoc?
                  && var m := s.blobs[RuntimeManifest].payload.manifest;
                     |m.assets| == 6 && forall k :: 0 <= k < 6 ==> Names(s, Live(m.run, k), m.assets[k]))
  {
    var sys := After(anchor, actions);
    var s := sys.store;
    Reached(anchor, actions);
    forall id: IncidentId | Current(id) in s.blobs
      ensures CurrentPointer(s, id).Some? && CurrentPointer(s, id).value.incident == id
              && PointerResolves(anchor, s, CurrentPointer(s, id).value)
    {
      CurrentIsLogged(sys, id);
      StoredPointerResolves(anchor, s, CurrentPointer(s, id).value);
    }
    if ActiveIndex in s.blobs { IndexIntegrity(sys); }
    if RuntimeManifest in s.blobs {
      var m := s.blobs[RuntimeManifest].payload.manifest;
      forall k | 0 <= k < 6 ensures Names(s, Live(m.run, k), m.assets[k]) { assert LiveStored(s, m, k); }
    }
  }

  lemma CurrentIsLogged(sys: Sys, id: IncidentId)
    requires Inv(sys) && Current(id) in sys.store.blobs
    ensures CurrentPointer(sys.store, id) == LastPointer(sys.pointers, id)
    ensures CurrentPointer(sys.store, id).Some? && CurrentPointer(sys.store, id).value in sys.pointers
    ensures CurrentPointer(sys.store, id).value.incident == id
  {
    assert CurrentInv(sys.store, sys.pointers, id);
    LastPointerIsNewest(sys.pointers, id);
  }

  lemma BackingPointer(pointers: seq<Pointer>, id: IncidentId, e: Entry) returns (p: Pointer)
    requires EntryBacked(pointers, id, e)
    ensures p in pointers && p.incident == id && p.version == e.version && e.pointerSha == Sha(PointerDoc(p))
  {
    p :| p in pointers && p.incident == id && p.version == e.version && e.pointerSha == Sha(PointerDoc(p));
  }

  lemma LastCommitIsGood(sys: Sys)
    requires CommitsInv(sys) && ActiveIndex in sys.store.blobs
    ensures Snapshot(sys.store).Some?
    ensures IndexStored(sys.anchor, sys.store, Snapshot(sys.store).value)
    ensures EntriesBacked(sys.pointers, Snapshot(sys.store).value)
  {
    assert CommitInv(sys.anchor, sys.store, sys.pointers, sys.commits, |sys.commits| - 1);
  }

  lemma EntryIsLogged(sys: Sys, id: IncidentId) returns (p: Pointer)
    requires CommitsInv(sys) && Snapshot(sys.store).Some? && id in Snapshot(sys.store).value.entries
    ensures p in sys.pointers && p.incident == id
    ensures var e := Snapshot(sys.store).value.entries[id];
            p.version == e.version && e.pointerSha == Sha(PointerDoc(p))
  {
    LastCommitIsGood(sys);
    p := BackingPointer(sys.pointers, id, Snapshot(sys.store).value.entries[id]);
  }

  lemma IndexIntegrity(sys: Sys)
    requires Inv(sys) && ActiveIndex in sys.store.blobs
    ensures var s := sys.store;
            && Snapshot(s).Some? && Snapshot(s).value.trust == sys.anchor.trust
            && Attests(sys.anchor, s, IndexAtt(Snapshot(s).value.attestationVersion), IndexDoc(Snapshot(s).value))
            && forall id <- Snapshot(s).value.entries :: var e := Snapshot(s).value.entries[id];
                 Names(s, PointerCopy(id, e.version), e.pointerSha)
  {
    var s := sys.store;
    LastCommitIsGood(sys);
    forall id <- Snapshot(s).value.entries
      ensures var e := Snapshot(s).value.entries[id]; Names(s, PointerCopy(id, e.version), e.pointerSha)
    {
      var p := EntryIsLogged(sys, id);
      assert PointerStored(sys.anchor, s, p);
    }
  }

  // ---------------------------------------------------------------- the index never runs ahead

  lemma NewestIsCurrent(sys: Sys, p: Pointer)
    requires Inv(sys) && sys.pointers != [] && sys.pointers[|sys.pointers| - 1] == p
    ensures CurrentPointer(sys.store, p.incident) == Some(p)
  {
    assert CurrentInv(sys.store, sys.pointers, p.incident);
  }

  lemma NewlyLoggedIsCurrent(anchor: Anchor, actions: seq<Action>, action: Action, p: Pointer)
    requires p in After(anchor, actions + [action]).pointers && p !in After(anchor, actions).pointers
    ensures CurrentPointer(After(anchor, actions + [action]).store, p.incident) == Some(p)
  {
    var before, after := After(anchor, actions), After(anchor, actions + [action]);
    ExecuteOneMore(Init(anchor), actions, action);
    Reached(anchor, actions + [action]);
    StepPointers(before, action);
    NewestIsCurrent(after, p);
  }

  /** Every logged pointer is a value current.json had at some earlier moment of the same run. */
  lemma {:induction false} LoggedWasCurrent(anchor: Anchor, actions: seq<Action>, p: Pointer) returns (k: nat)
    requires p in After(anchor, actions).pointers
    ensures k <= |actions| && CurrentPointer(After(anchor, actions[..k]).store, p.incident) == Some(p)
    decreases |actions|
  {
    k := |actions|;
    assert actions[..k] == actions;
    if actions != [] {
      var front, last := actions[..|actions| - 1], actions[|actions| - 1];
      assert actions == front + [last];
      if p in After(anchor, front).pointers {
        k := LoggedWasCurrent(anchor, front, p);
        assert front[..k] == actions[..k];
      } else {
        NewlyLoggedIsCurrent(anchor, front, last, p);
      }
    }
  }

  /** The pointer an active entry names is a present or past value of that incident's current.json. */
  lemma IndexNeverAheadOfPointer(anchor: Anchor, actions: seq<Action>, id: IncidentId) returns (k: nat)
    requires var s := After(anchor, actions).store; Snapshot(s).Some? && id in Snapshot(s).value.entries
    ensures k <= |actions|
    ensures var e := Snapshot(After(anchor, actions).store).value.entries[id];
            var was := CurrentPointer(After(anchor, actions[..k]).store, id);
            was.Some? && was.value.version == e.version && Sha(PointerDoc(was.value)) == e.pointerSha
  {
    Reached(anchor, actions);
    var p := EntryIsLogged(After(anchor, actions), id);
    k := LoggedWasCurrent(anchor, actions, p);
  }

  /** current.json of an incident only ever moves to a strictly newer pointer, and is never removed. */
  lemma PointerChangesAreNewer(anchor: Anchor, actions: seq<Action>, action: Action, id: IncidentId)
    requires CurrentPointer(After(anchor, actions).store, id).Some?
    ensures var before := CurrentPointer(After(anchor, actions).store, id);
            var after := CurrentPointer(After(anchor, actions + [action]).store, id);
            after == before || (after.Some? && before.value.publishedAt < after.value.publishedAt)
  {
    ExecuteOneMore(Init(anchor), actions, action);
    Reached(anchor, actions);
    Reached(anchor, actions + [action]);
    StepPointers(After(anchor, actions), action);
    StepKeepsInv(After(anchor, actions), action);
    LaterPointerIsNewer(After(anchor, actions), After(anchor, actions + [action]), id);
  }

  /** The log of pointers only grows, by at most one a step. */
  lemma StepPointers(sys: Sys, action: Action)
    ensures var after := Step(sys, action).pointers;
            after == sys.pointers || exists q :: after == sys.pointers + [q]
    ensures sys.pointers <= Step(sys, action).pointers
  {
  }

  lemma LaterPointerIsNewer(before: Sys, after: Sys, id: IncidentId)
    requires Inv(before) && Inv(after) && before.pointers <= after.pointers && Grows(before.store, after.store)
    requires CurrentPointer(before.store, id).Some?
    ensures var was, later := CurrentPointer(before.store, id), CurrentPointer(after.store, id);
            later == was || (later.Some? && was.value.publishedAt < later.value.publishedAt)
  {
    CurrentIsLogged(before, id);
    CurrentIsLogged(after, id);
    var p := CurrentPointer(before.store, id).value;
    assert p in after.pointers;
    LastPointerIsNewest(after.pointers, id);
    LastIsUnique(after.pointers, id, p);
  }

  /** In an ordered log no other pointer of the incident has the newest time. */
  lemma LastIsUnique(pointers: seq<Pointer>, id: IncidentId, p: Pointer)
    requires PointerOrder(pointers) && p in pointers && p.incident == id
    ensures var last := LastPointer(pointers, id);
            last.Some? && (p == last.value || p.publishedAt < last.value.publishedAt)
  {
    LastPointerIsNewest(pointers, id);
    var last := LastPointer(pointers, id).value;
    var i :| 0 <= i < |pointers| && pointers[i] == p;
    var j :| 0 <= j < |pointers| && pointers[j] == last;
  }
}
