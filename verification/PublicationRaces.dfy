/** Of publishers that race for one mutable blob, at most one replaces what they have all read; the others are
    told of a conflict, whenever their own call arrives. */
module PublicationRaces {

  import opened Options
  import opened IncidentDocuments
  import opened Publication
  import opened PublicationSystem

  /** The mutable blob a publisher is about to replace, and what it read there. */
  ghost predicate Replaces(p: Proc, n: Name, basis: Option<Blob>) {
    || (p.pc == WritingIndex(basis) && n == ActiveIndex)
    || (p.pc == WritingPointer(basis) && p.request.IncidentRequest? && n == Current(p.request.pointer.incident))
  }

  /** Somebody else has written the blob since. */
  ghost predicate Overtaken(s: Store, n: Name, basis: Option<Blob>) {
    n in s.blobs && (basis.Some? ==> basis.value.stamp < s.clock && s.blobs[n].stamp != basis.value.stamp)
  }

  ghost predicate Concerns(action: Action, pid: nat) { action.pid == pid }

  ghost predicate Uninvolved(actions: seq<Action>, pid: nat) { forall a <- actions :: !Concerns(a, pid) }

  /** Once overtaken, always overtaken: no stamp is given twice. */
  lemma OvertakenStays(s: Store, t: Store, n: Name, basis: Option<Blob>)
    requires Overtaken(s, n, basis) && Grows(s, t)
    ensures Overtaken(t, n, basis)
  {
  }

  lemma OthersLeaveWork(sys: Sys, action: Action, pid: nat)
    requires pid in sys.works && !Concerns(action, pid)
    ensures pid in Step(sys, action).works && Step(sys, action).works[pid] == sys.works[pid]
  {
  }

  lemma {:induction false} OthersLeaveItAlone(sys: Sys, actions: seq<Action>, pid: nat)
    requires pid in sys.works && Uninvolved(actions, pid)
    ensures var after := Execute(sys, actions); pid in after.works && after.works[pid] == sys.works[pid]
    decreases |actions|
  {
    if actions != [] {
      assert actions[0] in actions;
      OthersLeaveWork(sys, actions[0], pid);
      OthersLeaveItAlone(Step(sys, actions[0]), actions[1..], pid);
    }
  }

  /** A publisher that has been overtaken writes nothing, however much later it calls and whatever becomes of the
      call, and it is told of a conflict if the service answers. */
  lemma OvertakenIsTold(sys: Sys, pid: nat, n: Name, basis: Option<Blob>, actions: seq<Action>, f: Fault)
    requires Inv(sys) && pid in sys.works && Replaces(sys.works[pid].proc, n, basis)
    requires Overtaken(sys.store, n, basis) && Uninvolved(actions, pid)
    ensures var before := Execute(sys, actions); var after := Step(before, Call(pid, f));
            && after.store == before.store && after.pointers == before.pointers && after.commits == before.commits
            && pid in after.works
            && after.works[pid].proc.pc == Stopped(if f == Smooth || f == NoVersion then Conflict else Transport)
  {
    ExecutionKeepsInv(sys, actions);
    OthersLeaveItAlone(sys, actions, pid);
    var before := Execute(sys, actions);
    OvertakenStays(sys.store, before.store, n, basis);
    OvertakenCall(before, pid, n, basis, f);
  }

  lemma OvertakenCall(sys: Sys, pid: nat, n: Name, basis: Option<Blob>, f: Fault)
    requires pid in sys.works && WellPlaced(sys.works[pid].proc) && Replaces(sys.works[pid].proc, n, basis)
    requires Overtaken(sys.store, n, basis)
    ensures var after := Step(sys, Call(pid, f));
            && after.store == sys.store && after.pointers == sys.pointers && after.commits == sys.commits
            && pid in after.works
            && after.works[pid].proc.pc == Stopped(if f == Smooth || f == NoVersion then Conflict else Transport)
  {
  }

  /** Whoever replaces the blob overtakes all that have read the same state of it. */
  lemma WinnerOvertakes(sys: Sys, winner: nat, n: Name, basis: Option<Blob>, f: Fault)
    requires Inv(sys) && winner in sys.works && Replaces(sys.works[winner].proc, n, basis)
    requires CallStep(sys, winner, f).store != sys.store
    ensures Overtaken(CallStep(sys, winner, f).store, n, basis)
  {
    CallEffect(sys, winner, f);
    assert WorkInv(sys, sys.works[winner]);
    assert Remembers(sys.store, n, basis);
  }

  /** Two publishers have read one state of a blob. If the call of one is applied, the other never replaces the
      blob and is told so. */
  lemma OnlyOneWins(sys: Sys, winner: nat, loser: nat, n: Name, basis: Option<Blob>, f: Fault, actions: seq<Action>, g: Fault)
    requires Inv(sys) && winner != loser && winner in sys.works && loser in sys.works
    requires Replaces(sys.works[winner].proc, n, basis) && Replaces(sys.works[loser].proc, n, basis)
    requires Step(sys, Call(winner, f)).store != sys.store && Uninvolved(actions, loser)
    ensures var before := Execute(Step(sys, Call(winner, f)), actions); var after := Step(before, Call(loser, g));
            && after.store == before.store && after.pointers == before.pointers && after.commits == before.commits
            && loser in after.works
            && after.works[loser].proc.pc == Stopped(if g == Smooth || g == NoVersion then Conflict else Transport)
  {
    var next := Step(sys, Call(winner, f));
    assert next == CallStep(sys, winner, f);
    StepKeepsInv(sys, Call(winner, f));
    OthersLeaveWork(sys, Call(winner, f), loser);
    WinnerOvertakes(sys, winner, n, basis, f);
    OvertakenIsTold(next, loser, n, basis, actions, g);
  }
}
