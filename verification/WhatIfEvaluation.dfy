/** The what-if evaluation as a whole, and exactly when it finds nothing to report. */
module WhatIfEvaluation {

  import opened Options
  import opened PreflightWalks
  import opened WhatIf

  /** `_what_if_changes`, for a document whose shape has been accepted. */
  function ChangesOf(t: Text, document: Json): Option<seq<Json>> {
    if !document.JObject? then None
    else
      var status := RequireString(t, Get(t, document.fields, "status"), 64);
      var error := Get(t, document.fields, "error");
      var properties := Get(t, document.fields, "properties");
      if status.None? || t.Normalized(status.value) != "succeeded" || (error != JNull && error != JObject([])) then None
      else if properties != JNull && !properties.JObject? then None
      else
        var changes := Get(t, if properties == JNull then document.fields else properties.fields, "changes");
        if changes.JArray? && |changes.items| <= MAX_CHANGES then Some(changes.items) else None
  }

  function About(codes: seq<Code>, subject: string): seq<Violation> {
    seq(|codes|, i requires 0 <= i < |codes| => Violation(codes[i], subject))
  }

  datatype Kind = NoChange | Ignore | Deletion | Deploy | Create | Modify | Unsupported

  function KindOf(text: string): Kind {
    if text == "nochange" then NoChange
    else if text == "ignore" then Ignore
    else if text == "delete" then Deletion
    else if text == "deploy" then Deploy
    else if text == "create" then Create
    else if text == "modify" then Modify
    else Unsupported
  }

  /** A create or modify: on the allowlist, and nothing unsafe in it. */
  function Reviewed(t: Text, id: string, kind: Kind, change: seq<(string, Json)>, allowed: set<string>): Option<seq<Violation>> {
    var unsafe := UnsafeProperties(t, id, kind == Create, change);
    if unsafe.None? then None
    else Some(About(When(t.Normalized(id) !in allowed, UnapprovedChange) + unsafe.value, id))
  }

  function Judge(t: Text, id: string, kind: Kind, change: seq<(string, Json)>, allowed: set<string>): Option<seq<Violation>> {
    match kind
    case NoChange => Some([])
    case Ignore => Some([Violation(IgnoredChange, id)])
    case Deletion => Some([Violation(Delete, id)])
    case Deploy => Some([Violation(UnpredictableChange, id)])
    case Unsupported => Some([Violation(UnsupportedChangeType, id)])
    case Create => Reviewed(t, id, kind, change, allowed)
    case Modify => Reviewed(t, id, kind, change, allowed)
  }

  /** The resource and the kind of a change, if it states them. */
  function Heading(t: Text, change: seq<(string, Json)>): Option<(string, Kind)> {
    var id := RequireString(t, Get(t, change, "resourceId"), 4096);
    var kind := RequireString(t, Get(t, change, "changeType"), 64);
    if id.None? || kind.None? then None else Some((id.value, KindOf(t.Normalized(kind.value))))
  }

  /** One turn of the loop of `evaluate_what_if`. */
  function ChangeViolations(t: Text, change: Json, allowed: set<string>): Option<seq<Violation>> {
    if !change.JObject? then None
    else
      var heading := Heading(t, change.fields);
      if heading.None? then None else Judge(t, heading.value.0, heading.value.1, change.fields, allowed)
  }

  function Both(a: Option<seq<Violation>>, b: Option<seq<Violation>>): Option<seq<Violation>> {
    if a.Some? && b.Some? then Some(a.value + b.value) else None
  }

  function AllViolations(check: Json -> Option<seq<Violation>>, changes: seq<Json>): Option<seq<Violation>> {
    if changes == [] then Some([])
    else Both(AllViolations(check, changes[..|changes| - 1]), check(changes[|changes| - 1]))
  }

  /** `evaluate_what_if`. */
  function Evaluate(t: Text, document: Json, allowedIds: set<string>): Option<seq<Violation>> {
    if !(Height(document) <= MAX_DEPTH && Nodes(document) <= MAX_NODES && Clean(document)) then None
    else
      var changes, allowed := ChangesOf(t, document), set id <- allowedIds :: t.Normalized(id);
      if changes.None? then None else AllViolations(c => ChangeViolations(t, c, allowed), changes.value)
  }

  lemma OneMoreChange(check: Json -> Option<seq<Violation>>, changes: seq<Json>, i: nat)
    requires i < |changes|
    ensures AllViolations(check, changes[..i + 1]) == Both(AllViolations(check, changes[..i]), check(changes[i]))
  {
    assert changes[..i + 1][..i] == changes[..i];
  }

  lemma {:induction false} OneBadChange(check: Json -> Option<seq<Violation>>, changes: seq<Json>, i: nat)
    requires i < |changes| && check(changes[i]).None?
    ensures AllViolations(check, changes).None?
  {
    if i < |changes| - 1 { OneBadChange(check, changes[..|changes| - 1], i); }
  }

  method CheckChange(t: Text, change: Json, allowed: set<string>) returns (r: Option<seq<Violation>>)
    ensures r == ChangeViolations(t, change, allowed)
  {
    if !change.JObject? { return None; }
    var heading := Heading(t, change.fields);
    if heading.None? { return None; }
    var (id, kind) := heading.value;
    match kind {
      case NoChange => return Some([]);
      case Ignore => return Some([Violation(IgnoredChange, id)]);
      case Deletion => return Some([Violation(Delete, id)]);
      case Deploy => return Some([Violation(UnpredictableChange, id)]);
      case Unsupported => return Some([Violation(UnsupportedChangeType, id)]);
      case _ =>
    }
    var unapproved := When(t.Normalized(id) !in allowed, UnapprovedChange);
    var unsafe := UnsafePropertyViolations(t, id, kind == Create, change.fields);
    if unsafe.None? { return None; }
    return Some(About(unapproved + unsafe.value, id));
  }

  method EvaluateWhatIf(t: Text, document: Json, allowedIds: set<string>) returns (r: Option<seq<Violation>>)
    ensures r == Evaluate(t, document, allowedIds)
  {
    var shaped := ValidateJsonShape(document);
    if !shaped { return None; }
    var found, allowed := ChangesOf(t, document), set id <- allowedIds :: t.Normalized(id);
    if found.None? { return None; }
    var changes, violations := found.value, [];
    ghost var check := c => ChangeViolations(t, c, allowed);
    for i := 0 to |changes|
      invariant AllViolations(check, changes[..i]) == Some(violations)
    {
      OneMoreChange(check, changes, i);
      var one := CheckChange(t, changes[i], allowed);
      if one.None? {
        OneBadChange(check, changes, i);
        return None;
      }
      violations := violations + one.value;
    }
    assert changes[..|changes|] == changes;
    return Some(violations);
  }

  // ---------------------------------------------------------------- exactly when it is empty

  lemma {:induction false} FlatMapEmpty(check: Candidate -> seq<Code>, cs: seq<Candidate>)
    ensures FlatMap(check, cs) == [] <==> forall i :: 0 <= i < |cs| ==> check(cs[i]) == []
  {
    if cs != [] {
      var front := cs[..|cs| - 1];
      FlatMapEmpty(check, front);
      assert forall i :: 0 <= i < |front| ==> front[i] == cs[i];
      if forall i :: 0 <= i < |cs| ==> check(cs[i]) == [] {
        forall i | 0 <= i < |front| ensures check(front[i]) == [] { assert front[i] == cs[i]; }
      }
    }
  }

  lemma {:induction false} NothingToReport(check: Json -> Option<seq<Violation>>, changes: seq<Json>)
    requires AllViolations(check, changes).Some?
    ensures AllViolations(check, changes).value == [] <==> forall i :: 0 <= i < |changes| ==> check(changes[i]) == Some([])
  {
    if changes != [] {
      var front := changes[..|changes| - 1];
      NothingToReport(check, front);
      if forall i :: 0 <= i < |changes| ==> check(changes[i]) == Some([]) {
        forall i | 0 <= i < |front| ensures check(front[i]) == Some([]) { assert front[i] == changes[i]; }
      }
      if AllViolations(check, changes).value == [] {
        assert check(changes[|changes| - 1]) == Some([]);
        forall i | 0 <= i < |changes| ensures check(changes[i]) == Some([]) {
          if i < |front| { assert front[i] == changes[i]; }
        }
      }
    }
  }

  predicate AllFine(cs: seq<Candidate>, ok: Candidate -> bool) {
    forall i :: 0 <= i < |cs| ==> ok(cs[i])
  }

  lemma AllFineAppend(a: seq<Candidate>, b: seq<Candidate>, ok: Candidate -> bool)
    ensures AllFine(a + b, ok) <==> AllFine(a, ok) && AllFine(b, ok)
  {
    if AllFine(a + b, ok) {
      forall i | 0 <= i < |a| ensures ok(a[i]) { assert (a + b)[i] == a[i]; }
      forall i | 0 <= i < |b| ensures ok(b[i]) { assert (a + b)[|a| + i] == b[i]; }
    }
  }

  /** A condition holds of a delta item and, at every depth, of the items below it. */
  predicate FineThroughout(t: Text, item: Json, parent: string, ok: Candidate -> bool)
    requires item.JObject?
    decreases item
  {
    var own, below := Own(t, item, parent), Below(t, item);
    own.Some? && below.Some? && ok(own.value)
    && forall i :: 0 <= i < |below.value| ==> FineThroughout(t, below.value[i], own.value.path, ok)
  }

  lemma {:induction false} WalkFine(t: Text, item: Json, parent: string, ok: Candidate -> bool)
    requires item.JObject? && Walk(t, item, parent).Some?
    ensures AllFine(Walk(t, item, parent).value, ok) <==> FineThroughout(t, item, parent, ok)
    decreases item, 1, 0
  {
    var own, below := Own(t, item, parent), Below(t, item);
    WalkBelowFine(t, item, below.value, own.value.path, ok);
    AllFineAppend([own.value], WalkBelow(t, item, below.value, own.value.path).value, ok);
    assert AllFine([own.value], ok) <==> ok([own.value][0]);
  }

  lemma {:induction false} WalkBelowFine(t: Text, item: Json, children: seq<Json>, parent: string, ok: Candidate -> bool)
    requires forall i :: 0 <= i < |children| ==> children[i] < item && children[i].JObject?
    requires WalkBelow(t, item, children, parent).Some?
    ensures AllFine(WalkBelow(t, item, children, parent).value, ok)
       <==> forall i :: 0 <= i < |children| ==> FineThroughout(t, children[i], parent, ok)
    decreases item, 0, |children|
  {
    if children != [] {
      var rest := children[1..];
      WalkFine(t, children[0], parent, ok);
      WalkBelowFine(t, item, rest, parent, ok);
      AllFineAppend(Walk(t, children[0], parent).value, WalkBelow(t, item, rest, parent).value, ok);
      Shift(t, children, parent, ok);
    }
  }

  predicate AllThroughout(t: Text, items: seq<Json>, parent: string, ok: Candidate -> bool)
    requires forall i :: 0 <= i < |items| ==> items[i].JObject?
  {
    forall i :: 0 <= i < |items| ==> FineThroughout(t, items[i], parent, ok)
  }

  lemma Shift(t: Text, items: seq<Json>, parent: string, ok: Candidate -> bool)
    requires items != [] && forall i :: 0 <= i < |items| ==> items[i].JObject?
    ensures AllThroughout(t, items, parent, ok)
       <==> FineThroughout(t, items[0], parent, ok) && AllThroughout(t, items[1..], parent, ok)
  {
    var rest := items[1..];
    if AllThroughout(t, rest, parent, ok) && FineThroughout(t, items[0], parent, ok) {
      forall i | 0 <= i < |items| ensures FineThroughout(t, items[i], parent, ok) {
        if i > 0 { assert items[i] == rest[i - 1]; }
      }
    }
  }

  lemma {:induction false} WalkAllFine(t: Text, items: seq<Json>, ok: Candidate -> bool)
    requires (forall i :: 0 <= i < |items| ==> items[i].JObject?) && WalkAll(t, items).Some?
    ensures AllFine(WalkAll(t, items).value, ok) <==> AllThroughout(t, items, "", ok)
  {
    if items != [] {
      WalkFine(t, items[0], "", ok);
      WalkAllFine(t, items[1..], ok);
      AllFineAppend(Walk(t, items[0], "").value, WalkAll(t, items[1..]).value, ok);
      Shift(t, items, "", ok);
    }
  }

  function AtPlace(ok: Candidate -> bool): Place -> bool { (p: Place) => ok(Candidate(p.path, p.value, "set")) }

  lemma LeavesFine(v: Json, ok: Candidate -> bool)
    ensures AllFine(AsCandidates(Leaves(v, "<resource>")), ok) <==> Everywhere(v, "<resource>", AtPlace(ok))
  {
    var places := Leaves(v, "<resource>");
    var cs := AsCandidates(places);
    LeavesEverywhere(v, "<resource>", AtPlace(ok));
    if AllFine(cs, ok) {
      forall i | 0 <= i < |places| ensures AtPlace(ok)(places[i]) { assert ok(cs[i]); }
    }
    if AllOk(places, AtPlace(ok)) {
      forall i | 0 <= i < |cs| ensures ok(cs[i]) { assert AtPlace(ok)(places[i]); }
    }
  }

  /** Neither the delta, at any depth, nor the payload, at any depth, does anything unsafe. */
  ghost predicate NothingUnsafe(t: Text, change: seq<(string, Json)>, ok: Candidate -> bool) {
    var delta, after := Get(t, change, "delta"), Get(t, change, "after");
    && (delta != JNull ==> ObjectList(delta) && AllThroughout(t, delta.items, "", ok))
    && (!Scalar(after) ==> Everywhere(after, "<resource>", AtPlace(ok)))
  }

  lemma CandidatesFine(t: Text, change: seq<(string, Json)>, ok: Candidate -> bool)
    requires Candidates(t, change).Some?
    ensures AllFine(Candidates(t, change).value, ok) <==> NothingUnsafe(t, change, ok)
  {
    var delta, after := Get(t, change, "delta"), Get(t, change, "after");
    var first := if delta == JNull then [] else WalkAll(t, delta.items).value;
    var second := if Scalar(after) then [] else AsCandidates(Leaves(after, "<resource>"));
    if delta != JNull { WalkAllFine(t, delta.items, ok); }
    if !Scalar(after) { LeavesFine(after, ok); }
    AllFineAppend(first, second, ok);
  }

  function Harmless(t: Text, resource: string): Candidate -> bool { c => CandidateViolations(t, resource, c) == [] }

  /** A change that can be inspected, states its protections if it creates, and opens nothing. */
  ghost predicate Safe(t: Text, resource: string, creates: bool, change: seq<(string, Json)>)
    requires Candidates(t, change).Some?
  {
    && Candidates(t, change).value != []
    && (creates ==> ProtectionViolations(t, resource, Candidates(t, change).value) == [])
    && NothingUnsafe(t, change, Harmless(t, resource))
  }

  lemma SafeIsUnreported(t: Text, id: string, creates: bool, change: seq<(string, Json)>)
    requires UnsafeProperties(t, id, creates, change).Some?
    ensures UnsafeProperties(t, id, creates, change).value == [] <==> Safe(t, t.ResourceType(id).value, creates, change)
  {
    var resource, cs := t.ResourceType(id).value, Candidates(t, change).value;
    var check, ok := c => CandidateViolations(t, resource, c), Harmless(t, resource);
    CandidatesFine(t, change, ok);
    FlatMapEmpty(check, cs);
    assert AllFine(cs, ok) <==> forall i :: 0 <= i < |cs| ==> check(cs[i]) == [] by {
      if AllFine(cs, ok) {
        forall i | 0 <= i < |cs| ensures check(cs[i]) == [] { assert ok(cs[i]); }
      } else {
        var i :| 0 <= i < |cs| && !ok(cs[i]);
        assert check(cs[i]) != [];
      }
    }
  }

  lemma ReviewedIsUnreported(t: Text, id: string, kind: Kind, change: seq<(string, Json)>, allowed: set<string>)
    requires Reviewed(t, id, kind, change, allowed).Some?
    ensures Reviewed(t, id, kind, change, allowed) == Some([])
       <==> t.Normalized(id) in allowed && Safe(t, t.ResourceType(id).value, kind == Create, change)
  {
    SafeIsUnreported(t, id, kind == Create, change);
    var found := When(t.Normalized(id) !in allowed, UnapprovedChange) + UnsafeProperties(t, id, kind == Create, change).value;
    assert |About(found, id)| == |found|;
  }

  ghost predicate PermittedAs(t: Text, id: string, kind: Kind, change: seq<(string, Json)>, allowed: set<string>)
    requires Judge(t, id, kind, change, allowed).Some?
  {
    kind == NoChange
    || ((kind == Create || kind == Modify) && t.Normalized(id) in allowed
        && Safe(t, t.ResourceType(id).value, kind == Create, change))
  }

  lemma JudgedUnreported(t: Text, id: string, kind: Kind, change: seq<(string, Json)>, allowed: set<string>)
    requires Judge(t, id, kind, change, allowed).Some?
    ensures Judge(t, id, kind, change, allowed) == Some([]) <==> PermittedAs(t, id, kind, change, allowed)
  {
    if kind == Create || kind == Modify { ReviewedIsUnreported(t, id, kind, change, allowed); }
  }

  /** NoChange, or an allowlisted create or modify that is safe. */
  ghost predicate Permitted(t: Text, change: Json, allowed: set<string>)
    requires ChangeViolations(t, change, allowed).Some?
  {
    var heading := Heading(t, change.fields).value;
    PermittedAs(t, heading.0, heading.1, change.fields, allowed)
  }

  lemma PermittedIsUnreported(t: Text, change: Json, allowed: set<string>)
    requires ChangeViolations(t, change, allowed).Some?
    ensures ChangeViolations(t, change, allowed) == Some([]) <==> Permitted(t, change, allowed)
  {
    var heading := Heading(t, change.fields).value;
    JudgedUnreported(t, heading.0, heading.1, change.fields, allowed);
  }

  lemma {:induction false} EachIsWellFormed(check: Json -> Option<seq<Violation>>, changes: seq<Json>, i: nat)
    requires AllViolations(check, changes).Some? && i < |changes|
    ensures check(changes[i]).Some?
  {
    if i < |changes| - 1 { EachIsWellFormed(check, changes[..|changes| - 1], i); }
  }

  lemma ChangesAreWellFormed(t: Text, document: Json, allowedIds: set<string>, i: nat)
    requires Evaluate(t, document, allowedIds).Some? && i < |ChangesOf(t, document).value|
    ensures ChangeViolations(t, ChangesOf(t, document).value[i], set id <- allowedIds :: t.Normalized(id)).Some?
  {
    var allowed := set id <- allowedIds :: t.Normalized(id);
    EachIsWellFormed(c => ChangeViolations(t, c, allowed), ChangesOf(t, document).value, i);
  }

  /** For a well-formed document nothing is reported exactly when every change is NoChange, or an
      allowlisted create or modify that is safe at every nesting depth. */
  lemma NothingReportedExactly(t: Text, document: Json, allowedIds: set<string>)
    requires Evaluate(t, document, allowedIds).Some?
    ensures var allowed, changes := (set id <- allowedIds :: t.Normalized(id)), ChangesOf(t, document).value;
            && (forall i :: 0 <= i < |changes| ==> ChangeViolations(t, changes[i], allowed).Some?)
            && (Evaluate(t, document, allowedIds) == Some([])
                <==> forall i :: 0 <= i < |changes| ==> Permitted(t, changes[i], allowed))
  {
    var allowed, changes := (set id <- allowedIds :: t.Normalized(id)), ChangesOf(t, document).value;
    var check := c => ChangeViolations(t, c, allowed);
    NothingToReport(check, changes);
    forall i | 0 <= i < |changes|
      ensures ChangeViolations(t, changes[i], allowed).Some?
      ensures check(changes[i]) == Some([]) <==> Permitted(t, changes[i], allowed)
    {
      ChangesAreWellFormed(t, document, allowedIds, i);
      PermittedIsUnreported(t, changes[i], allowed);
    }
  }
}
