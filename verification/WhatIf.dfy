/** The what-if evaluation: which proposed changes are reported, and exactly when none is. Malformed
    documents raise; that is `None` throughout. */
module WhatIf {

  import opened Options
  import opened PreflightWalks
  import ArmScopes

  /** Unicode case folding and white space are taken as given. */
  datatype Text = Text(fold: string -> string, space: char -> bool) {
    function TrimLeft(s: string): string { if s != "" && space(s[0]) then TrimLeft(s[1..]) else s }

    function TrimRight(s: string): string { if s != "" && space(s[|s| - 1]) then TrimRight(s[..|s| - 1]) else s }

    function Strip(s: string): string { TrimRight(TrimLeft(s)) }

    function Normalized(s: string): string { fold(Strip(s)) }

    /** The type of a resource identifier, for errors or `_resource_type`. */
    function ResourceType(id: string): Option<string> { ArmScopes.ResourceType(fold, id) }
  }

  const MAX_CHANGES: nat := 5000

  datatype Code =
    | IgnoredChange | Delete | UnpredictableChange | UnsupportedChangeType | UnapprovedChange | UninspectableChange
    | StorageProtectionMissing | KeyVaultProtectionMissing | ContainerPublicAccess | ContainerAppsExposure
    | SharedKeyEnabled | PublicBlobAccess | PublicDataPlane

  datatype Violation = Violation(code: Code, subject: string)

  /** A property a change sets or removes. */
  datatype Candidate = Candidate(path: string, after: Json, change: string)

  const STORAGE_ACCOUNT := "microsoft.storage/storageaccounts"
  const STORAGE_CONTAINER := "microsoft.storage/storageaccounts/blobservices/containers"
  const KEY_VAULT := "microsoft.keyvault/vaults"
  const CONTAINER_APP := "microsoft.app/containerapps"
  const CONTAINER_ENVIRONMENT := "microsoft.app/managedenvironments"

  // ---------------------------------------------------------------- reading fields

  /** `_get_case_insensitive`: the first matching key; nothing and null are the same. */
  function Get(t: Text, fields: seq<(string, Json)>, name: string): Json {
    if fields == [] then JNull
    else if t.fold(fields[0].0) == t.fold(name) then fields[0].1
    else Get(t, fields[1..], name)
  }

  lemma {:induction false} GetIsInside(t: Text, fields: seq<(string, Json)>, name: string)
    ensures Get(t, fields, name) == JNull || exists i :: 0 <= i < |fields| && fields[i].1 == Get(t, fields, name)
  {
    if fields != [] && t.fold(fields[0].0) != t.fold(name) {
      GetIsInside(t, fields[1..], name);
      if Get(t, fields, name) != JNull {
        var i :| 0 <= i < |fields[1..]| && fields[1..][i].1 == Get(t, fields, name);
        assert fields[i + 1].1 == Get(t, fields, name);
      }
    }
  }

  lemma FieldIsSmaller(t: Text, v: Json, name: string)
    requires v.JObject?
    ensures Get(t, v.fields, name) == JNull || Get(t, v.fields, name) < v
  {
    GetIsInside(t, v.fields, name);
  }

  /** `_require_string`. */
  function RequireString(t: Text, v: Json, maximum: nat): Option<string> {
    if v.JString? && t.Strip(v.text) != "" && |v.text| <= maximum then Some(t.Strip(v.text)) else None
  }

  /** A list of at most `MAX_CHANGES` objects. */
  predicate ObjectList(v: Json) {
    v.JArray? && |v.items| <= MAX_CHANGES && forall i :: 0 <= i < |v.items| ==> v.items[i].JObject?
  }

  // ---------------------------------------------------------------- the delta walk

  const CHANGE_KINDS := ["array", "create", "delete", "modify", "noeffect", "remove"]

  function DeltaKind(t: Text, raw: Json, children: Json): Option<string> {
    if raw == JNull && children != JNull then Some("array")
    else
      var text := RequireString(t, raw, 64);
      if text.Some? && t.Normalized(text.value) in CHANGE_KINDS then Some(t.Normalized(text.value)) else None
  }

  predicate Inspectable(kind: string, after: Json, children: Json) {
    kind in ["delete", "remove", "noeffect"] || after != JNull || children != JNull
  }

  /** What one delta item, below `parent`, says of its own property. */
  function Own(t: Text, item: Json, parent: string): Option<Candidate>
    requires item.JObject?
  {
    var own, children := RequireString(t, Get(t, item.fields, "path"), 4096), Get(t, item.fields, "children");
    var kind, after := DeltaKind(t, Get(t, item.fields, "propertyChangeType"), children), Get(t, item.fields, "after");
    if own.None? || kind.None? || !Inspectable(kind.value, after, children) then None
    else Some(Candidate(if parent == "" then own.value else parent + "." + own.value, after, kind.value))
  }

  /** The delta items below an item. */
  function Below(t: Text, item: Json): (r: Option<seq<Json>>)
    requires item.JObject?
    ensures r.Some? ==> forall i :: 0 <= i < |r.value| ==> r.value[i] < item && r.value[i].JObject?
  {
    var children := Get(t, item.fields, "children");
    FieldIsSmaller(t, item, "children");
    if children == JNull then Some([]) else if ObjectList(children) then Some(children.items) else None
  }

  function Then(a: Option<seq<Candidate>>, b: Option<seq<Candidate>>): Option<seq<Candidate>> {
    if a.Some? && b.Some? then Some(a.value + b.value) else None
  }

  /** An item and everything below it, depth first. */
  function Walk(t: Text, item: Json, parent: string): Option<seq<Candidate>>
    requires item.JObject?
    decreases item, 1, 0
  {
    var own, below := Own(t, item, parent), Below(t, item);
    if own.None? || below.None? then None
    else Then(Some([own.value]), WalkBelow(t, item, below.value, own.value.path))
  }

  function WalkBelow(t: Text, item: Json, children: seq<Json>, parent: string): Option<seq<Candidate>>
    requires forall i :: 0 <= i < |children| ==> children[i] < item && children[i].JObject?
    decreases item, 0, |children|
  {
    if children == [] then Some([])
    else Then(Walk(t, children[0], parent), WalkBelow(t, item, children[1..], parent))
  }

  function WalkAll(t: Text, items: seq<Json>): Option<seq<Candidate>>
    requires forall i :: 0 <= i < |items| ==> items[i].JObject?
  {
    if items == [] then Some([]) else Then(Walk(t, items[0], ""), WalkAll(t, items[1..]))
  }

  datatype Task = Task(item: Json, parent: string)

  predicate Tasks(stack: seq<Task>) {
    forall i :: 0 <= i < |stack| ==> stack[i].item.JObject?
  }

  /** What a stack still yields, its last element first. */
  function Left(t: Text, stack: seq<Task>): Option<seq<Candidate>>
    requires Tasks(stack)
  {
    if stack == [] then Some([])
    else Then(Walk(t, stack[|stack| - 1].item, stack[|stack| - 1].parent), Left(t, stack[..|stack| - 1]))
  }

  function TaskNodes(stack: seq<Task>): nat {
    if stack == [] then 0 else Nodes(stack[|stack| - 1].item) + TaskNodes(stack[..|stack| - 1])
  }

  /** `reversed(children)`, each below `parent`. */
  function Push(children: seq<Json>, parent: string): seq<Task> {
    if children == [] then [] else Push(children[1..], parent) + [Task(children[0], parent)]
  }

  lemma {:induction false} PushTasks(children: seq<Json>, parent: string)
    requires forall i :: 0 <= i < |children| ==> children[i].JObject?
    ensures Tasks(Push(children, parent))
  {
    if children != [] { PushTasks(children[1..], parent); }
  }

  lemma ThenAssociates(a: Option<seq<Candidate>>, b: Option<seq<Candidate>>, c: Option<seq<Candidate>>)
    ensures Then(a, Then(b, c)) == Then(Then(a, b), c)
  {
    if a.Some? && b.Some? && c.Some? { assert a.value + (b.value + c.value) == (a.value + b.value) + c.value; }
  }

  lemma LeftPush(t: Text, stack: seq<Task>, top: Task)
    requires Tasks(stack) && top.item.JObject?
    ensures Tasks(stack + [top])
    ensures Left(t, stack + [top]) == Then(Walk(t, top.item, top.parent), Left(t, stack))
    ensures TaskNodes(stack + [top]) == Nodes(top.item) + TaskNodes(stack)
  {
    assert (stack + [top])[..|stack|] == stack;
  }

  lemma ThenEmpty(a: Option<seq<Candidate>>)
    ensures Then(Some([]), a) == a == Then(a, Some([]))
  {
    if a.Some? { assert [] + a.value == a.value == a.value + []; }
  }

  lemma {:induction false} LeftPushed(t: Text, stack: seq<Task>, item: Json, children: seq<Json>, parent: string)
    requires Tasks(stack) && forall i :: 0 <= i < |children| ==> children[i] < item && children[i].JObject?
    ensures Tasks(stack + Push(children, parent))
    ensures Left(t, stack + Push(children, parent)) == Then(WalkBelow(t, item, children, parent), Left(t, stack))
    decreases |children|
  {
    PushTasks(children, parent);
    if children == [] {
      assert stack + Push(children, parent) == stack;
      ThenEmpty(Left(t, stack));
    } else {
      var first, rest := Task(children[0], parent), children[1..];
      LeftPushed(t, stack, item, rest, parent);
      assert stack + Push(children, parent) == (stack + Push(rest, parent)) + [first];
      LeftPush(t, stack + Push(rest, parent), first);
      ThenAssociates(Walk(t, children[0], parent), WalkBelow(t, item, rest, parent), Left(t, stack));
    }
  }

  lemma {:induction false} LeftPushedAll(t: Text, items: seq<Json>)
    requires forall i :: 0 <= i < |items| ==> items[i].JObject?
    ensures Tasks(Push(items, "")) && Left(t, Push(items, "")) == WalkAll(t, items)
  {
    PushTasks(items, "");
    if items != [] {
      LeftPushedAll(t, items[1..]);
      LeftPush(t, Push(items[1..], ""), Task(items[0], ""));
    }
  }

  lemma TaskNodesPush(stack: seq<Task>, top: Task)
    ensures TaskNodes(stack + [top]) == Nodes(top.item) + TaskNodes(stack)
  {
    assert (stack + [top])[..|stack|] == stack;
  }

  lemma {:induction false} TaskNodesPushed(stack: seq<Task>, v: Json, children: seq<Json>, parent: string)
    requires forall i :: 0 <= i < |children| ==> children[i] < v
    ensures TaskNodes(stack + Push(children, parent)) == NodesAll(v, children) + TaskNodes(stack)
    decreases |children|
  {
    if children == [] {
      assert stack + Push(children, parent) == stack;
    } else {
      var first, rest := Task(children[0], parent), children[1..];
      TaskNodesPushed(stack, v, rest, parent);
      assert stack + Push(children, parent) == (stack + Push(rest, parent)) + [first];
      TaskNodesPush(stack + Push(rest, parent), first);
    }
  }

  /** The children of an item are among its nodes. */
  lemma ChildrenAreFewer(t: Text, item: Json)
    requires item.JObject? && Below(t, item).Some?
    ensures NodesAll(item, Below(t, item).value) < Nodes(item)
  {
    var children := Get(t, item.fields, "children");
    GetIsInside(t, item.fields, "children");
    if children != JNull {
      var i :| 0 <= i < |item.fields| && item.fields[i].1 == children;
      ListNodes(item, children, i);
    }
  }

  lemma ListNodes(item: Json, list: Json, i: nat)
    requires item.JObject? && list.JArray? && i < |item.fields| && item.fields[i].1 == list
    requires forall k :: 0 <= k < |list.items| ==> list.items[k] < item
    ensures NodesAll(item, list.items) < Nodes(item)
  {
    assert Children(item)[i] == list;
    OneOfMany(item, Children(item), i);
    SameNodes(item, list, list.items);
  }

  lemma {:induction false} OneOfMany(v: Json, vs: seq<Json>, i: nat)
    requires i < |vs| && forall k :: 0 <= k < |vs| ==> vs[k] < v
    ensures Nodes(vs[i]) <= NodesAll(v, vs)
  {
    if i > 0 { OneOfMany(v, vs[1..], i - 1); }
  }

  lemma {:induction false} SameNodes(v: Json, w: Json, vs: seq<Json>)
    requires forall k :: 0 <= k < |vs| ==> vs[k] < v && vs[k] < w
    ensures NodesAll(v, vs) == NodesAll(w, vs)
  {
    if vs != [] { SameNodes(v, w, vs[1..]); }
  }

  lemma WalkTurn(t: Text, rest: seq<Task>, top: Task)
    requires Tasks(rest) && top.item.JObject?
    ensures var own, below := Own(t, top.item, top.parent), Below(t, top.item);
            if own.None? || below.None? then Left(t, rest + [top]) == None
            else
              var next := rest + Push(below.value, own.value.path);
              && Tasks(next) && Left(t, rest + [top]) == Then(Some([own.value]), Left(t, next))
              && TaskNodes(next) < TaskNodes(rest + [top])
  {
    LeftPush(t, rest, top);
    var own, below := Own(t, top.item, top.parent), Below(t, top.item);
    if own.Some? && below.Some? {
      var children, path := below.value, own.value.path;
      LeftPushed(t, rest, top.item, children, path);
      TaskNodesPushed(rest, top.item, children, path);
      ChildrenAreFewer(t, top.item);
      ThenAssociates(Some([own.value]), WalkBelow(t, top.item, children, path), Left(t, rest));
    }
  }

  ghost predicate Yields(t: Text, values: seq<Candidate>, stack: seq<Task>, whole: Option<seq<Candidate>>) {
    Tasks(stack) && Then(Some(values), Left(t, stack)) == whole
  }

  lemma YieldsNext(t: Text, values: seq<Candidate>, rest: seq<Task>, top: Task, whole: Option<seq<Candidate>>)
    requires Yields(t, values, rest + [top], whole) && Tasks(rest) && top.item.JObject?
    ensures var own, below := Own(t, top.item, top.parent), Below(t, top.item);
            if own.None? || below.None? then whole == None
            else
              var next := rest + Push(below.value, own.value.path);
              Yields(t, values + [own.value], next, whole) && TaskNodes(next) < TaskNodes(rest + [top])
  {
    WalkTurn(t, rest, top);
    var own, below := Own(t, top.item, top.parent), Below(t, top.item);
    if own.Some? && below.Some? {
      ThenAssociates(Some(values), Some([own.value]), Left(t, rest + Push(below.value, own.value.path)));
    }
  }

  lemma PopTask(stack: seq<Task>)
    requires stack != [] && Tasks(stack)
    ensures stack == stack[..|stack| - 1] + [stack[|stack| - 1]] && Tasks(stack[..|stack| - 1]) && stack[|stack| - 1].item.JObject?
  {
  }

  /** `_walk_delta`. */
  method WalkDelta(t: Text, items: seq<Json>) returns (r: Option<seq<Candidate>>)
    requires forall i :: 0 <= i < |items| ==> items[i].JObject?
    ensures r == WalkAll(t, items)
  {
    var values: seq<Candidate> := [];
    var stack := Push(items, "");
    LeftPushedAll(t, items);
    ThenEmpty(WalkAll(t, items));
    while stack != []
      invariant Yields(t, values, stack, WalkAll(t, items))
      decreases TaskNodes(stack)
    {
      PopTask(stack);
      var top := stack[|stack| - 1];
      stack := stack[..|stack| - 1];
      YieldsNext(t, values, stack, top, WalkAll(t, items));
      var own, below := Own(t, top.item, top.parent), Below(t, top.item);
      if own.None? || below.None? { return None; }
      values := values + [own.value];
      stack := stack + Push(below.value, own.value.path);
    }
    ThenEmpty(Some(values));
    return Some(values);
  }

  // ---------------------------------------------------------------- the rules

  /** `_canonical_property_path`. */
  function CanonicalPath(t: Text, path: string): string {
    var folded, prefix := t.fold(path), "<resource>.";
    if prefix <= folded then folded[|prefix|..] else folded
  }

  predicate Contains(s: string, part: string) {
    part <= s || (s != "" && Contains(s[1..], part))
  }

  predicate Enabled(t: Text, v: Json) {
    v == JBool(true) || (v.JString? && t.Normalized(v.text) in ["allow", "enabled", "true"])
  }

  /** `_normalized(str(value or "")) == word`, for words that no number, list or object prints as. */
  predicate Says(t: Text, v: Json, word: string) { v.JString? && t.Normalized(v.text) == word }

  /** The value of the last candidate for a path. */
  function Last(t: Text, candidates: seq<Candidate>, path: string): Json {
    if candidates == [] then JNull
    else
      var c := candidates[|candidates| - 1];
      if CanonicalPath(t, c.path) == path then c.after else Last(t, candidates[..|candidates| - 1], path)
  }

  predicate Locked(t: Text, cs: seq<Candidate>) {
    && Says(t, Last(t, cs, "properties.publicnetworkaccess"), "disabled")
    && Says(t, Last(t, cs, "properties.networkacls.defaultaction"), "deny")
  }

  /** What a resource that is created must state explicitly. */
  function ProtectionViolations(t: Text, kind: string, cs: seq<Candidate>): seq<Code> {
    if kind == STORAGE_ACCOUNT then
      (if && Last(t, cs, "properties.allowsharedkeyaccess") == JBool(false)
          && Last(t, cs, "properties.allowblobpublicaccess") == JBool(false) && Locked(t, cs)
       then [] else [StorageProtectionMissing])
    else if kind == KEY_VAULT then (if Locked(t, cs) then [] else [KeyVaultProtectionMissing])
    else if kind == STORAGE_CONTAINER then
      (if Says(t, Last(t, cs, "properties.publicaccess"), "none") then [] else [ContainerPublicAccess])
    else []
  }

  predicate Removed(c: Candidate) { c.change == "delete" || c.change == "remove" }

  predicate ExposesApp(t: Text, kind: string, path: string, c: Candidate) {
    && (kind == CONTAINER_APP || kind == CONTAINER_ENVIRONMENT)
    && (Contains(path, "ingress.external") || Contains(path, "publicnetworkaccess") || Contains(path, "vnetconfiguration.internal"))
    && (Enabled(t, c.after) || Removed(c) || (Contains(path, "vnetconfiguration.internal") && c.after == JBool(false)))
  }

  predicate OpensDataPlane(t: Text, kind: string, path: string, c: Candidate) {
    && (kind == STORAGE_ACCOUNT || kind == KEY_VAULT)
    && (path == "properties.publicnetworkaccess" || path == "properties.networkacls.defaultaction")
    && (Enabled(t, c.after) || Removed(c))
  }

  predicate OpensContainer(t: Text, kind: string, path: string, c: Candidate) {
    && kind == STORAGE_CONTAINER && path == "properties.publicaccess"
    && (Says(t, c.after, "blob") || Says(t, c.after, "container") || Removed(c))
  }

  predicate OpensStorage(t: Text, kind: string, path: string, c: Candidate, property: string) {
    kind == STORAGE_ACCOUNT && path == property && (Enabled(t, c.after) || Removed(c))
  }

  function When(condition: bool, code: Code): seq<Code> { if condition then [code] else [] }

  function CandidateViolations(t: Text, kind: string, c: Candidate): seq<Code> {
    var path := CanonicalPath(t, c.path);
    When(ExposesApp(t, kind, path, c), ContainerAppsExposure)
    + When(OpensStorage(t, kind, path, c, "properties.allowsharedkeyaccess"), SharedKeyEnabled)
    + When(OpensStorage(t, kind, path, c, "properties.allowblobpublicaccess"), PublicBlobAccess)
    + When(OpensDataPlane(t, kind, path, c), PublicDataPlane)
    + When(OpensContainer(t, kind, path, c), ContainerPublicAccess)
  }

  function FlatMap(check: Candidate -> seq<Code>, cs: seq<Candidate>): seq<Code> {
    if cs == [] then [] else FlatMap(check, cs[..|cs| - 1]) + check(cs[|cs| - 1])
  }

  function AllCandidateViolations(t: Text, kind: string, cs: seq<Candidate>): seq<Code> {
    FlatMap(c => CandidateViolations(t, kind, c), cs)
  }

  function AsCandidates(places: seq<Place>): seq<Candidate> {
    seq(|places|, i requires 0 <= i < |places| => Candidate(places[i].path, places[i].value, "set"))
  }

  /** Delta items first, then the leaves of the payload. */
  function Candidates(t: Text, change: seq<(string, Json)>): Option<seq<Candidate>> {
    var delta, after := Get(t, change, "delta"), Get(t, change, "after");
    if delta != JNull && !ObjectList(delta) then None
    else
      Then(if delta == JNull then Some([]) else WalkAll(t, delta.items),
           Some(if Scalar(after) then [] else AsCandidates(Leaves(after, "<resource>"))))
  }

  /** `_unsafe_property_violations`. */
  function UnsafeProperties(t: Text, id: string, creates: bool, change: seq<(string, Json)>): Option<seq<Code>> {
    var resource, cs := t.ResourceType(id), Candidates(t, change);
    if resource.None? || cs.None? then None
    else
      var missing := if creates then ProtectionViolations(t, resource.value, cs.value) else [];
      Some(if cs.value == [] then (if missing == [] then [UninspectableChange] else missing)
           else missing + AllCandidateViolations(t, resource.value, cs.value))
  }

  method CollectCandidates(t: Text, change: seq<(string, Json)>) returns (r: Option<seq<Candidate>>)
    ensures r == Candidates(t, change)
  {
    var delta, after := Get(t, change, "delta"), Get(t, change, "after");
    if delta != JNull && !ObjectList(delta) { return None; }
    r := Some([]);
    if delta != JNull { r := WalkDelta(t, delta.items); }
    if r.None? { return None; }
    if Scalar(after) {
      ThenEmpty(r);
    } else {
      var leaves := FlattenAfter(after);
      r := Some(r.value + AsCandidates(leaves));
    }
  }

  method CheckCandidates(check: Candidate -> seq<Code>, cs: seq<Candidate>, missing: seq<Code>) returns (violations: seq<Code>)
    ensures violations == missing + FlatMap(check, cs)
  {
    violations := missing;
    assert missing + [] == missing;
    for i := 0 to |cs|
      invariant violations == missing + FlatMap(check, cs[..i])
    {
      assert cs[..i + 1][..i] == cs[..i];
      violations := violations + check(cs[i]);
    }
    assert cs[..|cs|] == cs;
  }

  method UnsafePropertyViolations(t: Text, id: string, creates: bool, change: seq<(string, Json)>) returns (r: Option<seq<Code>>)
    ensures r == UnsafeProperties(t, id, creates, change)
  {
    var resource := t.ResourceType(id);
    if resource.None? { return None; }
    var cs := CollectCandidates(t, change);
    if cs.None? { return None; }
    var missing := if creates then ProtectionViolations(t, resource.value, cs.value) else [];
    if cs.value == [] { return Some(if missing == [] then [UninspectableChange] else missing); }
    var violations := CheckCandidates(c => CandidateViolations(t, resource.value, c), cs.value, missing);
    return Some(violations);
  }
}
