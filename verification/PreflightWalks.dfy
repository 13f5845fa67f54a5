/** The explicit-stack walks of the preflight over JSON documents, against plain recursion. */
module PreflightWalks {

  /** A parsed document. Numbers keep whether they are finite (1e999 parses to infinity). */
  datatype Json =
    | JNull
    | JBool(flag: bool)
    | JInt(number: int)
    | JFloat(finite: bool)
    | JString(text: string)
    | JArray(items: seq<Json>)
    | JObject(fields: seq<(string, Json)>)

  const MAX_DEPTH: nat := 64
  const MAX_NODES: nat := 100000
  const MAX_KEY: nat := 4096
  const MAX_TEXT: nat := 8 * 1024 * 1024

  function Children(v: Json): (r: seq<Json>)
    ensures forall i :: 0 <= i < |r| ==> r[i] < v
  {
    match v
    case JArray(items) => items
    case JObject(fields) => seq(|fields|, i requires 0 <= i < |fields| => fields[i].1)
    case _ => []
  }

  // ---------------------------------------------------------------- the shape check

  function Nodes(v: Json): nat { 1 + NodesAll(v, Children(v)) }

  function NodesAll(v: Json, vs: seq<Json>): nat
    requires forall i :: 0 <= i < |vs| ==> vs[i] < v
    decreases v, 0, |vs|
  {
    if vs == [] then 0 else Nodes(vs[0]) + NodesAll(v, vs[1..])
  }

  function Height(v: Json): nat { HeightAll(v, Children(v)) }

  /** One more than the greatest height, or 0 when there is nothing. */
  function HeightAll(v: Json, vs: seq<Json>): nat
    requires forall i :: 0 <= i < |vs| ==> vs[i] < v
    decreases v, 0, |vs|
  {
    if vs == [] then 0
    else
      var rest := HeightAll(v, vs[1..]);
      if 1 + Height(vs[0]) >= rest then 1 + Height(vs[0]) else rest
  }

  /** What one node must satisfy on its own. */
  predicate CleanNode(v: Json) {
    match v
    case JObject(fields) => forall i :: 0 <= i < |fields| ==> |fields[i].0| <= MAX_KEY
    case JString(text) => |text| <= MAX_TEXT
    case JFloat(finite) => finite
    case _ => true
  }

  predicate Clean(v: Json) {
    CleanNode(v) && forall i :: 0 <= i < |Children(v)| ==> Clean(Children(v)[i])
  }

  /** Every node at most `MAX_DEPTH` deep, and clean, when `v` itself is at `depth`. */
  predicate Within(v: Json, depth: nat)
    decreases v
  {
    depth <= MAX_DEPTH && CleanNode(v) && forall i :: 0 <= i < |Children(v)| ==> Within(Children(v)[i], depth + 1)
  }

  datatype Frame = Frame(value: Json, depth: nat)

  function Frames(vs: seq<Json>, depth: nat): seq<Frame> {
    seq(|vs|, i requires 0 <= i < |vs| => Frame(vs[i], depth))
  }

  function StackNodes(stack: seq<Frame>): nat {
    if stack == [] then 0 else Nodes(stack[0].value) + StackNodes(stack[1..])
  }

  predicate StackWithin(stack: seq<Frame>) {
    forall i :: 0 <= i < |stack| ==> Within(stack[i].value, stack[i].depth)
  }

  lemma {:induction false} StackNodesAppend(a: seq<Frame>, b: seq<Frame>)
    ensures StackNodes(a + b) == StackNodes(a) + StackNodes(b)
  {
    if a == [] {
      assert a + b == b;
    } else {
      assert (a + b)[1..] == a[1..] + b;
      StackNodesAppend(a[1..], b);
    }
  }

  lemma {:induction false} FramesNodes(v: Json, vs: seq<Json>, depth: nat)
    requires forall i :: 0 <= i < |vs| ==> vs[i] < v
    ensures StackNodes(Frames(vs, depth)) == NodesAll(v, vs)
  {
    if vs != [] {
      assert Frames(vs, depth)[1..] == Frames(vs[1..], depth);
      FramesNodes(v, vs[1..], depth);
    }
  }

  /** One turn of the loop: the popped node is replaced by its children. */
  lemma PopNodes(rest: seq<Frame>, top: Frame)
    ensures StackNodes(rest + [top]) == 1 + StackNodes(rest + Frames(Children(top.value), top.depth + 1))
  {
    StackNodesAppend(rest, [top]);
    StackNodesAppend(rest, Frames(Children(top.value), top.depth + 1));
    FramesNodes(top.value, Children(top.value), top.depth + 1);
    assert [top][1..] == [];
  }

  lemma PopWithin(rest: seq<Frame>, top: Frame)
    ensures StackWithin(rest + [top])
       <==> && top.depth <= MAX_DEPTH && CleanNode(top.value)
            && StackWithin(rest + Frames(Children(top.value), top.depth + 1))
  {
    var pushed := Frames(Children(top.value), top.depth + 1);
    SplitWithin(rest, [top]);
    SplitWithin(rest, pushed);
    assert StackWithin([top]) <==> Within([top][0].value, [top][0].depth);
    FramesWithin(Children(top.value), top.depth + 1);
  }

  lemma FramesWithin(vs: seq<Json>, depth: nat)
    ensures StackWithin(Frames(vs, depth)) <==> forall i :: 0 <= i < |vs| ==> Within(vs[i], depth)
  {
    var frames := Frames(vs, depth);
    if StackWithin(frames) {
      forall i | 0 <= i < |vs| ensures Within(vs[i], depth) { assert Within(frames[i].value, frames[i].depth); }
    }
  }

  lemma Turn(stack: seq<Frame>)
    requires stack != []
    ensures var rest, top := stack[..|stack| - 1], stack[|stack| - 1];
            var next := rest + Frames(Children(top.value), top.depth + 1);
            && StackNodes(stack) == 1 + StackNodes(next)
            && (StackWithin(stack) <==> top.depth <= MAX_DEPTH && CleanNode(top.value) && StackWithin(next))
  {
    var rest, top := stack[..|stack| - 1], stack[|stack| - 1];
    assert stack == rest + [top];
    PopNodes(rest, top);
    PopWithin(rest, top);
  }

  lemma SplitWithin(a: seq<Frame>, b: seq<Frame>)
    ensures StackWithin(a + b) <==> StackWithin(a) && StackWithin(b)
  {
    if StackWithin(a + b) {
      forall i | 0 <= i < |a| ensures Within(a[i].value, a[i].depth) { assert (a + b)[i] == a[i]; }
      forall i | 0 <= i < |b| ensures Within(b[i].value, b[i].depth) { assert (a + b)[|a| + i] == b[i]; }
    }
  }

  /** `_validate_json_shape`. */
  method ValidateJsonShape(value: Json) returns (ok: bool)
    ensures ok <==> Height(value) <= MAX_DEPTH && Nodes(value) <= MAX_NODES && Clean(value)
  {
    var nodes := 0;
    var stack := [Frame(value, 0)];
    assert stack[1..] == [];
    WithinIsHeight(value, 0);
    while stack != []
      invariant nodes + StackNodes(stack) == Nodes(value)
      invariant nodes <= MAX_NODES
      invariant StackWithin(stack) <==> Within(value, 0)
      decreases StackNodes(stack)
    {
      Turn(stack);
      var item, depth := stack[|stack| - 1].value, stack[|stack| - 1].depth;
      stack := stack[..|stack| - 1];
      nodes := nodes + 1;
      if depth > MAX_DEPTH || nodes > MAX_NODES { return false; }
      if !CleanNode(item) { return false; }
      stack := stack + Frames(Children(item), depth + 1);
    }
    return true;
  }

  /** The depth bound of the walk is a bound on height. */
  lemma {:induction false} WithinIsHeight(v: Json, depth: nat)
    ensures Within(v, depth) <==> depth + Height(v) <= MAX_DEPTH && Clean(v)
    decreases v
  {
    var vs := Children(v);
    forall i | 0 <= i < |vs|
      ensures Within(vs[i], depth + 1) <==> depth + 1 + Height(vs[i]) <= MAX_DEPTH && Clean(vs[i])
    {
      WithinIsHeight(vs[i], depth + 1);
    }
    HeightIsGreatest(v, vs, MAX_DEPTH - depth);
  }

  lemma {:induction false} HeightIsGreatest(v: Json, vs: seq<Json>, bound: int)
    requires forall i :: 0 <= i < |vs| ==> vs[i] < v
    ensures vs == [] || HeightAll(v, vs) > 0
    ensures bound >= 0 ==> (HeightAll(v, vs) <= bound <==> forall i :: 0 <= i < |vs| ==> 1 + Height(vs[i]) <= bound)
  {
    if vs != [] {
      var rest := vs[1..];
      HeightIsGreatest(v, rest, bound);
      assert forall i :: 0 <= i < |rest| ==> rest[i] == vs[i + 1];
      if forall i :: 0 <= i < |rest| ==> 1 + Height(rest[i]) <= bound {
        forall i | 0 < i < |vs| ensures 1 + Height(vs[i]) <= bound { assert vs[i] == rest[i - 1]; }
      }
    }
  }

  // ---------------------------------------------------------------- flattening

  /** A place in a document: the path text and the value there. */
  datatype Place = Place(path: string, value: Json)

  function Decimal(n: nat): string {
    if n < 10 then [['0', '1', '2', '3', '4', '5', '6', '7', '8', '9'][n]] else Decimal(n / 10) + Decimal(n % 10)
  }

  /** The children of a value with their paths: `path.key` in an object, `path[index]` in an array. */
  function Inside(v: Json, path: string): (r: seq<Place>)
    ensures forall i :: 0 <= i < |r| ==> r[i].value < v
    ensures |r| == |Children(v)| && forall i :: 0 <= i < |r| ==> r[i].value == Children(v)[i]
  {
    match v
    case JArray(items) => seq(|items|, i requires 0 <= i < |items| => Place(path + "[" + Decimal(i) + "]", items[i]))
    case JObject(fields) => seq(|fields|, i requires 0 <= i < |fields| => Place(path + "." + fields[i].0, fields[i].1))
    case _ => []
  }

  predicate Scalar(v: Json) { !v.JArray? && !v.JObject? }

  /** Depth first, in document order. */
  function Leaves(v: Json, path: string): seq<Place>
    decreases v, 1, 0
  {
    if Scalar(v) then [Place(path, v)] else LeavesAll(v, Inside(v, path))
  }

  function LeavesAll(v: Json, places: seq<Place>): seq<Place>
    requires forall i :: 0 <= i < |places| ==> places[i].value < v
    decreases v, 0, |places|
  {
    if places == [] then [] else Leaves(places[0].value, places[0].path) + LeavesAll(v, places[1..])
  }

  function Reversed<T>(s: seq<T>): seq<T> {
    if s == [] then [] else Reversed(s[1..]) + [s[0]]
  }

  /** What a stack still yields, its last element first. */
  function Pending(stack: seq<Place>): seq<Place> {
    if stack == [] then []
    else Leaves(stack[|stack| - 1].value, stack[|stack| - 1].path) + Pending(stack[..|stack| - 1])
  }

  function PlaceNodes(stack: seq<Place>): nat {
    if stack == [] then 0 else Nodes(stack[|stack| - 1].value) + PlaceNodes(stack[..|stack| - 1])
  }

  lemma PendingPush(stack: seq<Place>, top: Place)
    ensures Pending(stack + [top]) == Leaves(top.value, top.path) + Pending(stack)
  {
    assert (stack + [top])[..|stack|] == stack;
  }

  lemma {:induction false} PendingReversed(stack: seq<Place>, v: Json, places: seq<Place>)
    requires forall i :: 0 <= i < |places| ==> places[i].value < v
    ensures Pending(stack + Reversed(places)) == LeavesAll(v, places) + Pending(stack)
    decreases |places|
  {
    if places == [] {
      assert stack + Reversed(places) == stack;
    } else {
      var first, rest := places[0], places[1..];
      PendingReversed(stack, v, rest);
      assert stack + Reversed(places) == (stack + Reversed(rest)) + [first];
      PendingPush(stack + Reversed(rest), first);
      Associate(Leaves(first.value, first.path), LeavesAll(v, rest), Pending(stack));
    }
  }

  lemma Associate(a: seq<Place>, b: seq<Place>, c: seq<Place>)
    ensures a + (b + c) == (a + b) + c
  {
  }

  lemma {:induction false} NodesReversed(stack: seq<Place>, v: Json, places: seq<Place>, vs: seq<Json>)
    requires |places| == |vs| && forall i :: 0 <= i < |places| ==> places[i].value == vs[i] && vs[i] < v
    ensures PlaceNodes(stack + Reversed(places)) == NodesAll(v, vs) + PlaceNodes(stack)
    decreases |places|
  {
    if places == [] {
      assert stack + Reversed(places) == stack;
    } else {
      var whole := stack + Reversed(places);
      NodesReversed(stack, v, places[1..], vs[1..]);
      assert whole == (stack + Reversed(places[1..])) + [places[0]];
      assert whole[..|whole| - 1] == stack + Reversed(places[1..]);
    }
  }

  lemma FlattenStep(stack: seq<Place>)
    requires stack != []
    ensures var rest, top := stack[..|stack| - 1], stack[|stack| - 1];
            && (Scalar(top.value) ==> Pending(stack) == [top] + Pending(rest) && PlaceNodes(rest) < PlaceNodes(stack))
            && (!Scalar(top.value) ==>
                  && Pending(stack) == Pending(rest + Reversed(Inside(top.value, top.path)))
                  && PlaceNodes(rest + Reversed(Inside(top.value, top.path))) < PlaceNodes(stack))
  {
    var rest, top := stack[..|stack| - 1], stack[|stack| - 1];
    if !Scalar(top.value) {
      PendingReversed(rest, top.value, Inside(top.value, top.path));
      NodesReversed(rest, top.value, Inside(top.value, top.path), Children(top.value));
    }
  }

  /** `_flatten_after`. */
  method FlattenAfter(value: Json) returns (values: seq<Place>)
    ensures values == Leaves(value, "<resource>")
  {
    values := [];
    var stack := [Place("<resource>", value)];
    assert stack[..0] == [];
    while stack != []
      invariant values + Pending(stack) == Leaves(value, "<resource>")
      decreases PlaceNodes(stack)
    {
      FlattenStep(stack);
      var top := stack[|stack| - 1];
      stack := stack[..|stack| - 1];
      if Scalar(top.value) {
        assert values + ([top] + Pending(stack)) == (values + [top]) + Pending(stack);
        values := values + [top];
      } else {
        stack := stack + Reversed(Inside(top.value, top.path));
      }
    }
  }

  /** A condition holds of every leaf exactly when it holds at every depth. */
  ghost predicate Everywhere(v: Json, path: string, ok: Place -> bool)
    decreases v
  {
    if Scalar(v) then ok(Place(path, v))
    else forall i :: 0 <= i < |Inside(v, path)| ==> Everywhere(Inside(v, path)[i].value, Inside(v, path)[i].path, ok)
  }

  ghost predicate AllOk(places: seq<Place>, ok: Place -> bool) {
    forall i :: 0 <= i < |places| ==> ok(places[i])
  }

  lemma AllOkAppend(a: seq<Place>, b: seq<Place>, ok: Place -> bool)
    ensures AllOk(a + b, ok) <==> AllOk(a, ok) && AllOk(b, ok)
  {
    if AllOk(a + b, ok) {
      forall i | 0 <= i < |a| ensures ok(a[i]) { assert (a + b)[i] == a[i]; }
      forall i | 0 <= i < |b| ensures ok(b[i]) { assert (a + b)[|a| + i] == b[i]; }
    }
  }

  lemma {:induction false} LeavesEverywhere(v: Json, path: string, ok: Place -> bool)
    ensures AllOk(Leaves(v, path), ok) <==> Everywhere(v, path, ok)
    decreases v, 1, 0
  {
    if Scalar(v) {
      assert Leaves(v, path)[0] == Place(path, v);
    } else {
      LeavesAllEverywhere(v, Inside(v, path), ok);
    }
  }

  lemma {:induction false} LeavesAllEverywhere(v: Json, places: seq<Place>, ok: Place -> bool)
    requires forall i :: 0 <= i < |places| ==> places[i].value < v
    ensures AllOk(LeavesAll(v, places), ok) <==> forall i :: 0 <= i < |places| ==> Everywhere(places[i].value, places[i].path, ok)
    decreases v, 0, |places|
  {
    if places != [] {
      var rest := places[1..];
      LeavesEverywhere(places[0].value, places[0].path, ok);
      LeavesAllEverywhere(v, rest, ok);
      AllOkAppend(Leaves(places[0].value, places[0].path), LeavesAll(v, rest), ok);
      assert forall i :: 0 <= i < |rest| ==> rest[i] == places[i + 1];
      if forall i :: 0 <= i < |rest| ==> Everywhere(rest[i].value, rest[i].path, ok) {
        forall i | 0 < i < |places| ensures Everywhere(places[i].value, places[i].path, ok) { assert places[i] == rest[i - 1]; }
      }
    }
  }
}
