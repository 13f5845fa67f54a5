/** Which properties a change proposes to set or remove: found by following the nested delta items and
    the payload from the outside in, with the path each is found under. */
module WhatIfDelta {

  import opened Options
  import opened PreflightWalks
  import opened WhatIf
  import opened WhatIfWords

  // ---------------------------------------------------------------- delta items

  /** The own paths of nested items, joined by dots. */
  function Dots(trail: seq<string>): string {
    if trail == [] then ""
    else if |trail| == 1 then trail[0]
    else Dots(trail[..|trail| - 1]) + "." + trail[|trail| - 1]
  }

  predicate Named(trail: seq<string>) { forall i :: 0 <= i < |trail| ==> trail[i] != "" }

  lemma {:induction false} DotsSaySomething(trail: seq<string>)
    requires Named(trail)
    ensures Dots(trail) == "" <==> trail == []
  {
    if |trail| > 1 { assert |Dots(trail)| >= 1; }
  }

  predicate KnownKind(kind: string) {
    kind == "array" || kind == "create" || kind == "delete" || kind == "modify" || kind == "noeffect" || kind == "remove"
  }

  /** The kind an item states, or `array` for one that states none and has children. */
  ghost predicate KindIs(t: Text, item: Fields, kind: string) {
    if Holds(t, item, "propertyChangeType", JNull) && !Holds(t, item, "children", JNull) then kind == "array"
    else KnownKind(kind) && exists text :: TextAt(t, item, "propertyChangeType", 64, text) && t.fold(text) == kind
  }

  /** An item whose own path ends the trail says this of its property: only a removal, or an item
      without effect, may leave out both the new value and children. */
  ghost predicate Describes(t: Text, item: Fields, trail: seq<string>, c: Candidate) {
    && trail != [] && TextAt(t, item, "path", 4096, trail[|trail| - 1])
    && c.path == Dots(trail) && Holds(t, item, "after", c.after) && KindIs(t, item, c.change)
    && (c.after == JNull && Holds(t, item, "children", JNull) ==>
          c.change == "delete" || c.change == "remove" || c.change == "noeffect")
  }

  lemma KindExactly(t: Text, item: Fields, kind: string)
    ensures DeltaKind(t, Get(t, item, "propertyChangeType"), Get(t, item, "children")) == Some(kind) <==> KindIs(t, item, kind)
  {
    GetExactly(t, item, "propertyChangeType", JNull);
    GetExactly(t, item, "children", JNull);
    var said := RequireString(t, Get(t, item, "propertyChangeType"), 64);
    forall text ensures said == Some(text) <==> TextAt(t, item, "propertyChangeType", 64, text) {
      RequireExactly(t, item, "propertyChangeType", 64, text);
    }
    if said.Some? { StrippedNormalizes(t, Get(t, item, "propertyChangeType"), 64); }
  }

  lemma StrippedNormalizes(t: Text, v: Json, maximum: nat)
    requires RequireString(t, v, maximum).Some?
    ensures t.Normalized(RequireString(t, v, maximum).value) == t.fold(RequireString(t, v, maximum).value)
  {
    StripTrims(t, v.text);
    TrimmedNormalizes(t, v.text, t.Strip(v.text));
  }

  lemma DotsStep(trail: seq<string>, parent: string, name: string)
    requires Named(trail) && parent == Dots(trail)
    ensures Dots(trail + [name]) == if parent == "" then name else parent + "." + name
  {
    DotsSaySomething(trail);
    assert (trail + [name])[..|trail|] == trail;
  }

  lemma InspectableExactly(kind: string, after: Json, children: Json)
    ensures Inspectable(kind, after, children)
       <==> (after == JNull && children == JNull ==> kind == "delete" || kind == "remove" || kind == "noeffect")
  {
  }

  lemma OwnParts(t: Text, item: Json, parent: string, name: string, children: Json, c: Candidate)
    requires item.JObject? && RequireString(t, Get(t, item.fields, "path"), 4096) == Some(name)
    requires children == Get(t, item.fields, "children")
    ensures Own(t, item, parent) == Some(c)
       <==> && c.path == (if parent == "" then name else parent + "." + name)
            && DeltaKind(t, Get(t, item.fields, "propertyChangeType"), children) == Some(c.change)
            && Get(t, item.fields, "after") == c.after && Inspectable(c.change, c.after, children)
  {
  }

  lemma OwnExactly(t: Text, item: Json, trail: seq<string>, parent: string, name: string, c: Candidate, children: Json)
    requires item.JObject? && Named(trail) && parent == Dots(trail)
    requires TextAt(t, item.fields, "path", 4096, name) && children == Get(t, item.fields, "children")
    ensures Own(t, item, parent) == Some(c) <==> Describes(t, item.fields, trail + [name], c)
  {
    RequireExactly(t, item.fields, "path", 4096, name);
    KindExactly(t, item.fields, c.change);
    GetExactly(t, item.fields, "after", c.after);
    GetExactly(t, item.fields, "children", JNull);
    DotsStep(trail, parent, name);
    OwnParts(t, item, parent, name, children, c);
    InspectableExactly(c.change, c.after, children);
  }

  // ---------------------------------------------------------------- at every depth

  /** This candidate comes from an item at the end of the trail, or from one further down. */
  ghost predicate Proposes(t: Text, item: Json, trail: seq<string>, c: Candidate)
    decreases item, 1
  {
    item.JObject? && exists name :: TextAt(t, item.fields, "path", 4096, name) && ProposesAs(t, item, trail + [name], c)
  }

  ghost predicate ProposesAs(t: Text, item: Json, trail: seq<string>, c: Candidate)
    requires item.JObject?
    decreases item, 0
  {
    || Describes(t, item.fields, trail, c)
    || exists k, i :: 0 <= k < |item.fields| && Holds(t, item.fields, "children", item.fields[k].1)
                      && item.fields[k].1.JArray? && 0 <= i < |item.fields[k].1.items|
                      && Proposes(t, item.fields[k].1.items[i], trail, c)
  }

  ghost predicate ChildProposes(t: Text, children: seq<Json>, trail: seq<string>, c: Candidate) {
    exists i :: 0 <= i < |children| && Proposes(t, children[i], trail, c)
  }

  lemma ProposesUnfolds(t: Text, item: Json, trail: seq<string>, name: string, c: Candidate)
    requires item.JObject? && TextAt(t, item.fields, "path", 4096, name) && Below(t, item).Some?
    ensures Proposes(t, item, trail, c)
       <==> Describes(t, item.fields, trail + [name], c) || ChildProposes(t, Below(t, item).value, trail + [name], c)
  {
    RequireExactly(t, item.fields, "path", 4096, name);
    forall other | TextAt(t, item.fields, "path", 4096, other) ensures other == name {
      RequireExactly(t, item.fields, "path", 4096, other);
    }
    var children := Get(t, item.fields, "children");
    GetHolds(t, item.fields, "children");
    forall k | 0 <= k < |item.fields| && Holds(t, item.fields, "children", item.fields[k].1)
      ensures item.fields[k].1 == children
    {
      HoldsOnce(t, item.fields, "children", children, item.fields[k].1);
    }
    if children != JNull {
      var k :| 0 <= k < |item.fields| && item.fields[k].1 == children;
      assert Holds(t, item.fields, "children", item.fields[k].1);
    }
  }

  lemma {:induction false} WalkExactly(t: Text, item: Json, trail: seq<string>, parent: string, c: Candidate)
    requires item.JObject? && Named(trail) && parent == Dots(trail) && Walk(t, item, parent).Some?
    ensures c in Walk(t, item, parent).value <==> Proposes(t, item, trail, c)
    decreases item, 1, 0
  {
    var own, below := Own(t, item, parent).value, Below(t, item).value;
    var name := RequireString(t, Get(t, item.fields, "path"), 4096).value;
    RequireExactly(t, item.fields, "path", 4096, name);
    OwnExactly(t, item, trail, parent, name, c, Get(t, item.fields, "children"));
    DotsStep(trail, parent, name);
    WalkBelowExactly(t, item, below, trail + [name], own.path, c);
    ProposesUnfolds(t, item, trail, name, c);
  }

  lemma {:induction false} WalkBelowExactly(t: Text, item: Json, children: seq<Json>, trail: seq<string>, parent: string, c: Candidate)
    requires forall i :: 0 <= i < |children| ==> children[i] < item && children[i].JObject?
    requires Named(trail) && parent == Dots(trail) && WalkBelow(t, item, children, parent).Some?
    ensures c in WalkBelow(t, item, children, parent).value <==> ChildProposes(t, children, trail, c)
    decreases item, 0, |children|
  {
    if children != [] {
      WalkExactly(t, children[0], trail, parent, c);
      WalkBelowExactly(t, item, children[1..], trail, parent, c);
      FirstOrLater(t, children, trail, c);
    }
  }

  lemma FirstOrLater(t: Text, children: seq<Json>, trail: seq<string>, c: Candidate)
    requires children != []
    ensures ChildProposes(t, children, trail, c)
       <==> Proposes(t, children[0], trail, c) || ChildProposes(t, children[1..], trail, c)
  {
    var rest := children[1..];
    if i :| 0 <= i < |rest| && Proposes(t, rest[i], trail, c) { assert children[i + 1] == rest[i]; }
    if i :| 0 < i < |children| && Proposes(t, children[i], trail, c) { assert rest[i - 1] == children[i]; }
  }

  lemma {:induction false} WalkAllExactly(t: Text, items: seq<Json>, c: Candidate)
    requires (forall i :: 0 <= i < |items| ==> items[i].JObject?) && WalkAll(t, items).Some?
    ensures c in WalkAll(t, items).value <==> ChildProposes(t, items, [], c)
  {
    if items != [] {
      WalkExactly(t, items[0], [], "", c);
      WalkAllExactly(t, items[1..], c);
      FirstOrLater(t, items, [], c);
    }
  }

  // ---------------------------------------------------------------- the payload

  /** The leaf is the value itself, or is reached through a member, under `.key`, or an item, under
      `[index]`. */
  ghost predicate Reached(v: Json, path: string, leaf: Place) {
    match v
    case JObject(fields) => exists k :: 0 <= k < |fields| && Reached(fields[k].1, path + "." + fields[k].0, leaf)
    case JArray(items) => exists k :: 0 <= k < |items| && Reached(items[k], path + "[" + Decimal(k) + "]", leaf)
    case _ => leaf == Place(path, v)
  }

  ghost predicate OneReaches(places: seq<Place>, leaf: Place) {
    exists k :: 0 <= k < |places| && Reached(places[k].value, places[k].path, leaf)
  }

  lemma ReachedInside(v: Json, path: string, leaf: Place)
    requires !Scalar(v)
    ensures Reached(v, path, leaf) <==> OneReaches(Inside(v, path), leaf)
  {
    var inside := Inside(v, path);
    if Reached(v, path, leaf) {
      if v.JObject? {
        var k :| 0 <= k < |v.fields| && Reached(v.fields[k].1, path + "." + v.fields[k].0, leaf);
        assert inside[k] == Place(path + "." + v.fields[k].0, v.fields[k].1);
      } else {
        var k :| 0 <= k < |v.items| && Reached(v.items[k], path + "[" + Decimal(k) + "]", leaf);
        assert inside[k] == Place(path + "[" + Decimal(k) + "]", v.items[k]);
      }
    }
  }

  lemma {:induction false} LeavesExactly(v: Json, path: string, leaf: Place)
    ensures leaf in Leaves(v, path) <==> Reached(v, path, leaf)
    decreases v, 1, 0
  {
    if !Scalar(v) {
      LeavesAllExactly(v, Inside(v, path), leaf);
      ReachedInside(v, path, leaf);
    }
  }

  lemma {:induction false} LeavesAllExactly(v: Json, places: seq<Place>, leaf: Place)
    requires forall i :: 0 <= i < |places| ==> places[i].value < v
    ensures leaf in LeavesAll(v, places) <==> OneReaches(places, leaf)
    decreases v, 0, |places|
  {
    if places != [] {
      var rest := places[1..];
      LeavesExactly(places[0].value, places[0].path, leaf);
      LeavesAllExactly(v, rest, leaf);
      if k :| 0 <= k < |rest| && Reached(rest[k].value, rest[k].path, leaf) { assert places[k + 1] == rest[k]; }
      if k :| 0 < k < |places| && Reached(places[k].value, places[k].path, leaf) { assert rest[k - 1] == places[k]; }
    }
  }

  // ---------------------------------------------------------------- both together

  ghost predicate DeltaProposes(t: Text, change: Fields, c: Candidate) {
    exists k, i :: 0 <= k < |change| && Holds(t, change, "delta", change[k].1) && change[k].1.JArray?
                   && 0 <= i < |change[k].1.items| && Proposes(t, change[k].1.items[i], [], c)
  }

  ghost predicate PayloadReaches(t: Text, change: Fields, leaf: Place) {
    exists k :: 0 <= k < |change| && Holds(t, change, "after", change[k].1) && !Scalar(change[k].1)
                && Reached(change[k].1, "<resource>", leaf)
  }

  /** What a change proposes: something of its delta, or a leaf of its payload. */
  ghost predicate ChangeProposes(t: Text, change: Fields, c: Candidate) {
    DeltaProposes(t, change, c) || (c.change == "set" && PayloadReaches(t, change, Place(c.path, c.after)))
  }

  lemma AsCandidatesMember(places: seq<Place>, c: Candidate)
    ensures c in AsCandidates(places) <==> c.change == "set" && Place(c.path, c.after) in places
  {
    var cs := AsCandidates(places);
    if i :| 0 <= i < |cs| && cs[i] == c { assert places[i] == Place(c.path, c.after); }
    if c.change == "set" {
      if i :| 0 <= i < |places| && places[i] == Place(c.path, c.after) { assert cs[i] == c; }
    }
  }

  lemma PayloadExactly(t: Text, change: Fields, c: Candidate, after: Json)
    requires after == Get(t, change, "after")
    ensures (!Scalar(after) && c in AsCandidates(Leaves(after, "<resource>")))
       <==> c.change == "set" && PayloadReaches(t, change, Place(c.path, c.after))
  {
    GetHolds(t, change, "after");
    forall k | 0 <= k < |change| && Holds(t, change, "after", change[k].1) ensures change[k].1 == after {
      HoldsOnce(t, change, "after", after, change[k].1);
    }
    AsCandidatesMember(Leaves(after, "<resource>"), c);
    LeavesExactly(after, "<resource>", Place(c.path, c.after));
    if after != JNull {
      var k :| 0 <= k < |change| && change[k].1 == after;
      assert Holds(t, change, "after", change[k].1);
    }
  }

  lemma DeltaExactly(t: Text, change: Fields, c: Candidate, delta: Json)
    requires delta == Get(t, change, "delta") && ObjectList(delta) && WalkAll(t, delta.items).Some?
    ensures c in WalkAll(t, delta.items).value <==> DeltaProposes(t, change, c)
  {
    GetHolds(t, change, "delta");
    forall k | 0 <= k < |change| && Holds(t, change, "delta", change[k].1) ensures change[k].1 == delta {
      HoldsOnce(t, change, "delta", delta, change[k].1);
    }
    WalkAllExactly(t, delta.items, c);
    var k :| 0 <= k < |change| && change[k].1 == delta;
    assert Holds(t, change, "delta", change[k].1);
  }

  lemma NoDelta(t: Text, change: Fields)
    requires Get(t, change, "delta") == JNull
    ensures forall k :: 0 <= k < |change| && Holds(t, change, "delta", change[k].1) ==> change[k].1 == JNull
  {
    GetHolds(t, change, "delta");
    forall k | 0 <= k < |change| && Holds(t, change, "delta", change[k].1) ensures change[k].1 == JNull {
      HoldsOnce(t, change, "delta", JNull, change[k].1);
    }
  }

  /** The candidates collected are exactly what the change proposes. */
  lemma CandidatesExactly(t: Text, change: Fields, c: Candidate)
    requires Candidates(t, change).Some?
    ensures c in Candidates(t, change).value <==> ChangeProposes(t, change, c)
  {
    var delta, after := Get(t, change, "delta"), Get(t, change, "after");
    PayloadExactly(t, change, c, after);
    if delta == JNull { NoDelta(t, change); } else { DeltaExactly(t, change, c, delta); }
  }

  // ---------------------------------------------------------------- which deltas can be read

  /** An item says what has to be known of its property, and so does everything below it. */
  ghost predicate ItemReadable(t: Text, item: Json)
    decreases item
  {
    && item.JObject? && (exists trail, c :: Describes(t, item.fields, trail, c))
    && (|| Holds(t, item.fields, "children", JNull)
        || exists k :: 0 <= k < |item.fields| && Holds(t, item.fields, "children", item.fields[k].1)
                       && ListReadable(t, item.fields[k].1))
  }

  ghost predicate ListReadable(t: Text, list: Json)
    decreases list
  {
    list.JArray? && |list.items| <= 5000 && forall i :: 0 <= i < |list.items| ==> ItemReadable(t, list.items[i])
  }

  ghost predicate DeltaReadable(t: Text, change: Fields) {
    || Holds(t, change, "delta", JNull)
    || exists k :: 0 <= k < |change| && Holds(t, change, "delta", change[k].1) && ListReadable(t, change[k].1)
  }

  lemma SomeList(t: Text, fields: Fields, name: string, list: Json)
    requires list == Get(t, fields, name)
    ensures (Holds(t, fields, name, JNull)
             || exists k :: 0 <= k < |fields| && Holds(t, fields, name, fields[k].1) && ListReadable(t, fields[k].1))
       <==> list == JNull || ListReadable(t, list)
  {
    GetHolds(t, fields, name);
    GetExactly(t, fields, name, JNull);
    forall k | 0 <= k < |fields| && Holds(t, fields, name, fields[k].1) ensures fields[k].1 == list {
      HoldsOnce(t, fields, name, list, fields[k].1);
    }
    if list != JNull {
      var k :| 0 <= k < |fields| && fields[k].1 == list;
      assert Holds(t, fields, name, fields[k].1);
    }
  }

  lemma OwnReadable(t: Text, item: Json, parent: string)
    requires item.JObject?
    ensures Own(t, item, parent).Some? <==> exists trail, c :: Describes(t, item.fields, trail, c)
  {
    var children, own := Get(t, item.fields, "children"), Own(t, item, "");
    if own.Some? {
      var name := RequireString(t, Get(t, item.fields, "path"), 4096).value;
      RequireExactly(t, item.fields, "path", 4096, name);
      OwnExactly(t, item, [], "", name, own.value, children);
    }
    if trail, c :| Describes(t, item.fields, trail, c) {
      var name := trail[|trail| - 1];
      assert Describes(t, item.fields, [] + [name], c.(path := name));
      OwnExactly(t, item, [], "", name, c.(path := name), children);
    }
  }

  lemma {:induction false} WalkReadable(t: Text, item: Json, parent: string)
    requires item.JObject?
    ensures Walk(t, item, parent).Some? <==> ItemReadable(t, item)
    decreases item, 1, 0
  {
    var own, below, children := Own(t, item, parent), Below(t, item), Get(t, item.fields, "children");
    OwnReadable(t, item, parent);
    SomeList(t, item.fields, "children", children);
    if own.Some? && below.Some? { WalkBelowReadable(t, item, below.value, own.value.path); }
  }

  lemma {:induction false} WalkBelowReadable(t: Text, item: Json, children: seq<Json>, parent: string)
    requires forall i :: 0 <= i < |children| ==> children[i] < item && children[i].JObject?
    ensures WalkBelow(t, item, children, parent).Some? <==> forall i :: 0 <= i < |children| ==> ItemReadable(t, children[i])
    decreases item, 0, |children|
  {
    if children != [] {
      WalkReadable(t, children[0], parent);
      WalkBelowReadable(t, item, children[1..], parent);
      ReadableByTail(t, children);
    }
  }

  lemma ReadableByTail(t: Text, items: seq<Json>)
    requires items != []
    ensures (forall i :: 0 <= i < |items| ==> ItemReadable(t, items[i]))
       <==> ItemReadable(t, items[0]) && forall i :: 0 <= i < |items[1..]| ==> ItemReadable(t, items[1..][i])
  {
    if ItemReadable(t, items[0]) && forall i :: 0 <= i < |items[1..]| ==> ItemReadable(t, items[1..][i]) {
      forall i | 0 <= i < |items| ensures ItemReadable(t, items[i]) {
        if i > 0 { assert items[i] == items[1..][i - 1]; }
      }
    }
  }

  lemma {:induction false} WalkAllReadable(t: Text, items: seq<Json>)
    requires forall i :: 0 <= i < |items| ==> items[i].JObject?
    ensures WalkAll(t, items).Some? <==> forall i :: 0 <= i < |items| ==> ItemReadable(t, items[i])
  {
    if items != [] {
      WalkReadable(t, items[0], "");
      WalkAllReadable(t, items[1..]);
      ReadableByTail(t, items);
    }
  }

  /** The candidates can be collected exactly when the delta can be read. */
  lemma DeltaReadableExactly(t: Text, change: Fields)
    ensures Candidates(t, change).Some? <==> DeltaReadable(t, change)
  {
    var delta := Get(t, change, "delta");
    SomeList(t, change, "delta", delta);
    if ObjectList(delta) { WalkAllReadable(t, delta.items); }
  }
}
