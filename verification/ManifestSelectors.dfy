/** The selectors of a manifest, which nest: filling in their defaults and sorting their children. */
module ManifestSelectors {

  import opened Timestamps
  import opened StableSort

  /** The property names the code mentions, and all others. */
  datatype Name =
    | Roles | Relationships | Constraints | Controls | RiskAcceptances | Objectives | Ownership
    | WeakeningOverrides | DisabledRefs | Profiles | Compatibility | Workload
    | RoleId | RelationshipId | ExceptionId | ConstraintId | ControlId | RiskAcceptanceId | ObjectiveId
    | OwnerRef | OverrideId | TargetKind | TargetRef | SelectorId
    | Status | Selectors | SelectorType | Locations | ResourceGroups | InstanceIds | Children
    | Protected | LinkedControlRefs | AcceptedResourceBindings
    | ArtifactDigest | SemanticDigest | SchemaVersion | DisplayName | Proto
    | Other(text: Text)

  /** The string values the code mentions. */
  datatype Word = ResourceType | VmScaleSet | Approved

  /** A JSON value. An object is its properties; their order never reaches the canonical text. */
  datatype Node =
    | Null
    | Flag(value: bool)
    | Number(token: Text)
    | Known(word: Word)
    | Str(text: Text)
    | List(items: seq<Node>)
    | Obj(fields: map<Name, Node>)

  type Object = map<Name, Node>

  /** `String(...)` and Unicode case folding after NFC. */
  datatype Texts = Texts(spell: Node -> Text, fold: Text -> Text)

  // ---------------------------------------------------------------- comparison

  /** `Array.from(text, c => c.codePointAt(0))`. */
  function CodePoints(t: Text): seq<int> {
    if t == [] then []
    else if |t| >= 2 && High(t[0]) && Low(t[1]) then
      [0x10000 + (t[0] - 0xd800) as int * 0x400 + (t[1] - 0xdc00) as int] + CodePoints(t[2..])
    else [t[0]] + CodePoints(t[1..])
  }

  function KeyText(x: Texts, o: Object, name: Name): seq<int> {
    CodePoints(x.fold(x.spell(if name in o && o[name] != Null then o[name] else Str([]))))
  }

  function KeysOf(x: Texts, names: seq<Name>, n: Node): seq<seq<int>> {
    if names == [] then []
    else [if n.Obj? then KeyText(x, n.fields, names[0]) else []] + KeysOf(x, names[1..], n)
  }

  /** `compareKeys`: the first key that differs decides. */
  predicate KeysLeq(a: seq<seq<int>>, b: seq<seq<int>>) {
    a == [] || (b != [] && LexLeq(a[0], b[0]) && (a[0] == b[0] ==> KeysLeq(a[1..], b[1..])))
  }

  lemma {:induction false} KeysTotal(a: seq<seq<int>>, b: seq<seq<int>>)
    ensures KeysLeq(a, b) || KeysLeq(b, a)
  {
    if a != [] && b != [] {
      LexTotal(a[0], b[0]);
      KeysTotal(a[1..], b[1..]);
    }
  }

  lemma {:induction false} KeysTransitive(a: seq<seq<int>>, b: seq<seq<int>>, c: seq<seq<int>>)
    requires KeysLeq(a, b) && KeysLeq(b, c)
    ensures KeysLeq(a, c)
  {
    if a != [] && b != [] && c != [] {
      LexTransitive(a[0], b[0], c[0]);
      if a[0] == c[0] { LexAntisymmetric(a[0], b[0]); }
      if a[0] == b[0] == c[0] { KeysTransitive(a[1..], b[1..], c[1..]); }
    }
  }

  lemma {:induction false} KeysAntisymmetric(a: seq<seq<int>>, b: seq<seq<int>>)
    requires KeysLeq(a, b) && KeysLeq(b, a)
    ensures a == b
  {
    if a != [] {
      LexAntisymmetric(a[0], b[0]);
      KeysAntisymmetric(a[1..], b[1..]);
      assert a == [a[0]] + a[1..] && b == [b[0]] + b[1..];
    }
  }

  type Key = Node -> seq<seq<int>>

  /** The case-folded texts of the given fields. */
  function KeyBy(x: Texts, names: seq<Name>): Key { n => KeysOf(x, names, n) }

  function SelectorKey(x: Texts): Key { KeyBy(x, [SelectorId]) }

  /** The comparison of two elements by a key. */
  function By(key: Key): (Node, Node) -> bool {
    (a, b) => KeysLeq(key(a), key(b))
  }

  lemma ByIsOrder(key: Key)
    ensures Order(By(key))
  {
    forall a: Node, b: Node ensures By(key)(a, b) || By(key)(b, a) { KeysTotal(key(a), key(b)); }
    forall a: Node, b: Node, c: Node | By(key)(a, b) && By(key)(b, c) ensures By(key)(a, c) {
      KeysTransitive(key(a), key(b), key(c));
    }
  }

  function SortBy(key: Key, items: seq<Node>): seq<Node> { Sort(By(key), items) }

  lemma SortByInside(key: Key, items: seq<Node>)
    ensures |SortBy(key, items)| == |items| && multiset(SortBy(key, items)) == multiset(items)
    ensures forall n :: n in SortBy(key, items) <==> n in items
  {
    ByIsOrder(key);
    SortSorts(By(key), items);
    forall n ensures n in SortBy(key, items) <==> n in items {
      assert n in multiset(SortBy(key, items)) <==> n in multiset(items);
    }
  }

  /** No two elements have the same case-folded keys. */
  predicate UniqueKeys(key: Key, items: seq<Node>) {
    forall i, j :: 0 <= i < j < |items| ==> key(items[i]) != key(items[j])
  }

  // ---------------------------------------------------------------- selectors

  /** `??=`. */
  function Fill(o: Object, name: Name, value: Node): Object {
    if name in o && o[name] != Null then o else o[name := value]
  }

  function FillSelector(o: Object): Object {
    if SelectorType in o && o[SelectorType] == Known(ResourceType) then
      Fill(Fill(o, Locations, List([])), ResourceGroups, List([]))
    else if SelectorType in o && o[SelectorType] == Known(VmScaleSet) then Fill(o, InstanceIds, List([]))
    else o
  }

  predicate HasChildren(n: Node) { n.Obj? && Children in n.fields && n.fields[Children].List? }

  /** `materializeSelector`, and nothing for what is no object. */
  function MaterializeSelector(n: Node): Node
    decreases n, 1, 0
  {
    if !n.Obj? then n
    else
      var filled := FillSelector(n.fields);
      Obj(if HasChildren(n) then filled[Children := List(MaterializeAll(n, n.fields[Children].items))] else filled)
  }

  function MaterializeAll(n: Node, items: seq<Node>): seq<Node>
    requires forall i :: 0 <= i < |items| ==> items[i] < n
    decreases n, 0, |items|
  {
    if items == [] then [] else [MaterializeSelector(items[0])] + MaterializeAll(n, items[1..])
  }

  function Objects(items: seq<Node>): seq<Node> {
    if items == [] then [] else (if items[0].Obj? then [items[0]] else []) + Objects(items[1..])
  }

  lemma {:induction false} ObjectsInside(items: seq<Node>)
    ensures forall n :: n in Objects(items) ==> n in items && n.Obj?
  {
    if items != [] { ObjectsInside(items[1..]); }
  }

  /** The children that are kept, in order. */
  function OrderedChildren(x: Texts, n: Node): (r: seq<Node>)
    requires HasChildren(n)
    ensures forall i :: 0 <= i < |r| ==> r[i] < n && r[i].Obj?
  {
    var items := n.fields[Children].items;
    ObjectsInside(items);
    SortByInside(SelectorKey(x), Objects(items));
    var r := SortBy(SelectorKey(x), Objects(items));
    assert forall i :: 0 <= i < |r| ==> r[i] in items && r[i].Obj?;
    r
  }

  /** `sortSelectorChildren`. */
  function SortSelector(x: Texts, n: Node): Node
    decreases n, 1, 0
  {
    if !HasChildren(n) then n
    else Obj(n.fields[Children := List(SortAll(x, n, OrderedChildren(x, n)))])
  }

  function SortAll(x: Texts, n: Node, items: seq<Node>): seq<Node>
    requires forall i :: 0 <= i < |items| ==> items[i] < n
    decreases n, 0, |items|
  {
    if items == [] then [] else [SortSelector(x, items[0])] + SortAll(x, n, items[1..])
  }

  // ---------------------------------------------------------------- as maps

  function Materializing(): Node -> Node { n => MaterializeSelector(n) }
  function Sorting(x: Texts): Node -> Node { n => SortSelector(x, n) }

  lemma {:induction false} MaterializeAllIsMap(n: Node, items: seq<Node>)
    requires forall i :: 0 <= i < |items| ==> items[i] < n
    ensures MaterializeAll(n, items) == Map(Materializing(), items)
  {
    if items != [] { MaterializeAllIsMap(n, items[1..]); }
  }

  lemma {:induction false} SortAllIsMap(x: Texts, n: Node, items: seq<Node>)
    requires forall i :: 0 <= i < |items| ==> items[i] < n
    ensures SortAll(x, n, items) == Map(Sorting(x), items)
  {
    if items != [] { SortAllIsMap(x, n, items[1..]); }
  }

  lemma SelectorKeyIs(x: Texts, n: Node)
    ensures SelectorKey(x)(n) == [if n.Obj? then KeyText(x, n.fields, SelectorId) else []]
  {
    var one := [SelectorId];
    assert one[1..] == [];
    assert KeysOf(x, [], n) == [];
  }

  lemma SameIdSameKey(x: Texts, a: Node, b: Node)
    requires a.Obj? == b.Obj?
    requires a.Obj? ==> (SelectorId in a.fields <==> SelectorId in b.fields)
    requires a.Obj? && SelectorId in a.fields ==> a.fields[SelectorId] == b.fields[SelectorId]
    ensures SelectorKey(x)(a) == SelectorKey(x)(b)
  {
    SelectorKeyIs(x, a);
    SelectorKeyIs(x, b);
  }

  /** Neither pass touches what selectors are compared by. */
  lemma PassesKeepKeys(x: Texts, n: Node)
    ensures MaterializeSelector(n).Obj? == n.Obj? && SortSelector(x, n).Obj? == n.Obj?
    ensures SelectorKey(x)(MaterializeSelector(n)) == SelectorKey(x)(n)
    ensures SelectorKey(x)(SortSelector(x, n)) == SelectorKey(x)(n)
  {
    SameIdSameKey(x, MaterializeSelector(n), n);
    SameIdSameKey(x, SortSelector(x, n), n);
  }

  lemma {:induction false} ObjectsOfMaterialized(items: seq<Node>)
    ensures Objects(Map(Materializing(), items)) == Map(Materializing(), Objects(items))
  {
    if items != [] {
      var mapped := Map(Materializing(), items);
      ObjectsOfMaterialized(items[1..]);
      assert mapped[0] == MaterializeSelector(items[0]) && mapped[1..] == Map(Materializing(), items[1..]);
      var rest := Objects(items[1..]);
      if items[0].Obj? {
        assert Objects(items) == [items[0]] + rest && ([items[0]] + rest)[1..] == rest;
      } else {
        assert Objects(items) == rest;
      }
    }
  }

  lemma {:induction false} ObjectsOfObjects(items: seq<Node>)
    requires forall i :: 0 <= i < |items| ==> items[i].Obj?
    ensures Objects(items) == items
  {
    if items != [] {
      ObjectsOfObjects(items[1..]);
      assert items == [items[0]] + items[1..];
    }
  }

  /** What the two passes leave as children, in one expression. */
  lemma MaterializedChildren(n: Node)
    requires HasChildren(n)
    ensures HasChildren(MaterializeSelector(n))
    ensures MaterializeSelector(n).fields[Children].items == Map(Materializing(), n.fields[Children].items)
    ensures MaterializeSelector(n).fields == FillSelector(n.fields)[Children := MaterializeSelector(n).fields[Children]]
  {
    MaterializeAllIsMap(n, n.fields[Children].items);
  }

  lemma SortedChildren(x: Texts, n: Node)
    requires HasChildren(n)
    ensures HasChildren(SortSelector(x, n))
    ensures SortSelector(x, n).fields[Children].items == Map(Sorting(x), OrderedChildren(x, n))
    ensures SortSelector(x, n).fields == n.fields[Children := SortSelector(x, n).fields[Children]]
  {
    SortAllIsMap(x, n, OrderedChildren(x, n));
  }

  ghost predicate KeepsKey(key: Key, f: Node -> Node) { forall n: Node :: key(f(n)) == key(n) }

  lemma SortCommutesWith(key: Key, f: Node -> Node, items: seq<Node>)
    requires KeepsKey(key, f)
    ensures SortBy(key, Map(f, items)) == Map(f, SortBy(key, items))
  {
    ByIsOrder(key);
    SortMap(f, By(key), By(key), items);
  }

  lemma KeysKept(x: Texts)
    ensures KeepsKey(SelectorKey(x), Materializing()) && KeepsKey(SelectorKey(x), Sorting(x))
  {
    forall n: Node
      ensures SelectorKey(x)(Materializing()(n)) == SelectorKey(x)(n)
      ensures SelectorKey(x)(Sorting(x)(n)) == SelectorKey(x)(n)
    {
      PassesKeepKeys(x, n);
    }
  }

  // ---------------------------------------------------------------- both passes are idempotent and commute

  lemma {:induction false} MaterializeTwice(n: Node)
    ensures MaterializeSelector(MaterializeSelector(n)) == MaterializeSelector(n)
    decreases n
  {
    if HasChildren(n) {
      var items := n.fields[Children].items;
      var once := MaterializeSelector(n);
      MaterializedChildren(n);
      MaterializedChildren(once);
      forall c | c in items ensures MaterializeSelector(MaterializeSelector(c)) == MaterializeSelector(c) { MaterializeTwice(c); }
      MapTwice(Materializing(), Materializing(), Materializing(), items);
      FillTwice(n.fields, once.fields[Children]);
    }
  }

  lemma FillTwice(o: Object, children: Node)
    ensures FillSelector(FillSelector(o)[Children := children]) == FillSelector(o)[Children := children]
    ensures FillSelector(FillSelector(o)) == FillSelector(o)
  {
  }

  lemma SortedChildrenStay(x: Texts, n: Node)
    requires HasChildren(n)
    ensures OrderedChildren(x, SortSelector(x, n)) == Map(Sorting(x), OrderedChildren(x, n))
  {
    var sorted := OrderedChildren(x, n);
    var mapped := Map(Sorting(x), sorted);
    SortedChildren(x, n);
    MapLength(Sorting(x), sorted);
    forall i | 0 <= i < |mapped| ensures mapped[i].Obj? { MapAt(Sorting(x), sorted, i); }
    ObjectsOfObjects(mapped);
    KeysKept(x);
    SortCommutesWith(SelectorKey(x), Sorting(x), sorted);
    ByIsOrder(SelectorKey(x));
    SortSorts(By(SelectorKey(x)), Objects(n.fields[Children].items));
    SortedStays(By(SelectorKey(x)), sorted);
  }

  lemma {:induction false} SortTwice(x: Texts, n: Node)
    ensures SortSelector(x, SortSelector(x, n)) == SortSelector(x, n)
    decreases n
  {
    if HasChildren(n) {
      var sorted := OrderedChildren(x, n);
      var once := SortSelector(x, n);
      SortedChildren(x, n);
      SortedChildrenStay(x, n);
      SortedChildren(x, once);
      forall c | c in sorted ensures SortSelector(x, SortSelector(x, c)) == SortSelector(x, c) { SortTwice(x, c); }
      MapTwice(Sorting(x), Sorting(x), Sorting(x), sorted);
    }
  }

  function Canonizing(x: Texts): Node -> Node { n => SortSelector(x, MaterializeSelector(n)) }

  /** The children of a selector after both passes. */
  lemma CanonicalChildren(x: Texts, n: Node)
    requires HasChildren(n)
    ensures HasChildren(MaterializeSelector(n))
    ensures OrderedChildren(x, MaterializeSelector(n)) == Map(Materializing(), OrderedChildren(x, n))
  {
    MaterializedChildren(n);
    ObjectsOfMaterialized(n.fields[Children].items);
    KeysKept(x);
    SortCommutesWith(SelectorKey(x), Materializing(), Objects(n.fields[Children].items));
  }

  lemma CanonicalChildrenMapped(x: Texts, n: Node, m: Node)
    requires HasChildren(n) && m == MaterializeSelector(n)
    ensures HasChildren(m) && HasChildren(SortSelector(x, m))
    ensures SortSelector(x, m).fields[Children].items == Map(Canonizing(x), OrderedChildren(x, n))
  {
    CanonicalChildren(x, n);
    SortedChildren(x, m);
    forall c | c in OrderedChildren(x, n) ensures Sorting(x)(Materializing()(c)) == Canonizing(x)(c) {}
    MapTwice(Materializing(), Sorting(x), Canonizing(x), OrderedChildren(x, n));
  }

  /** An object is known by its children and by the rest. */
  lemma ShapeOf(f: Object, m: Node, s: Node, kept: seq<Node>)
    requires HasChildren(m) && m.fields == f[Children := m.fields[Children]]
    requires HasChildren(s) && s.fields == m.fields[Children := s.fields[Children]] && s.fields[Children].items == kept
    ensures s == Obj(f[Children := List(kept)])
  {
    assert s.fields[Children] == List(kept);
  }

  lemma ShapeIs(f: Object, s: Node, kept: seq<Node>)
    requires HasChildren(s) && s.fields == f[Children := s.fields[Children]] && s.fields[Children].items == kept
    ensures s == Obj(f[Children := List(kept)])
  {
    assert s.fields[Children] == List(kept);
  }

  predicate Commutes(x: Texts, n: Node) {
    MaterializeSelector(SortSelector(x, n)) == SortSelector(x, MaterializeSelector(n))
  }

  lemma CanonicalShape(x: Texts, n: Node, f: Object)
    requires HasChildren(n) && f == FillSelector(n.fields)
    ensures SortSelector(x, MaterializeSelector(n)) == Obj(f[Children := List(Map(Canonizing(x), OrderedChildren(x, n)))])
  {
    var m := MaterializeSelector(n);
    CanonicalChildrenMapped(x, n, m);
    MaterializedChildren(n);
    SortedChildren(x, m);
    ShapeOf(f, m, SortSelector(x, m), Map(Canonizing(x), OrderedChildren(x, n)));
  }

  lemma {:induction false} CommutedChildren(x: Texts, n: Node, once: Node)
    requires HasChildren(n) && once == SortSelector(x, n)
    requires forall c :: c in OrderedChildren(x, n) ==> Commutes(x, c)
    ensures HasChildren(once) && HasChildren(MaterializeSelector(once))
    ensures MaterializeSelector(once).fields[Children].items == Map(Canonizing(x), OrderedChildren(x, n))
  {
    SortedChildren(x, n);
    MaterializedChildren(once);
    forall c | c in OrderedChildren(x, n) ensures Materializing()(Sorting(x)(c)) == Canonizing(x)(c) { assert Commutes(x, c); }
    MapTwice(Sorting(x), Materializing(), Canonizing(x), OrderedChildren(x, n));
  }

  lemma FillBesideChildren(o: Object, children: Node)
    ensures FillSelector(o[Children := children]) == FillSelector(o)[Children := children]
  {
  }

  lemma SortedThenFilled(x: Texts, n: Node, once: Node, t: Node, f: Object)
    requires HasChildren(n) && once == SortSelector(x, n) && t == MaterializeSelector(once) && f == FillSelector(n.fields)
    ensures HasChildren(t) && t.fields == f[Children := t.fields[Children]]
  {
    SortedChildren(x, n);
    MaterializedChildren(once);
    FillBesideChildren(n.fields, once.fields[Children]);
  }

  lemma CommutedShape(x: Texts, n: Node, once: Node, t: Node, f: Object)
    requires HasChildren(n) && once == SortSelector(x, n) && t == MaterializeSelector(once) && f == FillSelector(n.fields)
    requires forall c :: c in OrderedChildren(x, n) ==> Commutes(x, c)
    ensures t == Obj(f[Children := List(Map(Canonizing(x), OrderedChildren(x, n)))])
  {
    CommutedChildren(x, n, once);
    SortedThenFilled(x, n, once, t, f);
    ShapeIs(f, t, Map(Canonizing(x), OrderedChildren(x, n)));
  }

  /** Defaults may be filled in before or after sorting. */
  lemma {:induction false} PassesCommute(x: Texts, n: Node)
    ensures Commutes(x, n)
    decreases n
  {
    if HasChildren(n) {
      forall c | c in OrderedChildren(x, n) ensures Commutes(x, c) { PassesCommute(x, c); }
      var once := SortSelector(x, n);
      CommutedShape(x, n, once, MaterializeSelector(once), FillSelector(n.fields));
      CanonicalShape(x, n, FillSelector(n.fields));
    } else {
      NoChildren(n);
    }
  }

  lemma NoChildren(n: Node)
    requires !HasChildren(n)
    ensures !HasChildren(MaterializeSelector(n))
  {
  }
}
