/** What the two digests of a manifest are computed from: the manifest with its defaults filled in and
    its collections sorted. */
module ManifestDigests {

  import opened Timestamps
  import opened StableSort
  import opened ManifestSelectors

  // ---------------------------------------------------------------- comparing texts

  lemma PairIsUnique(h: Unit, l: Unit, i: Unit, m: Unit)
    requires High(h) && Low(l) && High(i) && Low(m)
    requires (h - 0xd800) * 0x400 + (l - 0xdc00) == (i - 0xd800) * 0x400 + (m - 0xdc00)
    ensures h == i && l == m
  {
  }

  /** Texts are determined by their code points. */
  lemma {:induction false} CodePointsDetermine(a: Text, b: Text)
    requires CodePoints(a) == CodePoints(b)
    ensures a == b
    decreases |a|
  {
    if a == [] || b == [] {
    } else if |a| >= 2 && High(a[0]) && Low(a[1]) {
      assert CodePoints(a)[0] == CodePoints(b)[0];
      assert CodePoints(a)[1..] == CodePoints(a[2..]) && CodePoints(b)[1..] == CodePoints(b[2..]);
      PairIsUnique(a[0], a[1], b[0], b[1]);
      CodePointsDetermine(a[2..], b[2..]);
      assert a == [a[0], a[1]] + a[2..] && b == [b[0], b[1]] + b[2..];
    } else {
      assert CodePoints(a)[0] == CodePoints(b)[0];
      assert CodePoints(a)[1..] == CodePoints(a[1..]) && CodePoints(b)[1..] == CodePoints(b[1..]);
      CodePointsDetermine(a[1..], b[1..]);
      assert a == [a[0]] + a[1..] && b == [b[0]] + b[1..];
    }
  }

  /** `comparePythonText`: a total order on texts, by code points. */
  method ComparePythonText(left: Text, right: Text) returns (r: int)
    ensures r <= 0 <==> LexLeq(CodePoints(left), CodePoints(right))
    ensures r == 0 <==> left == right
  {
    var leftCodePoints, rightCodePoints := CodePoints(left), CodePoints(right);
    var length := if |leftCodePoints| <= |rightCodePoints| then |leftCodePoints| else |rightCodePoints|;
    assert leftCodePoints[0..] == leftCodePoints && rightCodePoints[0..] == rightCodePoints;
    for index := 0 to length
      invariant leftCodePoints[..index] == rightCodePoints[..index]
      invariant LexLeq(leftCodePoints[index..], rightCodePoints[index..]) == LexLeq(leftCodePoints, rightCodePoints)
    {
      var difference := leftCodePoints[index] - rightCodePoints[index];
      if difference != 0 { return difference; }
      assert leftCodePoints[index..][1..] == leftCodePoints[index + 1..];
      assert rightCodePoints[index..][1..] == rightCodePoints[index + 1..];
    }
    r := |leftCodePoints| - |rightCodePoints|;
    if r == 0 {
      assert leftCodePoints == leftCodePoints[..length] && rightCodePoints == rightCodePoints[..length];
      CodePointsDetermine(left, right);
    }
  }

  lemma TextOrderIsTotal(a: Text, b: Text, c: Text)
    ensures LexLeq(CodePoints(a), CodePoints(b)) || LexLeq(CodePoints(b), CodePoints(a))
    ensures LexLeq(CodePoints(a), CodePoints(b)) && LexLeq(CodePoints(b), CodePoints(c)) ==> LexLeq(CodePoints(a), CodePoints(c))
    ensures LexLeq(CodePoints(a), CodePoints(b)) && LexLeq(CodePoints(b), CodePoints(a)) ==> a == b
  {
    LexTotal(CodePoints(a), CodePoints(b));
    if LexLeq(CodePoints(a), CodePoints(b)) {
      if LexLeq(CodePoints(b), CodePoints(c)) { LexTransitive(CodePoints(a), CodePoints(b), CodePoints(c)); }
      if LexLeq(CodePoints(b), CodePoints(a)) {
        LexAntisymmetric(CodePoints(a), CodePoints(b));
        CodePointsDetermine(a, b);
      }
    }
  }

  // ---------------------------------------------------------------- the elements of collections

  predicate HasSelectors(n: Node) { n.Obj? && Selectors in n.fields && n.fields[Selectors].List? }

  function WithSelectors(o: Object, items: seq<Node>): Node { Obj(o[Selectors := List(items)]) }

  function FillRole(n: Node): Node {
    if !n.Obj? then n
    else
      var o := Fill(n.fields, Status, Known(Approved));
      if HasSelectors(n) then WithSelectors(o, Map(Materializing(), n.fields[Selectors].items)) else Obj(o)
  }

  function FillConstraint(n: Node): Node { if n.Obj? then Obj(Fill(n.fields, Protected, Flag(false))) else n }

  function FillRisk(n: Node): Node {
    if n.Obj? then Obj(Fill(Fill(n.fields, LinkedControlRefs, List([])), AcceptedResourceBindings, List([]))) else n
  }

  /** What `materializeCollections` does to an element of a collection. */
  function Filling(name: Name): Node -> Node {
    match name
    case Roles => (n => FillRole(n))
    case Constraints => (n => FillConstraint(n))
    case RiskAcceptances => (n => FillRisk(n))
    case _ => (n => n)
  }

  /** What `sortContainer` does to an element after sorting the collection. */
  function SortSelectors(x: Texts, items: seq<Node>): seq<Node> { Map(Sorting(x), SortBy(SelectorKey(x), items)) }

  function SortRole(x: Texts, n: Node): Node {
    if HasSelectors(n) then WithSelectors(n.fields, SortSelectors(x, n.fields[Selectors].items)) else n
  }

  function SortingItem(x: Texts, name: Name): Node -> Node {
    match name
    case Roles => (n => SortRole(x, n))
    case _ => (n => n)
  }

  /** The fields a collection is sorted by; nothing for what is no collection. */
  function KeyFields(name: Name): seq<Name> {
    match name
    case Roles => [RoleId]
    case Constraints => [ConstraintId]
    case Controls => [ControlId]
    case RiskAcceptances => [RiskAcceptanceId]
    case Objectives => [ObjectiveId]
    case Ownership => [OwnerRef]
    case WeakeningOverrides => [OverrideId]
    case DisabledRefs => [TargetKind, TargetRef]
    case _ => []
  }

  /** A relationship is known by its own identifier or by that of the exception it is. */
  function RelationshipKey(x: Texts): Key {
    (n: Node) =>
      if !n.Obj? then []
      else if RelationshipId in n.fields && n.fields[RelationshipId] != Null then [KeyText(x, n.fields, RelationshipId)]
      else [KeyText(x, n.fields, ExceptionId)]
  }

  function CollectionKey(x: Texts, name: Name): Key {
    if name == Relationships then RelationshipKey(x) else KeyBy(x, KeyFields(name))
  }

  predicate Collection(name: Name) { name == Relationships || KeyFields(name) != [] }

  // ---------------------------------------------------------------- containers: the manifest and each profile

  function FillCollection(name: Name, v: Node): Node {
    if v.List? then List(Map(Filling(name), v.items)) else v
  }

  function SortCollection(x: Texts, name: Name, v: Node): Node {
    if v.List? && Collection(name) then List(Map(SortingItem(x, name), SortBy(CollectionKey(x, name), v.items))) else v
  }

  function FillAll(o: Object, names: seq<Name>): Object
    decreases |names|
  {
    if names == [] then o else FillAll(Fill(o, names[0], List([])), names[1..])
  }

  /** `materializeCollections`. */
  function FillContainer(o: Object): Object { map n | n in o :: FillCollection(n, o[n]) }

  /** `sortContainer`. */
  function SortContainer(x: Texts, o: Object): Object { map n | n in o :: SortCollection(x, n, o[n]) }

  const ROOT_DEFAULTS := [Relationships, Constraints, Controls, RiskAcceptances, Objectives]
  const PROFILE_DEFAULTS :=
    [Roles, Relationships, Constraints, Controls, RiskAcceptances, Objectives, Ownership, WeakeningOverrides, DisabledRefs]

  function FillProfile(n: Node): Node {
    if n.Obj? then Obj(FillContainer(FillAll(n.fields, PROFILE_DEFAULTS))) else n
  }

  function SortProfile(x: Texts, n: Node): Node { if n.Obj? then Obj(SortContainer(x, n.fields)) else n }

  /** `materializeManifestDefaults`. */
  function Materialize(m: Object): Object {
    var root := FillContainer(FillAll(m, ROOT_DEFAULTS));
    if Profiles in root && root[Profiles].Obj? then
      root[Profiles := Obj(map p | p in root[Profiles].fields :: FillProfile(root[Profiles].fields[p]))]
    else root
  }

  /** `sortManifestCollections`; the order of profile names is an order of keys, and a profile called
      `__proto__` is lost when the profiles are put into a fresh object. */
  function SortManifest(x: Texts, m: Object): Object {
    var root := SortContainer(x, m);
    if Profiles in root && root[Profiles].Obj? then
      root[Profiles := Obj(map p | p in root[Profiles].fields && p != Proto :: SortProfile(x, root[Profiles].fields[p]))]
    else root
  }

  function Canonical(x: Texts, m: Object): Object { SortManifest(x, Materialize(m)) }

  // ---------------------------------------------------------------- elements: idempotent, commuting, key-keeping

  lemma MaterializedStay(items: seq<Node>)
    ensures Map(Materializing(), Map(Materializing(), items)) == Map(Materializing(), items)
  {
    forall c | c in items ensures Materializing()(Materializing()(c)) == Materializing()(c) { MaterializeTwice(c); }
    MapTwice(Materializing(), Materializing(), Materializing(), items);
  }

  lemma FillRoleTwice(n: Node)
    ensures FillRole(FillRole(n)) == FillRole(n)
  {
    if HasSelectors(n) { MaterializedStay(n.fields[Selectors].items); }
  }

  lemma FillItemTwice(name: Name, n: Node)
    ensures Filling(name)(Filling(name)(n)) == Filling(name)(n)
  {
    if name == Roles { FillRoleTwice(n); }
  }

  lemma SortedSelectorsStay(x: Texts, items: seq<Node>)
    ensures SortSelectors(x, SortSelectors(x, items)) == SortSelectors(x, items)
  {
    var key := SelectorKey(x);
    var sorted := SortBy(key, items);
    KeysKept(x);
    SortCommutesWith(key, Sorting(x), sorted);
    ByIsOrder(key);
    SortSorts(By(key), items);
    SortedStays(By(key), sorted);
    forall c | c in sorted ensures Sorting(x)(Sorting(x)(c)) == Sorting(x)(c) { SortTwice(x, c); }
    MapTwice(Sorting(x), Sorting(x), Sorting(x), sorted);
  }

  lemma SortRoleTwice(x: Texts, n: Node)
    ensures SortRole(x, SortRole(x, n)) == SortRole(x, n)
  {
    if HasSelectors(n) { SortedSelectorsStay(x, n.fields[Selectors].items); }
  }

  lemma SortItemTwice(x: Texts, name: Name, n: Node)
    ensures SortingItem(x, name)(SortingItem(x, name)(n)) == SortingItem(x, name)(n)
  {
    if name == Roles { SortRoleTwice(x, n); }
  }

  lemma SelectorsCommute(x: Texts, items: seq<Node>)
    ensures Map(Materializing(), SortSelectors(x, items)) == Map(Canonizing(x), SortBy(SelectorKey(x), items))
    ensures SortSelectors(x, Map(Materializing(), items)) == Map(Canonizing(x), SortBy(SelectorKey(x), items))
  {
    var sorted := SortBy(SelectorKey(x), items);
    KeysKept(x);
    SortCommutesWith(SelectorKey(x), Materializing(), items);
    forall c | c in sorted ensures Materializing()(Sorting(x)(c)) == Canonizing(x)(c) {
      PassesCommute(x, c);
      assert Commutes(x, c);
    }
    MapTwice(Sorting(x), Materializing(), Canonizing(x), sorted);
    MapTwice(Materializing(), Sorting(x), Canonizing(x), sorted);
  }

  lemma FillBesideSelectors(o: Object, items: seq<Node>, kept: seq<Node>)
    ensures WithSelectors(Fill(WithSelectors(o, items).fields, Status, Known(Approved)), kept)
         == WithSelectors(Fill(o, Status, Known(Approved)), kept)
  {
  }

  lemma RolesCommute(x: Texts, n: Node)
    ensures FillRole(SortRole(x, n)) == SortRole(x, FillRole(n))
  {
    if HasSelectors(n) {
      var items := n.fields[Selectors].items;
      SelectorsCommute(x, items);
      FillBesideSelectors(n.fields, SortSelectors(x, items), Map(Canonizing(x), SortBy(SelectorKey(x), items)));
      SortFilledRole(x, n);
    }
  }

  lemma SortFilledRole(x: Texts, n: Node)
    requires HasSelectors(n)
    ensures SortRole(x, FillRole(n))
         == WithSelectors(Fill(n.fields, Status, Known(Approved)), SortSelectors(x, Map(Materializing(), n.fields[Selectors].items)))
  {
  }

  lemma ItemsCommute(x: Texts, name: Name, n: Node)
    ensures Filling(name)(SortingItem(x, name)(n)) == SortingItem(x, name)(Filling(name)(n))
  {
    if name == Roles { RolesCommute(x, n); }
  }

  lemma KeyTextKept(x: Texts, a: Object, b: Object, name: Name)
    requires name in a <==> name in b
    requires name in a ==> a[name] == b[name]
    ensures KeyText(x, a, name) == KeyText(x, b, name)
  {
  }

  /** The same object as far as the fields that sort it go. */
  predicate SameIn(names: seq<Name>, a: Node, b: Node) {
    && a.Obj? == b.Obj?
    && (a.Obj? ==> forall i :: 0 <= i < |names| ==>
          (names[i] in a.fields <==> names[i] in b.fields) && (names[i] in a.fields ==> a.fields[names[i]] == b.fields[names[i]]))
  }

  lemma {:induction false} SameKeysOf(x: Texts, names: seq<Name>, a: Node, b: Node)
    requires SameIn(names, a, b)
    ensures KeysOf(x, names, a) == KeysOf(x, names, b)
  {
    if names != [] {
      var rest := names[1..];
      assert forall i :: 0 <= i < |rest| ==> rest[i] == names[i + 1];
      SameKeysOf(x, rest, a, b);
      if a.Obj? { KeyTextKept(x, a.fields, b.fields, names[0]); }
    }
  }

  lemma FillingKeeps(name: Name, n: Node)
    ensures SameIn(KeyFields(name) + [RelationshipId, ExceptionId], Filling(name)(n), n)
  {
  }

  lemma SortingKeeps(x: Texts, name: Name, n: Node)
    ensures SameIn(KeyFields(name) + [RelationshipId, ExceptionId], SortingItem(x, name)(n), n)
  {
  }

  lemma SamePrefix(names: seq<Name>, more: seq<Name>, a: Node, b: Node)
    requires SameIn(names + more, a, b)
    ensures SameIn(names, a, b) && SameIn(more, a, b)
  {
    assert forall i :: 0 <= i < |names| ==> (names + more)[i] == names[i];
    assert forall i :: 0 <= i < |more| ==> (names + more)[|names| + i] == more[i];
  }

  lemma SameKey(x: Texts, name: Name, a: Node, b: Node)
    requires SameIn(KeyFields(name) + [RelationshipId, ExceptionId], a, b)
    ensures CollectionKey(x, name)(a) == CollectionKey(x, name)(b)
  {
    var ids := [RelationshipId, ExceptionId];
    SamePrefix(KeyFields(name), ids, a, b);
    SameKeysOf(x, KeyFields(name), a, b);
    assert ids[0] == RelationshipId && ids[1] == ExceptionId;
    if a.Obj? {
      KeyTextKept(x, a.fields, b.fields, RelationshipId);
      KeyTextKept(x, a.fields, b.fields, ExceptionId);
    }
  }

  lemma CollectionKeysKept(x: Texts, name: Name)
    ensures KeepsKey(CollectionKey(x, name), Filling(name)) && KeepsKey(CollectionKey(x, name), SortingItem(x, name))
  {
    forall n: Node
      ensures CollectionKey(x, name)(Filling(name)(n)) == CollectionKey(x, name)(n)
      ensures CollectionKey(x, name)(SortingItem(x, name)(n)) == CollectionKey(x, name)(n)
    {
      FillingKeeps(name, n);
      SameKey(x, name, Filling(name)(n), n);
      SortingKeeps(x, name, n);
      SameKey(x, name, SortingItem(x, name)(n), n);
    }
  }
}
