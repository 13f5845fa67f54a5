/** The order in which a manifest lists the elements of its collections, its selectors and their nested
    children does not show under a view of its canonical form, as long as elements with equal case-folded
    keys look the same; distinct keys are one way to that. */
module ManifestOrder {

  import opened Options
  import opened StableSort
  import opened ManifestSelectors
  import opened ManifestDigests
  import opened ManifestStability
  import opened ManifestViews

  // ---------------------------------------------------------------- selectors

  /** The same selector with its children, at any depth, in another order. */
  ghost predicate Rearranged(a: Node, b: Node)
    decreases a, 1
  {
    if !HasChildren(a) || !HasChildren(b) then a == b
    else
      && SameBeside(Children, a.fields, b.fields)
      && exists middle :: RearrangedVia(a, b, middle)
  }

  /** `middle` lists the rearranged children of `a` in their old order. */
  ghost predicate RearrangedVia(a: Node, b: Node, middle: seq<Node>)
    requires HasChildren(a) && HasChildren(b)
    decreases a, 0
  {
    var xs, ys := Objects(a.fields[Children].items), Objects(b.fields[Children].items);
    ObjectsInside(a.fields[Children].items);
    && |middle| == |xs| && multiset(middle) == multiset(ys)
    && forall i :: 0 <= i < |xs| ==> xs[i] in a.fields[Children].items && Rearranged(xs[i], middle[i])
  }

  /** The kept children of a selector, at every depth, have distinct case-folded identifiers. */
  ghost predicate UniqueThroughout(x: Texts, n: Node)
    decreases n
  {
    HasChildren(n) ==>
      var xs := Objects(n.fields[Children].items);
      && UniqueKeys(SelectorKey(x), xs)
      && forall c :: c in n.fields[Children].items && c.Obj? ==> UniqueThroughout(x, c)
  }

  /** How the canonical form of a selector looks. */
  function SelectorView<A>(view: View<A>, x: Texts): View<A> { Seen(view, Canonizing(x)) }

  /** The kept children of a selector, at every depth, look the same in canonical form if they have the same
      case-folded identifier. */
  ghost predicate AlikeThroughout<A(!new)>(view: View<A>, x: Texts, n: Node)
    decreases n
  {
    HasChildren(n) ==>
      && AlikeKeys(SelectorKey(x), SelectorView(view, x), Objects(n.fields[Children].items))
      && forall c :: c in n.fields[Children].items && c.Obj? ==> AlikeThroughout(view, x, c)
  }

  lemma {:induction false} UniqueThroughoutIsAlike<A(!new)>(view: View<A>, x: Texts, n: Node)
    requires UniqueThroughout(x, n)
    ensures AlikeThroughout(view, x, n)
    decreases n
  {
    if HasChildren(n) {
      forall c | c in n.fields[Children].items && c.Obj? ensures AlikeThroughout(view, x, c) {
        UniqueThroughoutIsAlike(view, x, c);
      }
    }
  }

  lemma RearrangedKeepsKey(x: Texts, a: Node, b: Node)
    requires Rearranged(a, b)
    ensures SelectorKey(x)(a) == SelectorKey(x)(b)
  {
    SameIdSameKey(x, a, b);
  }

  lemma FillAlike(name: Name, a: Object, b: Object, other: Name, value: Node)
    requires SameBeside(name, a, b) && other != name
    ensures SameBeside(name, Fill(a, other, value), Fill(b, other, value))
  {
    assert (other in a <==> other in b) && (other in a ==> a[other] == b[other]);
    if !(other in a && a[other] != Null) { SetAlike(name, a, b, other, value); }
  }

  lemma SetAlike(name: Name, a: Object, b: Object, other: Name, value: Node)
    requires SameBeside(name, a, b) && other != name
    ensures SameBeside(name, a[other := value], b[other := value])
  {
  }

  lemma FillSelectorAlike(a: Object, b: Object)
    requires SameBeside(Children, a, b)
    ensures SameBeside(Children, FillSelector(a), FillSelector(b))
  {
    FillAlike(Children, a, b, Locations, List([]));
    FillAlike(Children, Fill(a, Locations, List([])), Fill(b, Locations, List([])), ResourceGroups, List([]));
    FillAlike(Children, a, b, InstanceIds, List([]));
  }

  /** The canonical children of a selector, or the canonical selectors of a role. */
  function SortedForms(x: Texts, items: seq<Node>): seq<Node> { Map(Canonizing(x), SortBy(SelectorKey(x), items)) }

  lemma CanonicalSelectorIs(x: Texts, n: Node)
    requires HasChildren(n)
    ensures Canonizing(x)(n) == Framed(FillSelector(n.fields), Children, SortedForms(x, Objects(n.fields[Children].items)))
  {
    CanonicalShape(x, n, FillSelector(n.fields));
  }

  lemma SortedFormsAgree<A(!new)>(view: View<A>, x: Texts, xs: seq<Node>, ys: seq<Node>, middle: seq<Node>)
    requires AlikeKeys(SelectorKey(x), SelectorView(view, x), xs)
    requires |middle| == |xs| && multiset(middle) == multiset(ys)
    requires forall i :: 0 <= i < |xs| ==>
               Rearranged(xs[i], middle[i]) && SelectorView(view, x)(xs[i]) == SelectorView(view, x)(middle[i])
    ensures Map(view, SortedForms(x, xs)) == Map(view, SortedForms(x, ys))
  {
    forall i | 0 <= i < |xs| ensures SelectorKey(x)(xs[i]) == SelectorKey(x)(middle[i]) {
      RearrangedKeepsKey(x, xs[i], middle[i]);
    }
    ListsSortAlike(SelectorKey(x), SelectorView(view, x), xs, middle, ys);
    SeenMapped(view, Canonizing(x), SortBy(SelectorKey(x), xs));
    SeenMapped(view, Canonizing(x), SortBy(SelectorKey(x), ys));
  }

  lemma SelectorsAgree<A(!new)>(view: View<A>, x: Texts, a: Node, b: Node)
    requires Lawful(view) && HasChildren(a) && HasChildren(b) && SameBeside(Children, a.fields, b.fields)
    requires Map(view, SortedForms(x, Objects(a.fields[Children].items)))
          == Map(view, SortedForms(x, Objects(b.fields[Children].items)))
    ensures view(Canonizing(x)(a)) == view(Canonizing(x)(b))
  {
    CanonicalSelectorIs(x, a);
    CanonicalSelectorIs(x, b);
    FillSelectorAlike(a.fields, b.fields);
    FramedAgree(view, FillSelector(a.fields), FillSelector(b.fields), Children,
                SortedForms(x, Objects(a.fields[Children].items)), SortedForms(x, Objects(b.fields[Children].items)));
  }

  /** Selectors that differ only in the order of nested children look the same in canonical form, if children
      with the same identifier do. */
  lemma {:induction false} RearrangedAlike<A(!new)>(view: View<A>, x: Texts, a: Node, b: Node)
    requires Lawful(view) && Rearranged(a, b) && AlikeThroughout(view, x, a)
    ensures SelectorView(view, x)(a) == SelectorView(view, x)(b)
    decreases a
  {
    if HasChildren(a) && HasChildren(b) {
      var middle :| RearrangedVia(a, b, middle);
      var xs := Objects(a.fields[Children].items);
      ObjectsInside(a.fields[Children].items);
      forall i | 0 <= i < |middle| ensures SelectorView(view, x)(xs[i]) == SelectorView(view, x)(middle[i]) {
        assert xs[i] in a.fields[Children].items && xs[i].Obj? by { assert xs[i] in xs; }
        RearrangedAlike(view, x, xs[i], middle[i]);
      }
      ChildrenAgree(view, x, a, b, middle);
    }
  }

  lemma ChildrenAgree<A(!new)>(view: View<A>, x: Texts, a: Node, b: Node, middle: seq<Node>)
    requires Lawful(view) && HasChildren(a) && HasChildren(b) && SameBeside(Children, a.fields, b.fields)
    requires RearrangedVia(a, b, middle)
    requires AlikeKeys(SelectorKey(x), SelectorView(view, x), Objects(a.fields[Children].items))
    requires var xs := Objects(a.fields[Children].items);
             forall i :: 0 <= i < |middle| ==> SelectorView(view, x)(xs[i]) == SelectorView(view, x)(middle[i])
    ensures SelectorView(view, x)(a) == SelectorView(view, x)(b)
  {
    SortedFormsAgree(view, x, Objects(a.fields[Children].items), Objects(b.fields[Children].items), middle);
    SelectorsAgree(view, x, a, b);
  }

  // ---------------------------------------------------------------- roles

  /** `middle` lists the rearranged elements of `xs` in their old order; `ys` is `middle` rearranged. */
  ghost predicate SelectorsVia(xs: seq<Node>, ys: seq<Node>, middle: seq<Node>) {
    && |middle| == |xs| && multiset(middle) == multiset(ys)
    && forall i :: 0 <= i < |xs| ==> Rearranged(xs[i], middle[i])
  }

  /** The same role with its selectors, and the children of those, in another order. */
  ghost predicate RoleRearranged(a: Node, b: Node) {
    if !HasSelectors(a) || !HasSelectors(b) then a == b
    else
      && SameBeside(Selectors, a.fields, b.fields)
      && exists middle :: SelectorsVia(a.fields[Selectors].items, b.fields[Selectors].items, middle)
  }

  ghost predicate UniqueSelectors(x: Texts, n: Node) {
    HasSelectors(n) ==>
      && UniqueKeys(SelectorKey(x), n.fields[Selectors].items)
      && forall c :: c in n.fields[Selectors].items ==> UniqueThroughout(x, c)
  }

  ghost predicate AlikeSelectors<A(!new)>(view: View<A>, x: Texts, n: Node) {
    HasSelectors(n) ==>
      && AlikeKeys(SelectorKey(x), SelectorView(view, x), n.fields[Selectors].items)
      && forall c :: c in n.fields[Selectors].items ==> AlikeThroughout(view, x, c)
  }

  function CanonicalRole(x: Texts, n: Node): Node { SortRole(x, FillRole(n)) }

  lemma CanonicalRoleIs(x: Texts, n: Node)
    requires HasSelectors(n)
    ensures CanonicalRole(x, n)
         == Framed(Fill(n.fields, Status, Known(Approved)), Selectors, SortedForms(x, n.fields[Selectors].items))
  {
    SortFilledRole(x, n);
    SelectorsCommute(x, n.fields[Selectors].items);
  }

  lemma FilledRolesAlike(a: Object, b: Object, f: Object, g: Object)
    requires SameBeside(Selectors, a, b)
    requires f == Fill(a, Status, Known(Approved)) && g == Fill(b, Status, Known(Approved))
    ensures SameBeside(Selectors, f, g)
  {
    FillAlike(Selectors, a, b, Status, Known(Approved));
  }

  lemma RolesAgree<A(!new)>(view: View<A>, x: Texts, a: Node, b: Node, f: Object, g: Object)
    requires Lawful(view) && HasSelectors(a) && HasSelectors(b) && SameBeside(Selectors, f, g)
    requires f == Fill(a.fields, Status, Known(Approved)) && g == Fill(b.fields, Status, Known(Approved))
    requires Map(view, SortedForms(x, a.fields[Selectors].items)) == Map(view, SortedForms(x, b.fields[Selectors].items))
    ensures view(CanonicalRole(x, a)) == view(CanonicalRole(x, b))
  {
    CanonicalRoleIs(x, a);
    CanonicalRoleIs(x, b);
    FramedAgree(view, f, g, Selectors,
                SortedForms(x, a.fields[Selectors].items), SortedForms(x, b.fields[Selectors].items));
  }

  lemma RolesAlike<A(!new)>(view: View<A>, x: Texts, a: Node, b: Node)
    requires Lawful(view) && RoleRearranged(a, b) && AlikeSelectors(view, x, a)
    ensures view(CanonicalRole(x, a)) == view(CanonicalRole(x, b))
  {
    if HasSelectors(a) && HasSelectors(b) {
      var xs, ys := a.fields[Selectors].items, b.fields[Selectors].items;
      var middle :| SelectorsVia(xs, ys, middle);
      forall i | 0 <= i < |xs| ensures SelectorView(view, x)(xs[i]) == SelectorView(view, x)(middle[i]) {
        assert xs[i] in xs;
        RearrangedAlike(view, x, xs[i], middle[i]);
      }
      SortedFormsAgree(view, x, xs, ys, middle);
      var f, g := Fill(a.fields, Status, Known(Approved)), Fill(b.fields, Status, Known(Approved));
      FilledRolesAlike(a.fields, b.fields, f, g);
      RolesAgree(view, x, a, b, f, g);
    }
  }

  // ---------------------------------------------------------------- collections

  ghost predicate ItemRearranged(name: Name, a: Node, b: Node) {
    if name == Roles then RoleRearranged(a, b) else a == b
  }

  ghost predicate ListVia(name: Name, xs: seq<Node>, ys: seq<Node>, middle: seq<Node>) {
    && |middle| == |xs| && multiset(middle) == multiset(ys)
    && forall i :: 0 <= i < |xs| ==> ItemRearranged(name, xs[i], middle[i])
  }

  /** A collection with its elements in another order; anything else must be the same. */
  ghost predicate CollectionRearranged(name: Name, a: Node, b: Node) {
    if Collection(name) && a.List? && b.List? then exists middle :: ListVia(name, a.items, b.items, middle) else a == b
  }

  ghost predicate UniqueCollection(x: Texts, name: Name, v: Node) {
    v.List? && Collection(name) ==>
      && UniqueKeys(CollectionKey(x, name), v.items)
      && (name == Roles ==> forall c :: c in v.items ==> UniqueSelectors(x, c))
  }

  /** How the canonical form of an element of a collection looks. */
  function ItemView<A>(view: View<A>, x: Texts, name: Name): View<A> { Seen(view, CanonicalItem(x, name)) }

  ghost predicate AlikeItems<A(!new)>(view: View<A>, x: Texts, name: Name, items: seq<Node>) {
    AlikeKeys(CollectionKey(x, name), ItemView(view, x, name), items)
  }

  ghost predicate AlikeRoles<A(!new)>(view: View<A>, x: Texts, name: Name, items: seq<Node>) {
    name == Roles ==> forall c :: c in items ==> AlikeSelectors(view, x, c)
  }

  ghost predicate AlikeCollection<A(!new)>(view: View<A>, x: Texts, name: Name, v: Node) {
    v.List? && Collection(name) ==> AlikeItems(view, x, name, v.items) && AlikeRoles(view, x, name, v.items)
  }

  lemma UniqueCollectionIsAlike<A(!new)>(view: View<A>, x: Texts, name: Name, v: Node)
    requires UniqueCollection(x, name, v)
    ensures AlikeCollection(view, x, name, v)
  {
    if v.List? && name == Roles {
      forall c | c in v.items ensures AlikeSelectors(view, x, c) {
        assert UniqueSelectors(x, c);
        if HasSelectors(c) {
          forall s | s in c.fields[Selectors].items ensures AlikeThroughout(view, x, s) { UniqueThroughoutIsAlike(view, x, s); }
        }
      }
    }
  }

  lemma RoleItem(x: Texts, n: Node)
    ensures CanonicalItem(x, Roles)(n) == CanonicalRole(x, n)
  {
    assert Filling(Roles)(n) == FillRole(n);
    assert SortingItem(x, Roles)(FillRole(n)) == SortRole(x, FillRole(n));
  }

  lemma RoleKeepsKey(x: Texts, a: Node, b: Node)
    requires RoleRearranged(a, b)
    ensures CollectionKey(x, Roles)(a) == CollectionKey(x, Roles)(b)
  {
    SameKey(x, Roles, a, b);
  }

  lemma ItemKeepsKey(x: Texts, name: Name, a: Node, b: Node)
    requires ItemRearranged(name, a, b)
    ensures CollectionKey(x, name)(a) == CollectionKey(x, name)(b)
  {
    if name == Roles { RoleKeepsKey(x, a, b); }
  }

  lemma ItemsAlike<A(!new)>(view: View<A>, x: Texts, name: Name, a: Node, b: Node)
    requires Lawful(view) && ItemRearranged(name, a, b) && (name == Roles ==> AlikeSelectors(view, x, a))
    ensures ItemView(view, x, name)(a) == ItemView(view, x, name)(b)
  {
    if name == Roles {
      RolesAlike(view, x, a, b);
      RoleItem(x, a);
      RoleItem(x, b);
    }
  }

  function CanonicalCollection(x: Texts, name: Name, v: Node): Node { SortCollection(x, name, FillCollection(name, v)) }

  /** The canonical elements of a collection. */
  function SortedItems(x: Texts, name: Name, items: seq<Node>): seq<Node> {
    Map(CanonicalItem(x, name), SortBy(CollectionKey(x, name), items))
  }

  lemma CanonicalList(x: Texts, name: Name, items: seq<Node>)
    requires Collection(name)
    ensures CanonicalCollection(x, name, List(items)) == List(SortedItems(x, name, items))
  {
    FillCollectionIs(name, items);
    SortCollectionIs(x, name, Map(Filling(name), items));
    ItemsCommuteWithSort(x, name, items);
  }

  lemma ListsAlike<A(!new)>(view: View<A>, x: Texts, name: Name, xs: seq<Node>, ys: seq<Node>, middle: seq<Node>)
    requires Lawful(view) && ListVia(name, xs, ys, middle) && AlikeKeys(CollectionKey(x, name), ItemView(view, x, name), xs)
    requires name == Roles ==> forall c :: c in xs ==> AlikeSelectors(view, x, c)
    ensures Map(view, SortedItems(x, name, xs)) == Map(view, SortedItems(x, name, ys))
  {
    var key, g := CollectionKey(x, name), ItemView(view, x, name);
    forall i | 0 <= i < |xs| ensures key(xs[i]) == key(middle[i]) && g(xs[i]) == g(middle[i]) {
      assert xs[i] in xs;
      ItemsAlike(view, x, name, xs[i], middle[i]);
      ItemKeepsKey(x, name, xs[i], middle[i]);
    }
    ListsSortAlike(key, g, xs, middle, ys);
    SeenMapped(view, CanonicalItem(x, name), SortBy(key, xs));
    SeenMapped(view, CanonicalItem(x, name), SortBy(key, ys));
  }

  lemma CollectionsAlike<A(!new)>(view: View<A>, x: Texts, name: Name, a: Node, b: Node)
    requires Lawful(view) && CollectionRearranged(name, a, b) && AlikeCollection(view, x, name, a)
    ensures view(CanonicalCollection(x, name, a)) == view(CanonicalCollection(x, name, b))
  {
    if Collection(name) && a.List? && b.List? {
      var middle :| ListVia(name, a.items, b.items, middle);
      ListsAlike(view, x, name, a.items, b.items, middle);
      CanonicalList(x, name, a.items);
      CanonicalList(x, name, b.items);
      assert ListsTell(view, SortedItems(x, name, a.items), SortedItems(x, name, b.items));
    }
  }

  // ---------------------------------------------------------------- containers and the manifest

  ghost predicate ContainerRearranged(a: Object, b: Object) {
    a.Keys == b.Keys && forall n :: n in a ==> CollectionRearranged(n, a[n], b[n])
  }

  ghost predicate UniqueContainer(x: Texts, o: Object) { forall n :: n in o ==> UniqueCollection(x, n, o[n]) }

  ghost predicate AlikeContainer<A(!new)>(view: View<A>, x: Texts, o: Object) {
    forall n :: n in o ==> AlikeCollection(view, x, n, o[n])
  }

  lemma {:induction false} FilledAt(o: Object, names: seq<Name>, n: Name)
    ensures n in FillAll(o, names) <==> n in o || n in names
    ensures n in FillAll(o, names) ==>
              FillAll(o, names)[n] == if n in names && (n !in o || o[n] == Null) then List([]) else o[n]
    decreases |names|
  {
    if names != [] { FilledAt(Fill(o, names[0], List([])), names[1..], n); }
  }

  lemma FilledPair(a: Object, b: Object, names: seq<Name>, n: Name)
    requires ContainerRearranged(a, b) && n in FillAll(a, names)
    ensures n in FillAll(b, names)
    ensures FillAll(a, names)[n] == FillAll(b, names)[n]
         || (n in a && FillAll(a, names)[n] == a[n] && FillAll(b, names)[n] == b[n])
  {
    FilledAt(a, names, n);
    FilledAt(b, names, n);
    if n in a { assert CollectionRearranged(n, a[n], b[n]); }
  }

  lemma FilledKeys(a: Object, b: Object, names: seq<Name>)
    requires a.Keys == b.Keys
    ensures FillAll(a, names).Keys == FillAll(b, names).Keys
  {
    forall n ensures n in FillAll(a, names) <==> n in FillAll(b, names) {
      FilledAt(a, names, n);
      FilledAt(b, names, n);
    }
  }

  lemma CanonicalAtName(x: Texts, o: Object, defaults: seq<Name>)
    ensures CanonicalContainer(x, o, defaults).Keys == FillAll(o, defaults).Keys
    ensures forall n :: n in FillAll(o, defaults) ==>
              CanonicalContainer(x, o, defaults)[n] == CanonicalCollection(x, n, FillAll(o, defaults)[n])
  {
  }

  /** Collection by collection, the canonical forms look the same. */
  ghost predicate CollectionsAgree<A>(view: View<A>, x: Texts, a: Object, b: Object) {
    && a.Keys == b.Keys
    && forall n :: n in a ==> view(CanonicalCollection(x, n, a[n])) == view(CanonicalCollection(x, n, b[n]))
  }

  lemma ContainersAgree<A(!new)>(view: View<A>, x: Texts, a: Object, b: Object, defaults: seq<Name>)
    requires ContainerRearranged(a, b) && CollectionsAgree(view, x, a, b)
    ensures SameSeen(view, CanonicalContainer(x, a, defaults), CanonicalContainer(x, b, defaults))
  {
    var f, g := FillAll(a, defaults), FillAll(b, defaults);
    FilledKeys(a, b, defaults);
    CanonicalAtName(x, a, defaults);
    CanonicalAtName(x, b, defaults);
    forall n | n in f ensures view(CanonicalCollection(x, n, f[n])) == view(CanonicalCollection(x, n, g[n])) {
      FilledPair(a, b, defaults, n);
    }
  }

  lemma ContainersAlike<A(!new)>(view: View<A>, x: Texts, a: Object, b: Object, defaults: seq<Name>)
    requires Lawful(view) && ContainerRearranged(a, b) && AlikeContainer(view, x, a)
    ensures SameSeen(view, CanonicalContainer(x, a, defaults), CanonicalContainer(x, b, defaults))
  {
    forall n | n in a ensures view(CanonicalCollection(x, n, a[n])) == view(CanonicalCollection(x, n, b[n])) {
      CollectionsAlike(view, x, n, a[n], b[n]);
    }
    ContainersAgree(view, x, a, b, defaults);
  }

  ghost predicate ProfileRearranged(a: Node, b: Node) {
    if a.Obj? && b.Obj? then ContainerRearranged(a.fields, b.fields) else a == b
  }

  ghost predicate ProfilesRearranged(a: Object, b: Object) {
    a.Keys == b.Keys && forall p :: p in a ==> ProfileRearranged(a[p], b[p])
  }

  /** The same manifest, every collection of it and of its profiles in another order. */
  ghost predicate ManifestRearranged(a: Object, b: Object) {
    && HasProfiles(a) && HasProfiles(b)
    && ContainerRearranged(a[Profiles := Null], b[Profiles := Null])
    && ProfilesRearranged(a[Profiles].fields, b[Profiles].fields)
  }

  ghost predicate UniqueManifest(x: Texts, m: Object)
    requires HasProfiles(m)
  {
    && UniqueContainer(x, m[Profiles := Null])
    && forall p :: p in m[Profiles].fields && m[Profiles].fields[p].Obj? ==> UniqueContainer(x, m[Profiles].fields[p].fields)
  }

  ghost predicate AlikeProfiles<A(!new)>(view: View<A>, x: Texts, o: Object) {
    forall p :: p in o && p != Proto && o[p].Obj? ==> AlikeContainer(view, x, o[p].fields)
  }

  /** Wherever elements are sorted, those with equal keys look the same in canonical form. */
  ghost predicate AlikeManifest<A(!new)>(view: View<A>, x: Texts, m: Object)
    requires HasProfiles(m)
  {
    AlikeContainer(view, x, m[Profiles := Null]) && AlikeProfiles(view, x, m[Profiles].fields)
  }

  lemma UniqueContainerIsAlike<A(!new)>(view: View<A>, x: Texts, o: Object)
    requires UniqueContainer(x, o)
    ensures AlikeContainer(view, x, o)
  {
    forall n | n in o ensures AlikeCollection(view, x, n, o[n]) { UniqueCollectionIsAlike(view, x, n, o[n]); }
  }

  /** Distinct keys are one way to that. */
  lemma UniqueManifestIsAlike<A(!new)>(view: View<A>, x: Texts, m: Object)
    requires HasProfiles(m) && UniqueManifest(x, m)
    ensures AlikeManifest(view, x, m)
  {
    UniqueContainerIsAlike(view, x, m[Profiles := Null]);
    var o := m[Profiles].fields;
    forall p | p in o && p != Proto && o[p].Obj? ensures AlikeContainer(view, x, o[p].fields) {
      UniqueContainerIsAlike(view, x, o[p].fields);
    }
  }

  lemma SameObjects<A(!new)>(view: View<A>, f: Object, g: Object)
    requires Lawful(view) && SameSeen(view, f, g)
    ensures view(Obj(f)) == view(Obj(g))
  {
    assert ObjectsTell(view, f, g);
  }

  lemma ProfileAlike<A(!new)>(view: View<A>, x: Texts, a: Node, b: Node)
    requires Lawful(view) && ProfileRearranged(a, b) && (a.Obj? ==> AlikeContainer(view, x, a.fields))
    ensures view(CanonicalProfile(x, a)) == view(CanonicalProfile(x, b))
  {
    if a.Obj? && b.Obj? {
      ContainersAlike(view, x, a.fields, b.fields, PROFILE_DEFAULTS);
      SameObjects(view, CanonicalContainer(x, a.fields, PROFILE_DEFAULTS), CanonicalContainer(x, b.fields, PROFILE_DEFAULTS));
    }
  }

  lemma ProfilesAlike<A(!new)>(view: View<A>, x: Texts, a: Object, b: Object)
    requires Lawful(view) && ProfilesRearranged(a, b) && AlikeProfiles(view, x, a)
    ensures SameSeen(view, CanonicalProfiles(x, a), CanonicalProfiles(x, b))
  {
    forall p | p in a && p != Proto ensures view(CanonicalProfile(x, a[p])) == view(CanonicalProfile(x, b[p])) {
      ProfileAlike(view, x, a[p], b[p]);
    }
  }

  lemma RootAround(x: Texts, m: Object, v: Node, w: Node)
    requires v.Obj? && !w.List?
    ensures CanonicalContainer(x, m[Profiles := v], ROOT_DEFAULTS) == CanonicalContainer(x, m[Profiles := w], ROOT_DEFAULTS)[Profiles := v]
  {
    assert Profiles !in ROOT_DEFAULTS;
    FillAllBesideProfiles(m[Profiles := w], ROOT_DEFAULTS, v);
    assert m[Profiles := w][Profiles := v] == m[Profiles := v];
    FillBesideProfiles(FillAll(m[Profiles := w], ROOT_DEFAULTS), v.fields);
    SortBesideProfiles(x, FillContainer(FillAll(m[Profiles := w], ROOT_DEFAULTS)), v.fields);
  }

  lemma Overwrite(o: Object, name: Name, v: Node, w: Node)
    ensures o[name := v][name := w] == o[name := w]
  {
  }

  lemma RootOf(x: Texts, m: Object, root: Object)
    requires HasProfiles(m) && root == CanonicalContainer(x, m[Profiles := Null], ROOT_DEFAULTS)
    ensures CanonicalContainer(x, m, ROOT_DEFAULTS) == root[Profiles := m[Profiles]]
  {
    assert m[Profiles := m[Profiles]] == m;
    RootAround(x, m, m[Profiles], Null);
  }

  lemma CanonicalFromRoot(x: Texts, m: Object, root: Object, whole: Object, profiles: Node)
    requires HasProfiles(m) && root == CanonicalContainer(x, m[Profiles := Null], ROOT_DEFAULTS)
    requires whole == CanonicalContainer(x, m, ROOT_DEFAULTS) && profiles == Obj(CanonicalProfiles(x, m[Profiles].fields))
    ensures Canonical(x, m) == root[Profiles := profiles]
  {
    RootOf(x, m, root);
    CanonicalByContainer(x, m);
    Overwrite(root, Profiles, m[Profiles], profiles);
  }

  lemma ProfilesAdded<A(!new)>(view: View<A>, a: Object, b: Object, v: Node, w: Node)
    requires SameSeen(view, a, b) && view(v) == view(w)
    ensures SameSeen(view, a[Profiles := v], b[Profiles := w])
  {
  }

  /** The parts of a canonical manifest. */
  function RootPart(x: Texts, m: Object): Object { CanonicalContainer(x, m[Profiles := Null], ROOT_DEFAULTS) }

  function ProfilesPart(x: Texts, m: Object): Object
    requires HasProfiles(m)
  {
    CanonicalProfiles(x, m[Profiles].fields)
  }

  function Assembled(x: Texts, m: Object): Object
    requires HasProfiles(m)
  {
    RootPart(x, m)[Profiles := Obj(ProfilesPart(x, m))]
  }

  lemma CanonicalParts(x: Texts, m: Object)
    requires HasProfiles(m)
    ensures Canonical(x, m) == Assembled(x, m)
  {
    CanonicalFromRoot(x, m, RootPart(x, m), CanonicalContainer(x, m, ROOT_DEFAULTS), Obj(ProfilesPart(x, m)));
  }

  lemma PartsAgree<A(!new)>(view: View<A>, x: Texts, a: Object, b: Object)
    requires Lawful(view) && HasProfiles(a) && HasProfiles(b)
    requires SameSeen(view, RootPart(x, a), RootPart(x, b)) && SameSeen(view, ProfilesPart(x, a), ProfilesPart(x, b))
    ensures SameSeen(view, Assembled(x, a), Assembled(x, b))
  {
    SameObjects(view, ProfilesPart(x, a), ProfilesPart(x, b));
    ProfilesAdded(view, RootPart(x, a), RootPart(x, b), Obj(ProfilesPart(x, a)), Obj(ProfilesPart(x, b)));
  }

  /** The canonical forms of rearranged manifests look the same. */
  lemma OrderIsForgotten<A(!new)>(view: View<A>, x: Texts, a: Object, b: Object)
    requires Lawful(view) && ManifestRearranged(a, b) && AlikeManifest(view, x, a)
    ensures SameSeen(view, Canonical(x, a), Canonical(x, b))
  {
    ContainersAlike(view, x, a[Profiles := Null], b[Profiles := Null], ROOT_DEFAULTS);
    ProfilesAlike(view, x, a[Profiles].fields, b[Profiles].fields);
    PartsAgree(view, x, a, b);
    CanonicalParts(x, a);
    CanonicalParts(x, b);
  }
}
