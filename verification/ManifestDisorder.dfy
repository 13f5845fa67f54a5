/** When the order of a manifest's elements does show: if anywhere two elements with equal keys look different
    in canonical form, some other order of the manifest has a canonical form that looks different. */
module ManifestDisorder {

  import opened Options
  import opened StableSort
  import opened ManifestSelectors
  import opened ManifestDigests
  import opened ManifestStability
  import opened ManifestViews
  import opened ManifestOrder

  // ---------------------------------------------------------------- selectors

  lemma {:induction false} RearrangedItself(n: Node)
    ensures Rearranged(n, n)
    decreases n
  {
    if HasChildren(n) {
      var xs := Objects(n.fields[Children].items);
      ObjectsInside(n.fields[Children].items);
      forall i | 0 <= i < |xs| ensures xs[i] in n.fields[Children].items && Rearranged(xs[i], xs[i]) {
        assert xs[i] in xs;
        RearrangedItself(xs[i]);
      }
      assert RearrangedVia(n, n, xs);
    }
  }

  ghost predicate AllRearranged(xs: seq<Node>, ys: seq<Node>) {
    |ys| == |xs| && forall l :: 0 <= l < |xs| ==> Rearranged(xs[l], ys[l])
  }

  lemma ReplacedRearranged(xs: seq<Node>, i: nat, d: Node)
    requires i < |xs| && Rearranged(xs[i], d)
    ensures AllRearranged(xs, xs[i := d])
  {
    forall l | 0 <= l < |xs| ensures Rearranged(xs[l], xs[i := d][l]) {
      if l != i { RearrangedItself(xs[l]); }
    }
  }

  lemma AllRearrangedItself(xs: seq<Node>)
    ensures AllRearranged(xs, xs)
  {
    forall l | 0 <= l < |xs| ensures Rearranged(xs[l], xs[l]) { RearrangedItself(xs[l]); }
  }

  predicate AllObjects(ys: seq<Node>) { forall l :: 0 <= l < |ys| ==> ys[l].Obj? }

  /** A list of selectors in another order, which shows. */
  ghost predicate FormsShown<A(!new)>(view: View<A>, x: Texts, xs: seq<Node>, ys: seq<Node>, middle: seq<Node>) {
    && AllRearranged(xs, middle) && multiset(middle) == multiset(ys)
    && Map(view, SortedForms(x, xs)) != Map(view, SortedForms(x, ys))
  }

  lemma FormsSeen<A(!new)>(view: View<A>, x: Texts, xs: seq<Node>, c: Node)
    requires None !in Map(view, SortedForms(x, xs)) && c in xs
    ensures view(Canonizing(x)(c)).Some?
  {
    SeenMapped(view, Canonizing(x), SortBy(SelectorKey(x), xs));
    SortedSeen(SelectorKey(x), SelectorView(view, x), xs);
    assert SelectorView(view, x)(c).Some?;
  }

  lemma ExchangedFormsShow<A(!new)>(view: View<A>, x: Texts, xs: seq<Node>) returns (ys: seq<Node>)
    requires !AlikeKeys(SelectorKey(x), SelectorView(view, x), xs)
    ensures FormsShown(view, x, xs, ys, xs) && multiset(ys) == multiset(xs)
  {
    var i, j := UnlikePair(SelectorKey(x), SelectorView(view, x), xs);
    ys := Exchanged(xs, i, j);
    ExchangeShows(SelectorKey(x), SelectorView(view, x), xs, i, j);
    SeenMapped(view, Canonizing(x), SortBy(SelectorKey(x), xs));
    SeenMapped(view, Canonizing(x), SortBy(SelectorKey(x), ys));
    AllRearrangedItself(xs);
  }

  lemma ReplacedFormShows<A(!new)>(view: View<A>, x: Texts, xs: seq<Node>, i: nat, d: Node, ys: seq<Node>)
    requires i < |xs| && ys == xs[i := d] && Rearranged(xs[i], d)
    requires SelectorView(view, x)(xs[i]) != SelectorView(view, x)(d)
    ensures FormsShown(view, x, xs, ys, ys)
  {
    RearrangedKeepsKey(x, xs[i], d);
    ReplacedShows(SelectorKey(x), SelectorView(view, x), xs, i, d);
    SeenMapped(view, Canonizing(x), SortBy(SelectorKey(x), xs));
    SeenMapped(view, Canonizing(x), SortBy(SelectorKey(x), ys));
    ReplacedRearranged(xs, i, d);
  }

  lemma PlaceOf(s: seq<Node>, n: Node) returns (i: nat)
    requires n in s
    ensures i < |s| && s[i] == n
  {
    i :| 0 <= i < |s| && s[i] == n;
  }

  lemma StillObjects(xs: seq<Node>, i: nat, d: Node)
    requires i < |xs| && AllObjects(xs) && d.Obj?
    ensures AllObjects(xs[i := d])
  {
  }

  function WithChildren(n: Node, ys: seq<Node>): Node
    requires n.Obj?
  {
    Obj(n.fields[Children := List(ys)])
  }

  /** `m` is `n` in another order, and its canonical form looks different. */
  ghost predicate SelectorShown<A(!new)>(view: View<A>, x: Texts, n: Node, m: Node) {
    n.Obj? && m.Obj? && Rearranged(n, m) && SelectorView(view, x)(n) != SelectorView(view, x)(m)
  }

  lemma ChildrenRearranged(n: Node, m: Node, ys: seq<Node>, middle: seq<Node>)
    requires HasChildren(n) && AllObjects(ys) && multiset(middle) == multiset(ys) && m == WithChildren(n, ys)
    requires AllRearranged(Objects(n.fields[Children].items), middle)
    ensures HasChildren(m) && Objects(m.fields[Children].items) == ys && Rearranged(n, m)
  {
    var xs := Objects(n.fields[Children].items);
    ObjectsOfObjects(ys);
    ObjectsInside(n.fields[Children].items);
    assert m.fields[Children] == List(ys);
    forall i | 0 <= i < |xs| ensures xs[i] in n.fields[Children].items { assert xs[i] in xs; }
    assert RearrangedVia(n, m, middle);
  }

  lemma SelectorIsFramed(x: Texts, n: Node) returns (f: Object)
    requires HasChildren(n)
    ensures Canonizing(x)(n) == Framed(f, Children, SortedForms(x, Objects(n.fields[Children].items)))
  {
    f := FillSelector(n.fields);
    CanonicalSelectorIs(x, n);
  }

  lemma ChildrenShow<A(!new)>(view: View<A>, x: Texts, n: Node, m: Node)
    requires Lawful(view) && HasChildren(n) && HasChildren(m) && SelectorView(view, x)(n).Some?
    requires Map(view, SortedForms(x, Objects(n.fields[Children].items)))
          != Map(view, SortedForms(x, Objects(m.fields[Children].items)))
    ensures SelectorView(view, x)(n) != SelectorView(view, x)(m)
  {
    var f := SelectorIsFramed(x, n);
    var g := SelectorIsFramed(x, m);
    FramedApart(view, f, g, Children,
                SortedForms(x, Objects(n.fields[Children].items)), SortedForms(x, Objects(m.fields[Children].items)));
  }

  lemma ShownChildrenShow<A(!new)>(view: View<A>, x: Texts, n: Node, ys: seq<Node>, middle: seq<Node>) returns (m: Node)
    requires Lawful(view) && HasChildren(n) && AllObjects(ys) && SelectorView(view, x)(n).Some?
    requires FormsShown(view, x, Objects(n.fields[Children].items), ys, middle)
    ensures SelectorShown(view, x, n, m)
  {
    m := WithChildren(n, ys);
    ChildrenRearranged(n, m, ys, middle);
    ChildrenShow(view, x, n, m);
  }

  lemma ChildIsSeen<A(!new)>(view: View<A>, x: Texts, n: Node, c: Node)
    requires Lawful(view) && HasChildren(n) && SelectorView(view, x)(n).Some?
    requires c in Objects(n.fields[Children].items)
    ensures SelectorView(view, x)(c).Some?
  {
    CanonicalSelectorIs(x, n);
    FramedInside(view, FillSelector(n.fields), Children, SortedForms(x, Objects(n.fields[Children].items)));
    FormsSeen(view, x, Objects(n.fields[Children].items), c);
  }

  lemma KeptAreObjects(items: seq<Node>)
    ensures AllObjects(Objects(items))
  {
    var xs := Objects(items);
    ObjectsInside(items);
    forall l | 0 <= l < |xs| ensures xs[l].Obj? { assert xs[l] in xs; }
  }

  lemma RearrangedObjects(xs: seq<Node>, ys: seq<Node>)
    requires AllObjects(xs) && multiset(ys) == multiset(xs)
    ensures AllObjects(ys)
  {
    forall l | 0 <= l < |ys| ensures ys[l].Obj? { assert ys[l] in multiset(xs); }
  }

  lemma {:induction false} ObjectsHold(items: seq<Node>, n: Node)
    requires n in items && n.Obj?
    ensures n in Objects(items)
  {
    if items[0] != n { ObjectsHold(items[1..], n); }
  }

  lemma UnlikeChild<A(!new)>(view: View<A>, x: Texts, n: Node) returns (c: Node)
    requires !AlikeThroughout(view, x, n)
    requires AlikeKeys(SelectorKey(x), SelectorView(view, x), Objects(n.fields[Children].items))
    ensures c in n.fields[Children].items && c.Obj? && !AlikeThroughout(view, x, c)
  {
    c :| c in n.fields[Children].items && c.Obj? && !AlikeThroughout(view, x, c);
  }

  lemma ExchangedChildrenShow<A(!new)>(view: View<A>, x: Texts, n: Node, xs: seq<Node>) returns (m: Node)
    requires Lawful(view) && HasChildren(n) && SelectorView(view, x)(n).Some? && xs == Objects(n.fields[Children].items)
    requires !AlikeKeys(SelectorKey(x), SelectorView(view, x), xs)
    ensures SelectorShown(view, x, n, m)
  {
    var ys := ExchangedFormsShow(view, x, xs);
    KeptAreObjects(n.fields[Children].items);
    RearrangedObjects(xs, ys);
    m := ShownChildrenShow(view, x, n, ys, xs);
  }

  lemma ReplacedChildShows<A(!new)>(view: View<A>, x: Texts, n: Node, xs: seq<Node>, c: Node, d: Node) returns (m: Node)
    requires Lawful(view) && HasChildren(n) && SelectorView(view, x)(n).Some? && xs == Objects(n.fields[Children].items)
    requires c in xs && SelectorShown(view, x, c, d)
    ensures SelectorShown(view, x, n, m)
  {
    var i := PlaceOf(xs, c);
    ReplacedFormShows(view, x, xs, i, d, xs[i := d]);
    KeptAreObjects(n.fields[Children].items);
    StillObjects(xs, i, d);
    m := ShownChildrenShow(view, x, n, xs[i := d], xs[i := d]);
  }

  /** A selector in which, at some depth, the order matters. */
  lemma {:induction false} SelectorShows<A(!new)>(view: View<A>, x: Texts, n: Node) returns (m: Node)
    requires Lawful(view) && !AlikeThroughout(view, x, n) && SelectorView(view, x)(n).Some?
    ensures SelectorShown(view, x, n, m)
    decreases n
  {
    var xs := Objects(n.fields[Children].items);
    if !AlikeKeys(SelectorKey(x), SelectorView(view, x), xs) {
      m := ExchangedChildrenShow(view, x, n, xs);
    } else {
      var c := UnlikeChild(view, x, n);
      ObjectsHold(n.fields[Children].items, c);
      ChildIsSeen(view, x, n, c);
      var d := SelectorShows(view, x, c);
      m := ReplacedChildShows(view, x, n, xs, c, d);
    }
  }

  // ---------------------------------------------------------------- roles

  ghost predicate RoleShown<A(!new)>(view: View<A>, x: Texts, n: Node, m: Node) {
    RoleRearranged(n, m) && view(CanonicalRole(x, n)) != view(CanonicalRole(x, m))
  }

  lemma SelectorsShow<A(!new)>(view: View<A>, x: Texts, n: Node, m: Node)
    requires Lawful(view) && HasSelectors(n) && HasSelectors(m) && view(CanonicalRole(x, n)).Some?
    requires Map(view, SortedForms(x, n.fields[Selectors].items)) != Map(view, SortedForms(x, m.fields[Selectors].items))
    ensures view(CanonicalRole(x, n)) != view(CanonicalRole(x, m))
  {
    var f := RoleIsFramed(x, n);
    var g := RoleIsFramed(x, m);
    FramedApart(view, f, g, Selectors,
                SortedForms(x, n.fields[Selectors].items), SortedForms(x, m.fields[Selectors].items));
  }

  lemma RoleIsFramed(x: Texts, n: Node) returns (f: Object)
    requires HasSelectors(n)
    ensures CanonicalRole(x, n) == Framed(f, Selectors, SortedForms(x, n.fields[Selectors].items))
  {
    f := Fill(n.fields, Status, Known(Approved));
    CanonicalRoleIs(x, n);
  }

  lemma SelectorsRearranged(n: Node, ys: seq<Node>, middle: seq<Node>, m: Node)
    requires HasSelectors(n) && SelectorsVia(n.fields[Selectors].items, ys, middle) && m == WithSelectors(n.fields, ys)
    ensures HasSelectors(m) && m.fields[Selectors].items == ys && RoleRearranged(n, m)
  {
    assert m.fields[Selectors] == List(ys);
  }

  lemma ShownSelectorsShow<A(!new)>(view: View<A>, x: Texts, n: Node, ys: seq<Node>, middle: seq<Node>) returns (m: Node)
    requires Lawful(view) && HasSelectors(n) && view(CanonicalRole(x, n)).Some?
    requires FormsShown(view, x, n.fields[Selectors].items, ys, middle)
    ensures RoleShown(view, x, n, m)
  {
    m := WithSelectors(n.fields, ys);
    SelectorsRearranged(n, ys, middle, m);
    SelectorsShow(view, x, n, m);
  }

  lemma SelectorIsSeen<A(!new)>(view: View<A>, x: Texts, n: Node, c: Node)
    requires Lawful(view) && HasSelectors(n) && view(CanonicalRole(x, n)).Some? && c in n.fields[Selectors].items
    ensures SelectorView(view, x)(c).Some?
  {
    CanonicalRoleIs(x, n);
    FramedInside(view, Fill(n.fields, Status, Known(Approved)), Selectors, SortedForms(x, n.fields[Selectors].items));
    FormsSeen(view, x, n.fields[Selectors].items, c);
  }

  lemma UnlikeSelector<A(!new)>(view: View<A>, x: Texts, n: Node) returns (c: Node)
    requires !AlikeSelectors(view, x, n)
    requires AlikeKeys(SelectorKey(x), SelectorView(view, x), n.fields[Selectors].items)
    ensures c in n.fields[Selectors].items && !AlikeThroughout(view, x, c)
  {
    c :| c in n.fields[Selectors].items && !AlikeThroughout(view, x, c);
  }

  lemma ReplacedSelectorShows<A(!new)>(view: View<A>, x: Texts, n: Node, xs: seq<Node>, c: Node, d: Node) returns (m: Node)
    requires Lawful(view) && HasSelectors(n) && view(CanonicalRole(x, n)).Some? && xs == n.fields[Selectors].items
    requires c in xs && SelectorShown(view, x, c, d)
    ensures RoleShown(view, x, n, m)
  {
    var i := PlaceOf(xs, c);
    ReplacedFormShows(view, x, xs, i, d, xs[i := d]);
    m := ShownSelectorsShow(view, x, n, xs[i := d], xs[i := d]);
  }

  lemma ExchangedSelectorsShow<A(!new)>(view: View<A>, x: Texts, n: Node, xs: seq<Node>) returns (m: Node)
    requires Lawful(view) && HasSelectors(n) && view(CanonicalRole(x, n)).Some? && xs == n.fields[Selectors].items
    requires !AlikeKeys(SelectorKey(x), SelectorView(view, x), xs)
    ensures RoleShown(view, x, n, m)
  {
    var ys := ExchangedFormsShow(view, x, xs);
    m := ShownSelectorsShow(view, x, n, ys, xs);
  }

  lemma RoleShows<A(!new)>(view: View<A>, x: Texts, n: Node) returns (m: Node)
    requires Lawful(view) && !AlikeSelectors(view, x, n) && view(CanonicalRole(x, n)).Some?
    ensures RoleShown(view, x, n, m)
  {
    var xs := n.fields[Selectors].items;
    if !AlikeKeys(SelectorKey(x), SelectorView(view, x), xs) {
      m := ExchangedSelectorsShow(view, x, n, xs);
    } else {
      var c := UnlikeSelector(view, x, n);
      SelectorIsSeen(view, x, n, c);
      var d := SelectorShows(view, x, c);
      m := ReplacedSelectorShows(view, x, n, xs, c, d);
    }
  }

  lemma RoleRearrangedItself(n: Node)
    ensures RoleRearranged(n, n)
  {
    if HasSelectors(n) {
      AllRearrangedItself(n.fields[Selectors].items);
      assert SelectorsVia(n.fields[Selectors].items, n.fields[Selectors].items, n.fields[Selectors].items);
    }
  }

  // ---------------------------------------------------------------- collections

  lemma ItemsRearrangedItself(name: Name, xs: seq<Node>)
    ensures forall i :: 0 <= i < |xs| ==> ItemRearranged(name, xs[i], xs[i])
  {
    forall i | 0 <= i < |xs| ensures ItemRearranged(name, xs[i], xs[i]) { RoleRearrangedItself(xs[i]); }
  }

  lemma CollectionRearrangedItself(name: Name, v: Node)
    ensures CollectionRearranged(name, v, v)
  {
    if Collection(name) && v.List? {
      ItemsRearrangedItself(name, v.items);
      assert ListVia(name, v.items, v.items, v.items);
    }
  }

  /** A list of elements in another order, which shows. */
  ghost predicate ItemsShown<A(!new)>(view: View<A>, x: Texts, name: Name, xs: seq<Node>, ys: seq<Node>, middle: seq<Node>) {
    ListVia(name, xs, ys, middle) && Map(view, SortedItems(x, name, xs)) != Map(view, SortedItems(x, name, ys))
  }

  lemma SortedItemsSeen<A(!new)>(view: View<A>, x: Texts, name: Name, xs: seq<Node>)
    ensures Map(view, SortedItems(x, name, xs)) == Map(ItemView(view, x, name), SortBy(CollectionKey(x, name), xs))
  {
    SeenMapped(view, CanonicalItem(x, name), SortBy(CollectionKey(x, name), xs));
  }

  lemma ExchangedItemsShow<A(!new)>(view: View<A>, x: Texts, name: Name, xs: seq<Node>, key: Key, g: View<A>)
    returns (ys: seq<Node>)
    requires key == CollectionKey(x, name) && g == ItemView(view, x, name) && !AlikeKeys(key, g, xs)
    ensures ItemsShown(view, x, name, xs, ys, xs)
  {
    var i, j := UnlikePair(key, g, xs);
    ys := Exchanged(xs, i, j);
    ExchangeShows(key, g, xs, i, j);
    ItemsRearrangedItself(name, xs);
    SortedItemsSeen(view, x, name, xs);
    SortedItemsSeen(view, x, name, ys);
  }

  /** An element with another order inside, which shows. */
  ghost predicate ItemShown<A(!new)>(view: View<A>, x: Texts, name: Name, c: Node, d: Node) {
    ItemRearranged(name, c, d) && ItemView(view, x, name)(c) != ItemView(view, x, name)(d)
  }

  lemma ReplacedItemsRearranged(name: Name, xs: seq<Node>, i: nat, d: Node)
    requires i < |xs| && ItemRearranged(name, xs[i], d)
    ensures ListVia(name, xs, xs[i := d], xs[i := d])
  {
    ItemsRearrangedItself(name, xs);
  }

  lemma ReplacedItemIsSeen<A(!new)>(view: View<A>, x: Texts, name: Name, xs: seq<Node>, i: nat, d: Node, key: Key, g: View<A>)
    requires key == CollectionKey(x, name) && g == ItemView(view, x, name)
    requires i < |xs| && key(xs[i]) == key(d) && g(xs[i]) != g(d)
    ensures Map(view, SortedItems(x, name, xs)) != Map(view, SortedItems(x, name, xs[i := d]))
  {
    ReplacedShows(key, g, xs, i, d);
    SortedItemsSeen(view, x, name, xs);
    SortedItemsSeen(view, x, name, xs[i := d]);
  }

  lemma ReplacedItemShows<A(!new)>(view: View<A>, x: Texts, name: Name, xs: seq<Node>, c: Node, d: Node) returns (ys: seq<Node>)
    requires c in xs && ItemShown(view, x, name, c, d)
    ensures ItemsShown(view, x, name, xs, ys, ys)
  {
    var i := PlaceOf(xs, c);
    ys := xs[i := d];
    ItemKeepsKey(x, name, c, d);
    ReplacedItemIsSeen(view, x, name, xs, i, d, CollectionKey(x, name), ItemView(view, x, name));
    ReplacedItemsRearranged(name, xs, i, d);
  }

  lemma ItemIsSeen<A(!new)>(view: View<A>, x: Texts, name: Name, xs: seq<Node>, c: Node)
    requires None !in Map(view, SortedItems(x, name, xs)) && c in xs
    ensures ItemView(view, x, name)(c).Some?
  {
    SortedItemsSeen(view, x, name, xs);
    SortedSeen(CollectionKey(x, name), ItemView(view, x, name), xs);
  }

  lemma UnlikeRole<A(!new)>(view: View<A>, x: Texts, name: Name, xs: seq<Node>) returns (c: Node)
    requires !AlikeRoles(view, x, name, xs)
    ensures name == Roles && c in xs && !AlikeSelectors(view, x, c)
  {
    c :| c in xs && !AlikeSelectors(view, x, c);
  }

  lemma RoleItemView<A(!new)>(view: View<A>, x: Texts, name: Name, c: Node)
    requires name == Roles
    ensures ItemView(view, x, name)(c) == view(CanonicalRole(x, c))
  {
    RoleItem(x, c);
  }

  lemma RoleShownIsItemShown<A(!new)>(view: View<A>, x: Texts, name: Name, c: Node, d: Node)
    requires name == Roles && RoleShown(view, x, c, d)
    ensures ItemShown(view, x, name, c, d)
  {
    RoleItemView(view, x, name, c);
    RoleItemView(view, x, name, d);
  }

  lemma UnlikeRoleShows<A(!new)>(view: View<A>, x: Texts, name: Name, xs: seq<Node>, c: Node) returns (d: Node)
    requires Lawful(view) && None !in Map(view, SortedItems(x, name, xs))
    requires name == Roles && c in xs && !AlikeSelectors(view, x, c)
    ensures RoleShown(view, x, c, d)
  {
    ItemIsSeen(view, x, name, xs, c);
    RoleItemView(view, x, name, c);
    d := RoleShows(view, x, c);
  }

  lemma UnlikeRolesShow<A(!new)>(view: View<A>, x: Texts, name: Name, xs: seq<Node>) returns (ys: seq<Node>)
    requires Lawful(view) && None !in Map(view, SortedItems(x, name, xs)) && !AlikeRoles(view, x, name, xs)
    ensures ItemsShown(view, x, name, xs, ys, ys)
  {
    var c := UnlikeRole(view, x, name, xs);
    var d := UnlikeRoleShows(view, x, name, xs, c);
    RoleShownIsItemShown(view, x, name, c, d);
    ys := ReplacedItemShows(view, x, name, xs, c, d);
  }

  /** A collection in which the order of the elements, or that of their selectors, matters. */
  lemma CollectionShows<A(!new)>(view: View<A>, x: Texts, name: Name, xs: seq<Node>) returns (ys: seq<Node>, middle: seq<Node>)
    requires Lawful(view) && None !in Map(view, SortedItems(x, name, xs))
    requires !AlikeItems(view, x, name, xs) || !AlikeRoles(view, x, name, xs)
    ensures ItemsShown(view, x, name, xs, ys, middle)
  {
    if !AlikeItems(view, x, name, xs) {
      ys := ExchangedItemsShow(view, x, name, xs, CollectionKey(x, name), ItemView(view, x, name));
      middle := xs;
    } else {
      ys := UnlikeRolesShow(view, x, name, xs);
      middle := ys;
    }
  }

  // ---------------------------------------------------------------- containers

  lemma CanonicalAtOne(x: Texts, o: Object, defaults: seq<Name>, name: Name, v: Node, c: Object) returns (w: Node)
    requires name in o && o[name] == v && v != Null && c == CanonicalContainer(x, o, defaults)
    ensures name in c && c[name] == w && w == CanonicalCollection(x, name, v)
  {
    FilledAt(o, defaults, name);
    w := CanonicalCollection(x, name, v);
  }

  lemma CanonicalListIs(x: Texts, name: Name, v: Node, xs: seq<Node>, w: Node)
    requires Collection(name) && v == List(xs) && w == CanonicalCollection(x, name, v)
    ensures w == List(SortedItems(x, name, xs))
  {
    CanonicalList(x, name, xs);
  }

  lemma CanonicalListAt(x: Texts, o: Object, defaults: seq<Name>, name: Name, v: Node, xs: seq<Node>, c: Object)
    requires name in o && o[name] == v && v == List(xs) && Collection(name) && c == CanonicalContainer(x, o, defaults)
    ensures name in c && c[name] == List(SortedItems(x, name, xs))
  {
    var w := CanonicalAtOne(x, o, defaults, name, v, c);
    CanonicalListIs(x, name, v, xs, w);
  }

  lemma ListsApart<A(!new)>(view: View<A>, v: Node, w: Node, xs: seq<Node>, ys: seq<Node>)
    requires Lawful(view) && v == List(xs) && w == List(ys) && view(v).Some? && Map(view, xs) != Map(view, ys)
    ensures view(v) != view(w)
  {
    assert ListsTell(view, xs, ys);
  }

  lemma ListInside<A(!new)>(view: View<A>, v: Node, xs: seq<Node>)
    requires Lawful(view) && v == List(xs) && view(v).Some?
    ensures None !in Map(view, xs)
  {
    assert ListsTell(view, xs, xs);
  }

  lemma ContainerRearrangedItself(o: Object)
    ensures ContainerRearranged(o, o)
  {
    forall n | n in o ensures CollectionRearranged(n, o[n], o[n]) { CollectionRearrangedItself(n, o[n]); }
  }

  lemma ListIsRearranged(name: Name, v: Node, w: Node, middle: seq<Node>)
    requires Collection(name) && v.List? && w.List? && ListVia(name, v.items, w.items, middle)
    ensures CollectionRearranged(name, v, w)
  {
  }

  lemma ReplacedCollectionRearranged(o: Object, name: Name, w: Node)
    requires name in o && CollectionRearranged(name, o[name], w)
    ensures ContainerRearranged(o, o[name := w])
  {
    forall n | n in o ensures CollectionRearranged(n, o[n], o[name := w][n]) { CollectionRearrangedItself(n, o[n]); }
  }

  lemma ReplacedListRearranged(o: Object, name: Name, xs: seq<Node>, ys: seq<Node>, middle: seq<Node>)
    requires name in o && o[name] == List(xs) && Collection(name) && ListVia(name, xs, ys, middle)
    ensures ContainerRearranged(o, o[name := List(ys)])
  {
    ListIsRearranged(name, List(xs), List(ys), middle);
    ReplacedCollectionRearranged(o, name, List(ys));
  }

  lemma UnlikeCollection<A(!new)>(view: View<A>, x: Texts, o: Object) returns (name: Name, xs: seq<Node>)
    requires !AlikeContainer(view, x, o)
    ensures name in o && o[name] == List(xs) && Collection(name)
    ensures !AlikeItems(view, x, name, xs) || !AlikeRoles(view, x, name, xs)
  {
    name :| name in o && !AlikeCollection(view, x, name, o[name]);
    xs := o[name].items;
  }

  ghost predicate CollectionsSeen<A>(view: View<A>, c: Object) { forall n :: n in c && Collection(n) ==> view(c[n]).Some? }

  /** The two containers are the same but for the collection `name`, in another order, which shows. */
  ghost predicate ContainerShown<A>(view: View<A>, x: Texts, o: Object, p: Object, defaults: seq<Name>, name: Name) {
    && name in o && o[name].List? && Collection(name) && name in p && p == o[name := p[name]] && ContainerRearranged(o, p)
    && name in CanonicalContainer(x, o, defaults) && name in CanonicalContainer(x, p, defaults)
    && view(CanonicalContainer(x, o, defaults)[name]) != view(CanonicalContainer(x, p, defaults)[name])
  }

  lemma ShownCollectionShows<A(!new)>(view: View<A>, x: Texts, o: Object, p: Object, defaults: seq<Name>, name: Name,
                                      xs: seq<Node>, ys: seq<Node>, c: Object, d: Object)
    requires Lawful(view) && name in o && o[name] == List(xs) && Collection(name) && p == o[name := List(ys)]
    requires c == CanonicalContainer(x, o, defaults) && d == CanonicalContainer(x, p, defaults) && CollectionsSeen(view, c)
    requires Map(view, SortedItems(x, name, xs)) != Map(view, SortedItems(x, name, ys))
    ensures name in c && name in d && view(c[name]) != view(d[name])
  {
    CanonicalListAt(x, o, defaults, name, List(xs), xs, c);
    CanonicalListAt(x, p, defaults, name, List(ys), ys, d);
    ListsApart(view, c[name], d[name], SortedItems(x, name, xs), SortedItems(x, name, ys));
  }

  lemma ContainerItemsSeen<A(!new)>(view: View<A>, x: Texts, o: Object, defaults: seq<Name>, name: Name, xs: seq<Node>, c: Object)
    requires Lawful(view) && name in o && o[name] == List(xs) && Collection(name)
    requires c == CanonicalContainer(x, o, defaults) && CollectionsSeen(view, c)
    ensures None !in Map(view, SortedItems(x, name, xs))
  {
    CanonicalListAt(x, o, defaults, name, List(xs), xs, c);
    ListInside(view, c[name], SortedItems(x, name, xs));
  }

  lemma ShownContainerShows<A(!new)>(view: View<A>, x: Texts, o: Object, defaults: seq<Name>, name: Name, xs: seq<Node>,
                                     ys: seq<Node>, middle: seq<Node>, p: Object)
    requires Lawful(view) && CollectionsSeen(view, CanonicalContainer(x, o, defaults))
    requires name in o && o[name] == List(xs) && Collection(name) && p == o[name := List(ys)]
    requires ItemsShown(view, x, name, xs, ys, middle)
    ensures ContainerShown(view, x, o, p, defaults, name)
  {
    ReplacedListRearranged(o, name, xs, ys, middle);
    ShownCollectionShows(view, x, o, p, defaults, name, xs, ys, CanonicalContainer(x, o, defaults), CanonicalContainer(x, p, defaults));
  }

  lemma ContainerShows<A(!new)>(view: View<A>, x: Texts, o: Object, defaults: seq<Name>) returns (p: Object, name: Name)
    requires Lawful(view) && !AlikeContainer(view, x, o) && CollectionsSeen(view, CanonicalContainer(x, o, defaults))
    ensures ContainerShown(view, x, o, p, defaults, name)
  {
    var xs: seq<Node>;
    name, xs := UnlikeCollection(view, x, o);
    ContainerItemsSeen(view, x, o, defaults, name, xs, CanonicalContainer(x, o, defaults));
    var ys, middle := CollectionShows(view, x, name, xs);
    p := o[name := List(ys)];
    ShownContainerShows(view, x, o, defaults, name, xs, ys, middle, p);
  }

  // ---------------------------------------------------------------- the manifest

  /** What matters of a canonical manifest is not refused. */
  ghost predicate PartsSeen<A>(view: View<A>, c: Object) {
    CollectionsSeen(view, c) && (Profiles in c ==> view(c[Profiles]).Some?)
  }

  /** Two canonical manifests look different at a place that both digests cover. */
  ghost predicate DifferAt<A>(view: View<A>, c: Object, d: Object, place: Name) {
    !Plain(place) && place != Proto && place in c && place in d && view(c[place]) != view(d[place])
  }

  lemma ProfilesRearrangedItself(o: Object)
    ensures ProfilesRearranged(o, o)
  {
    forall p | p in o ensures ProfileRearranged(o[p], o[p]) {
      if o[p].Obj? { ContainerRearrangedItself(o[p].fields); }
    }
  }

  lemma BesideProfiles(m: Object, o: Object, p: Object, name: Name, b: Object)
    requires HasProfiles(m) && o == m[Profiles := Null] && name in o && o[name].List? && name in p && p == o[name := p[name]]
    requires b == m[name := p[name]]
    ensures name != Profiles && HasProfiles(b) && b[Profiles] == m[Profiles] && b[Profiles := Null] == p
  {
  }

  lemma DifferInRoot<A>(view: View<A>, c: Object, d: Object, v: Node, w: Node, name: Name)
    requires Collection(name) && name in c && name in d && view(c[name]) != view(d[name])
    ensures DifferAt(view, c[Profiles := v], d[Profiles := w], name)
  {
  }

  lemma DifferInProfiles<A>(view: View<A>, c: Object, d: Object, v: Node, w: Node)
    requires view(v) != view(w)
    ensures DifferAt(view, c[Profiles := v], d[Profiles := w], Profiles)
  {
  }

  lemma CollectionsSeenInside<A>(view: View<A>, c: Object, v: Node)
    requires CollectionsSeen(view, c[Profiles := v])
    ensures CollectionsSeen(view, c)
  {
    forall n | n in c && Collection(n) ensures view(c[n]).Some? { assert n in c[Profiles := v] && c[Profiles := v][n] == c[n]; }
  }

  lemma RootShows<A(!new)>(view: View<A>, x: Texts, m: Object, o: Object) returns (b: Object, place: Name)
    requires Lawful(view) && HasProfiles(m) && o == m[Profiles := Null] && !AlikeContainer(view, x, o)
    requires CollectionsSeen(view, RootPart(x, m))
    ensures ManifestRearranged(m, b) && DifferAt(view, Assembled(x, m), Assembled(x, b), place)
  {
    var p: Object;
    p, place := ContainerShows(view, x, o, ROOT_DEFAULTS);
    b := m[place := p[place]];
    BesideProfiles(m, o, p, place, b);
    ProfilesRearrangedItself(m[Profiles].fields);
    DifferInRoot(view, RootPart(x, m), RootPart(x, b), Obj(ProfilesPart(x, m)), Obj(ProfilesPart(x, b)), place);
  }

  function WithProfile(m: Object, p: Name, fields: Object): Object
    requires HasProfiles(m)
  {
    m[Profiles := Obj(m[Profiles].fields[p := Obj(fields)])]
  }

  lemma ProfileRearrangedAt(m: Object, p: Name, fields: Object)
    requires HasProfiles(m) && p in m[Profiles].fields && m[Profiles].fields[p].Obj?
    requires ContainerRearranged(m[Profiles].fields[p].fields, fields)
    ensures ManifestRearranged(m, WithProfile(m, p, fields))
  {
    var b, before := WithProfile(m, p, fields), m[Profiles].fields;
    assert b[Profiles := Null] == m[Profiles := Null];
    ContainerRearrangedItself(m[Profiles := Null]);
    ProfilesRearrangedItself(before);
    var after := b[Profiles].fields;
    forall q | q in before ensures ProfileRearranged(before[q], after[q]) {
      if q == p { assert after[q] == Obj(fields); } else { assert after[q] == before[q]; }
    }
  }

  lemma ObjectsApart<A(!new)>(view: View<A>, f: Object, g: Object, k: Name)
    requires Lawful(view) && view(Obj(f)).Some? && k in f && k in g && k != Proto && view(f[k]) != view(g[k])
    ensures view(Obj(f)) != view(Obj(g))
  {
    assert ObjectsTell(view, f, g);
  }

  lemma ObjectInside<A(!new)>(view: View<A>, f: Object)
    requires Lawful(view) && view(Obj(f)).Some?
    ensures AllSeen(view, f)
  {
    assert ObjectsTell(view, f, f);
  }

  lemma ProfilesAt(x: Texts, o: Object, p: Name, fields: Object, c: Object)
    requires p in o && p != Proto && o[p] == Obj(fields) && c == CanonicalProfiles(x, o)
    ensures p in c && c[p] == Obj(CanonicalContainer(x, fields, PROFILE_DEFAULTS))
  {
  }

  lemma ProfileDiffers<A(!new)>(view: View<A>, x: Texts, o: Object, p: Name, was: Object, fields: Object, c: Object, d: Object,
                                name: Name)
    requires Lawful(view) && p in o && p != Proto && o[p] == Obj(was) && ContainerShown(view, x, was, fields, PROFILE_DEFAULTS, name)
    requires c == CanonicalProfiles(x, o) && d == CanonicalProfiles(x, o[p := Obj(fields)]) && view(Obj(c)).Some?
    ensures view(Obj(c)) != view(Obj(d))
  {
    ProfilesAt(x, o, p, was, c);
    ProfilesAt(x, o[p := Obj(fields)], p, fields, d);
    ObjectInside(view, c);
    ObjectsApart(view, CanonicalContainer(x, was, PROFILE_DEFAULTS), CanonicalContainer(x, fields, PROFILE_DEFAULTS), name);
    ObjectsApart(view, c, d, p);
  }

  lemma ProfileCollectionsSeen<A(!new)>(view: View<A>, x: Texts, o: Object, p: Name, was: Object, c: Object)
    requires Lawful(view) && p in o && p != Proto && o[p] == Obj(was) && c == CanonicalProfiles(x, o) && view(Obj(c)).Some?
    ensures CollectionsSeen(view, CanonicalContainer(x, was, PROFILE_DEFAULTS))
  {
    ProfilesAt(x, o, p, was, c);
    ObjectInside(view, c);
    ObjectInside(view, CanonicalContainer(x, was, PROFILE_DEFAULTS));
  }

  lemma InProfileShows<A(!new)>(view: View<A>, x: Texts, m: Object, o: Object, p: Name, was: Object) returns (b: Object)
    requires Lawful(view) && HasProfiles(m) && o == m[Profiles].fields && p in o && p != Proto && o[p] == Obj(was)
    requires !AlikeContainer(view, x, was) && view(Obj(ProfilesPart(x, m))).Some?
    ensures ManifestRearranged(m, b) && DifferAt(view, Assembled(x, m), Assembled(x, b), Profiles)
  {
    ProfileCollectionsSeen(view, x, o, p, was, ProfilesPart(x, m));
    var fields, name := ContainerShows(view, x, was, PROFILE_DEFAULTS);
    b := WithProfile(m, p, fields);
    ProfileRearrangedAt(m, p, fields);
    ProfileDiffers(view, x, o, p, was, fields, ProfilesPart(x, m), ProfilesPart(x, b), name);
    DifferInProfiles(view, RootPart(x, m), RootPart(x, b), Obj(ProfilesPart(x, m)), Obj(ProfilesPart(x, b)));
  }

  lemma UnlikeProfile<A(!new)>(view: View<A>, x: Texts, o: Object) returns (p: Name)
    requires !AlikeProfiles(view, x, o)
    ensures p in o && p != Proto && o[p].Obj? && !AlikeContainer(view, x, o[p].fields)
  {
    p :| p in o && p != Proto && o[p].Obj? && !AlikeContainer(view, x, o[p].fields);
  }

  lemma AssembledSeen<A>(view: View<A>, x: Texts, m: Object)
    requires HasProfiles(m) && PartsSeen(view, Assembled(x, m))
    ensures CollectionsSeen(view, RootPart(x, m)) && view(Obj(ProfilesPart(x, m))).Some?
  {
    CollectionsSeenInside(view, RootPart(x, m), Obj(ProfilesPart(x, m)));
  }

  lemma SomeOrderShowsInParts<A(!new)>(view: View<A>, x: Texts, m: Object) returns (b: Object, place: Name)
    requires Lawful(view) && HasProfiles(m) && !AlikeManifest(view, x, m)
    requires CollectionsSeen(view, RootPart(x, m)) && view(Obj(ProfilesPart(x, m))).Some?
    ensures ManifestRearranged(m, b) && DifferAt(view, Assembled(x, m), Assembled(x, b), place)
  {
    if !AlikeContainer(view, x, m[Profiles := Null]) {
      b, place := RootShows(view, x, m, m[Profiles := Null]);
    } else {
      var p := UnlikeProfile(view, x, m[Profiles].fields);
      b := InProfileShows(view, x, m, m[Profiles].fields, p, m[Profiles].fields[p].fields);
      place := Profiles;
    }
  }

  /** If anywhere two elements have equal keys and look different in canonical form, some other order of the
      manifest has a canonical form that looks different. */
  lemma SomeOrderShows<A(!new)>(view: View<A>, x: Texts, m: Object) returns (b: Object, place: Name)
    requires Lawful(view) && HasProfiles(m) && !AlikeManifest(view, x, m) && PartsSeen(view, Canonical(x, m))
    ensures ManifestRearranged(m, b) && DifferAt(view, Canonical(x, m), Canonical(x, b), place)
  {
    CanonicalParts(x, m);
    AssembledSeen(view, x, m);
    b, place := SomeOrderShowsInParts(view, x, m);
    CanonicalParts(x, b);
  }
}
