/** What is refused in one order of a manifest is refused in every order. */
module ManifestRefusal {

  import opened Options
  import opened StableSort
  import opened ManifestSelectors
  import opened ManifestDigests
  import opened ManifestStability
  import opened ManifestViews
  import opened ManifestOrder
  import opened ManifestDisorder
  import opened ManifestPayloads

  // ---------------------------------------------------------------- selectors and roles

  lemma AllStaySeen<A(!new)>(g: View<A>, xs: seq<Node>, ys: seq<Node>, middle: seq<Node>)
    requires |middle| == |xs| && multiset(middle) == multiset(ys) && forall n :: n in ys ==> g(n).Some?
    requires forall i :: 0 <= i < |xs| ==> g(middle[i]).Some? ==> g(xs[i]).Some?
    ensures forall n :: n in xs ==> g(n).Some?
  {
    forall n | n in xs ensures g(n).Some? {
      var i :| 0 <= i < |xs| && xs[i] == n;
      assert middle[i] in multiset(ys);
    }
  }

  lemma AllFormsSeen<A(!new)>(view: View<A>, x: Texts, xs: seq<Node>, g: View<A>)
    requires g == SelectorView(view, x)
    ensures None !in Map(view, SortedForms(x, xs)) <==> forall n :: n in xs ==> g(n).Some?
  {
    SortedSeen(SelectorKey(x), g, xs);
    SeenMapped(view, Canonizing(x), SortBy(SelectorKey(x), xs));
  }

  lemma FormsStaySeen<A(!new)>(view: View<A>, x: Texts, xs: seq<Node>, ys: seq<Node>, middle: seq<Node>, g: View<A>)
    requires |middle| == |xs| && multiset(middle) == multiset(ys) && None !in Map(view, SortedForms(x, ys))
    requires g == SelectorView(view, x) && forall i :: 0 <= i < |xs| ==> g(middle[i]).Some? ==> g(xs[i]).Some?
    ensures None !in Map(view, SortedForms(x, xs))
  {
    AllFormsSeen(view, x, ys, g);
    AllStaySeen(g, xs, ys, middle);
    AllFormsSeen(view, x, xs, g);
  }

  lemma SelectorStaysSeen<A(!new)>(view: View<A>, x: Texts, a: Node, b: Node, f: Object, g: Object)
    requires Lawful(view) && HasChildren(a) && HasChildren(b) && SameBeside(Children, f, g)
    requires f == FillSelector(a.fields) && g == FillSelector(b.fields) && SelectorView(view, x)(b).Some?
    requires None !in Map(view, SortedForms(x, Objects(a.fields[Children].items)))
    ensures SelectorView(view, x)(a).Some?
  {
    CanonicalSelectorIs(x, a);
    CanonicalSelectorIs(x, b);
    FramedSeen(view, f, g, Children, SortedForms(x, Objects(a.fields[Children].items)),
               SortedForms(x, Objects(b.fields[Children].items)));
  }

  lemma ChildrenSeen<A(!new)>(view: View<A>, x: Texts, n: Node)
    requires Lawful(view) && HasChildren(n) && SelectorView(view, x)(n).Some?
    ensures None !in Map(view, SortedForms(x, Objects(n.fields[Children].items)))
  {
    var f := SelectorIsFramed(x, n);
    FramedInside(view, f, Children, SortedForms(x, Objects(n.fields[Children].items)));
  }

  lemma {:induction false} RearrangedStaysSeen<A(!new)>(view: View<A>, x: Texts, a: Node, b: Node)
    requires Lawful(view) && Rearranged(a, b) && SelectorView(view, x)(b).Some?
    ensures SelectorView(view, x)(a).Some?
    decreases a
  {
    if HasChildren(a) && HasChildren(b) {
      var middle :| RearrangedVia(a, b, middle);
      var xs := Objects(a.fields[Children].items);
      ObjectsInside(a.fields[Children].items);
      forall i | 0 <= i < |xs| && SelectorView(view, x)(middle[i]).Some? ensures SelectorView(view, x)(xs[i]).Some? {
        assert xs[i] in a.fields[Children].items;
        RearrangedStaysSeen(view, x, xs[i], middle[i]);
      }
      ChildrenSeen(view, x, b);
      FormsStaySeen(view, x, xs, Objects(b.fields[Children].items), middle, SelectorView(view, x));
      FillSelectorAlike(a.fields, b.fields);
      SelectorStaysSeen(view, x, a, b, FillSelector(a.fields), FillSelector(b.fields));
    }
  }

  lemma SelectorsSeen<A(!new)>(view: View<A>, x: Texts, n: Node)
    requires Lawful(view) && HasSelectors(n) && view(CanonicalRole(x, n)).Some?
    ensures None !in Map(view, SortedForms(x, n.fields[Selectors].items))
  {
    var f := RoleIsFramed(x, n);
    FramedInside(view, f, Selectors, SortedForms(x, n.fields[Selectors].items));
  }

  lemma RoleIsSeenWith<A(!new)>(view: View<A>, x: Texts, a: Node, b: Node, f: Object, g: Object)
    requires Lawful(view) && HasSelectors(a) && HasSelectors(b) && SameBeside(Selectors, f, g)
    requires f == Fill(a.fields, Status, Known(Approved)) && g == Fill(b.fields, Status, Known(Approved))
    requires view(CanonicalRole(x, b)).Some? && None !in Map(view, SortedForms(x, a.fields[Selectors].items))
    ensures view(CanonicalRole(x, a)).Some?
  {
    CanonicalRoleIs(x, a);
    CanonicalRoleIs(x, b);
    FramedSeen(view, f, g, Selectors, SortedForms(x, a.fields[Selectors].items), SortedForms(x, b.fields[Selectors].items));
  }

  lemma RoleStaysSeen<A(!new)>(view: View<A>, x: Texts, a: Node, b: Node)
    requires Lawful(view) && RoleRearranged(a, b) && view(CanonicalRole(x, b)).Some?
    ensures view(CanonicalRole(x, a)).Some?
  {
    if HasSelectors(a) && HasSelectors(b) {
      var xs, ys := a.fields[Selectors].items, b.fields[Selectors].items;
      var middle :| SelectorsVia(xs, ys, middle);
      forall i | 0 <= i < |xs| && SelectorView(view, x)(middle[i]).Some? ensures SelectorView(view, x)(xs[i]).Some? {
        RearrangedStaysSeen(view, x, xs[i], middle[i]);
      }
      SelectorsSeen(view, x, b);
      FormsStaySeen(view, x, xs, ys, middle, SelectorView(view, x));
      var f, g := Fill(a.fields, Status, Known(Approved)), Fill(b.fields, Status, Known(Approved));
      FilledRolesAlike(a.fields, b.fields, f, g);
      RoleIsSeenWith(view, x, a, b, f, g);
    }
  }

  // ---------------------------------------------------------------- collections and containers

  lemma ItemStaysSeen<A(!new)>(view: View<A>, x: Texts, name: Name, a: Node, b: Node)
    requires Lawful(view) && ItemRearranged(name, a, b) && ItemView(view, x, name)(b).Some?
    ensures ItemView(view, x, name)(a).Some?
  {
    if name == Roles {
      RoleItemView(view, x, name, a);
      RoleItemView(view, x, name, b);
      RoleStaysSeen(view, x, a, b);
    }
  }

  lemma AllItemsSeen<A(!new)>(view: View<A>, x: Texts, name: Name, xs: seq<Node>, g: View<A>)
    requires g == ItemView(view, x, name)
    ensures None !in Map(view, SortedItems(x, name, xs)) <==> forall n :: n in xs ==> g(n).Some?
  {
    SortedSeen(CollectionKey(x, name), g, xs);
    SortedItemsSeen(view, x, name, xs);
  }

  lemma ItemsStaySeen<A(!new)>(view: View<A>, x: Texts, name: Name, xs: seq<Node>, ys: seq<Node>, middle: seq<Node>, g: View<A>)
    requires Lawful(view) && ListVia(name, xs, ys, middle) && g == ItemView(view, x, name)
    requires None !in Map(view, SortedItems(x, name, ys))
    ensures None !in Map(view, SortedItems(x, name, xs))
  {
    AllItemsSeen(view, x, name, ys, g);
    forall i | 0 <= i < |xs| && g(middle[i]).Some? ensures g(xs[i]).Some? {
      ItemStaysSeen(view, x, name, xs[i], middle[i]);
    }
    AllStaySeen(g, xs, ys, middle);
    AllItemsSeen(view, x, name, xs, g);
  }

  lemma ListIsSeen<A(!new)>(view: View<A>, v: Node, xs: seq<Node>)
    requires Lawful(view) && v == List(xs)
    ensures view(v).Some? <==> None !in Map(view, xs)
  {
    assert ListsTell(view, xs, xs);
  }

  lemma ListStaysSeen<A(!new)>(view: View<A>, x: Texts, name: Name, xs: seq<Node>, ys: seq<Node>, middle: seq<Node>, v: Node, w: Node)
    requires Lawful(view) && ListVia(name, xs, ys, middle) && view(w).Some?
    requires v == List(SortedItems(x, name, xs)) && w == List(SortedItems(x, name, ys))
    ensures view(v).Some?
  {
    ListIsSeen(view, w, SortedItems(x, name, ys));
    ItemsStaySeen(view, x, name, xs, ys, middle, ItemView(view, x, name));
    ListIsSeen(view, v, SortedItems(x, name, xs));
  }

  lemma CollectionStaysSeen<A(!new)>(view: View<A>, x: Texts, name: Name, a: Node, b: Node, v: Node, w: Node)
    requires Lawful(view) && CollectionRearranged(name, a, b) && view(w).Some?
    requires v == CanonicalCollection(x, name, a) && w == CanonicalCollection(x, name, b)
    ensures view(v).Some?
  {
    if Collection(name) && a.List? && b.List? {
      var middle :| ListVia(name, a.items, b.items, middle);
      CanonicalListIs(x, name, a, a.items, v);
      CanonicalListIs(x, name, b, b.items, w);
      ListStaysSeen(view, x, name, a.items, b.items, middle, v, w);
    }
  }

  lemma ContainerStaysSeen<A(!new)>(view: View<A>, x: Texts, a: Object, b: Object, defaults: seq<Name>, n: Name, c: Object, d: Object)
    requires Lawful(view) && ContainerRearranged(a, b) && n in c
    requires c == CanonicalContainer(x, a, defaults) && d == CanonicalContainer(x, b, defaults)
    ensures n in d && (view(d[n]).Some? ==> view(c[n]).Some?)
  {
    var f, g := FillAll(a, defaults), FillAll(b, defaults);
    CanonicalAtName(x, a, defaults);
    CanonicalAtName(x, b, defaults);
    FilledPair(a, b, defaults, n);
    if view(d[n]).Some? && f[n] != g[n] { CollectionStaysSeen(view, x, n, a[n], b[n], c[n], d[n]); }
  }

  lemma ContainerKeys(x: Texts, a: Object, b: Object, defaults: seq<Name>)
    requires ContainerRearranged(a, b)
    ensures CanonicalContainer(x, a, defaults).Keys == CanonicalContainer(x, b, defaults).Keys
  {
    CanonicalKeys(x, a, defaults);
    CanonicalKeys(x, b, defaults);
    FilledKeys(a, b, defaults);
  }

  lemma ObjectStaysSeen<A(!new)>(view: View<A>, c: Object, d: Object)
    requires Lawful(view) && c.Keys == d.Keys && view(Obj(d)).Some?
    requires AllSeen(view, d) ==> AllSeen(view, c)
    ensures view(Obj(c)).Some?
  {
    assert ObjectsTell(view, d, c);
  }

  lemma ProfileStaysSeen<A(!new)>(view: View<A>, x: Texts, a: Object, b: Object, c: Object, d: Object)
    requires Lawful(view) && ContainerRearranged(a, b) && view(Obj(d)).Some?
    requires c == CanonicalContainer(x, a, PROFILE_DEFAULTS) && d == CanonicalContainer(x, b, PROFILE_DEFAULTS)
    ensures view(Obj(c)).Some?
  {
    ContainerKeys(x, a, b, PROFILE_DEFAULTS);
    ObjectInside(view, d);
    forall n | n in c ensures view(c[n]).Some? { ContainerStaysSeen(view, x, a, b, PROFILE_DEFAULTS, n, c, d); }
    ObjectStaysSeen(view, c, d);
  }

  lemma CanonicalProfileStaysSeen<A(!new)>(view: View<A>, x: Texts, a: Node, b: Node)
    requires Lawful(view) && ProfileRearranged(a, b) && view(CanonicalProfile(x, b)).Some?
    ensures view(CanonicalProfile(x, a)).Some?
  {
    if a.Obj? && b.Obj? {
      ProfileStaysSeen(view, x, a.fields, b.fields, CanonicalContainer(x, a.fields, PROFILE_DEFAULTS),
                       CanonicalContainer(x, b.fields, PROFILE_DEFAULTS));
    }
  }

  lemma ProfilesStaySeen<A(!new)>(view: View<A>, x: Texts, a: Object, b: Object, c: Object, d: Object)
    requires Lawful(view) && ProfilesRearranged(a, b) && view(Obj(d)).Some?
    requires c == CanonicalProfiles(x, a) && d == CanonicalProfiles(x, b)
    ensures view(Obj(c)).Some?
  {
    ObjectInside(view, d);
    forall p | p in c ensures view(c[p]).Some? {
      assert d[p] == CanonicalProfile(x, b[p]);
      CanonicalProfileStaysSeen(view, x, a[p], b[p]);
    }
    ObjectStaysSeen(view, c, d);
  }

  // ---------------------------------------------------------------- the manifest

  lemma AssembledKeys(x: Texts, a: Object, b: Object)
    requires ManifestRearranged(a, b)
    ensures Assembled(x, a).Keys == Assembled(x, b).Keys
  {
    ContainerKeys(x, a[Profiles := Null], b[Profiles := Null], ROOT_DEFAULTS);
  }

  lemma PartStaysSeen<A(!new)>(view: View<A>, x: Texts, a: Object, b: Object, c: Object, d: Object, n: Name)
    requires Lawful(view) && ManifestRearranged(a, b) && c == Assembled(x, a) && d == Assembled(x, b)
    requires n in c && n in d && view(d[n]).Some?
    ensures view(c[n]).Some?
  {
    if n == Profiles {
      ProfilesStaySeen(view, x, a[Profiles].fields, b[Profiles].fields, ProfilesPart(x, a), ProfilesPart(x, b));
    } else {
      ContainerStaysSeen(view, x, a[Profiles := Null], b[Profiles := Null], ROOT_DEFAULTS, n, RootPart(x, a), RootPart(x, b));
    }
  }

  lemma PayloadStaysSeen<A(!new)>(view: View<A>, c: Object, d: Object, semantic: bool)
    requires Lawful(view) && c.Keys == d.Keys && view(Obj(PayloadOf(d, semantic))).Some?
    requires forall n :: n in c && Plain(n) ==> c[n] == d[n]
    requires forall n :: n in c && view(d[n]).Some? ==> view(c[n]).Some?
    ensures view(Obj(PayloadOf(c, semantic))).Some?
  {
    PayloadLeaves(c, semantic);
    PayloadLeaves(d, semantic);
    PayloadPlain(c, d, semantic);
    ObjectInside(view, PayloadOf(d, semantic));
    ObjectStaysSeen(view, PayloadOf(c, semantic), PayloadOf(d, semantic));
  }

  /** If what is hashed is not refused in one order, it is not refused in the other. */
  lemma HashedStaysSeen<A(!new)>(view: View<A>, x: Texts, a: Object, b: Object, semantic: bool)
    requires Lawful(view) && ManifestRearranged(a, b) && view(Obj(DigestPayload(x, b, semantic))).Some?
    ensures view(Obj(DigestPayload(x, a, semantic))).Some?
  {
    CanonicalParts(x, a);
    CanonicalParts(x, b);
    AssembledKeys(x, a, b);
    PlainIsKept(x, a, b, Canonical(x, a), Canonical(x, b));
    PartsStaySeen(view, x, a, b, Assembled(x, a), Assembled(x, b));
    PayloadStaysSeen(view, Canonical(x, a), Canonical(x, b), semantic);
  }

  lemma PartsStaySeen<A(!new)>(view: View<A>, x: Texts, a: Object, b: Object, c: Object, d: Object)
    requires Lawful(view) && ManifestRearranged(a, b) && c == Assembled(x, a) && d == Assembled(x, b) && c.Keys == d.Keys
    ensures forall n :: n in c && view(d[n]).Some? ==> view(c[n]).Some?
  {
    forall n | n in c && view(d[n]).Some? ensures view(c[n]).Some? { PartStaysSeen(view, x, a, b, c, d, n); }
  }
}
