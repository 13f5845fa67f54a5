/** What is hashed of a manifest, and how orders and exchanges of elements show in it and in the canonical
    form. */
module ManifestPayloads {

  import opened Options
  import opened StableSort
  import opened ManifestSelectors
  import opened ManifestDigests
  import opened ManifestStability
  import opened ManifestViews
  import opened ManifestOrder
  import opened ManifestDisorder

  // ---------------------------------------------------------------- the payload

  lemma PayloadLeaves(c: Object, semantic: bool)
    ensures PayloadOf(c, semantic).Keys == c.Keys
    ensures forall n :: n in c && !Plain(n) ==> PayloadOf(c, semantic)[n] == c[n]
  {
  }

  lemma PayloadDiffers<A(!new)>(view: View<A>, c: Object, d: Object, place: Name, semantic: bool)
    requires Lawful(view) && DifferAt(view, c, d, place) && view(Obj(PayloadOf(c, semantic))).Some?
    ensures view(Obj(PayloadOf(c, semantic))) != view(Obj(PayloadOf(d, semantic)))
  {
    PayloadLeaves(c, semantic);
    PayloadLeaves(d, semantic);
    ObjectsApart(view, PayloadOf(c, semantic), PayloadOf(d, semantic), place);
  }

  lemma PayloadSeen<A(!new)>(view: View<A>, c: Object, semantic: bool)
    requires Lawful(view) && view(Obj(PayloadOf(c, semantic))).Some?
    ensures PartsSeen(view, c)
  {
    PayloadLeaves(c, semantic);
    ObjectInside(view, PayloadOf(c, semantic));
  }

  lemma PayloadPlain(c: Object, d: Object, semantic: bool)
    requires c.Keys == d.Keys && forall n :: n in c && Plain(n) ==> c[n] == d[n]
    ensures forall n :: n in c && Plain(n) ==> PayloadOf(c, semantic)[n] == PayloadOf(d, semantic)[n]
  {
  }

  lemma PayloadsAgree<A(!new)>(view: View<A>, c: Object, d: Object, semantic: bool)
    requires Lawful(view) && SameSeen(view, c, d) && forall n :: n in c && Plain(n) ==> c[n] == d[n]
    ensures view(Obj(PayloadOf(c, semantic))) == view(Obj(PayloadOf(d, semantic)))
  {
    PayloadLeaves(c, semantic);
    PayloadLeaves(d, semantic);
    PayloadPlain(c, d, semantic);
    SameObjects(view, PayloadOf(c, semantic), PayloadOf(d, semantic));
  }

  lemma PlainInRoot(x: Texts, o: Object, n: Name)
    requires Plain(n) && n in CanonicalContainer(x, o, ROOT_DEFAULTS)
    ensures n in o
  {
    PlainIsNoDefault(n);
    InsideFilled(x, o, ROOT_DEFAULTS, n);
  }

  lemma PlainIsNoDefault(n: Name)
    requires Plain(n)
    ensures n !in ROOT_DEFAULTS
  {
  }

  lemma InsideFilled(x: Texts, o: Object, defaults: seq<Name>, n: Name)
    requires n in CanonicalContainer(x, o, defaults) && n !in defaults
    ensures n in o
  {
    CanonicalKeys(x, o, defaults);
    FilledAt(o, defaults, n);
  }

  lemma CanonicalKeys(x: Texts, o: Object, defaults: seq<Name>)
    ensures CanonicalContainer(x, o, defaults).Keys == FillAll(o, defaults).Keys
  {
  }

  lemma PlainInside(x: Texts, m: Object, n: Name)
    requires HasProfiles(m) && Plain(n) && n in Canonical(x, m)
    ensures n in m
  {
    CanonicalParts(x, m);
    PlainInRoot(x, m[Profiles := Null], n);
  }

  lemma RearrangedPlain(a: Object, b: Object, n: Name)
    requires ManifestRearranged(a, b) && Plain(n) && n in a
    ensures n in b && a[n] == b[n]
  {
    assert n in a[Profiles := Null] && n in b[Profiles := Null];
    assert CollectionRearranged(n, a[Profiles := Null][n], b[Profiles := Null][n]);
  }

  lemma PlainIsKept(x: Texts, a: Object, b: Object, c: Object, d: Object)
    requires ManifestRearranged(a, b) && c == Canonical(x, a) && d == Canonical(x, b)
    ensures forall n :: n in c && Plain(n) ==> n in d && c[n] == d[n]
  {
    forall n | n in c && Plain(n) ensures n in d && c[n] == d[n] {
      PlainInside(x, a, n);
      RearrangedPlain(a, b, n);
      CanonicalKeepsPlain(x, a, n, c);
      CanonicalKeepsPlain(x, b, n, d);
    }
  }

  /** If elements with equal keys look the same, so does what is hashed, in every order. */
  lemma OrderIsNotHashed<A(!new)>(view: View<A>, x: Texts, a: Object, b: Object, semantic: bool)
    requires Lawful(view) && ManifestRearranged(a, b) && AlikeManifest(view, x, a)
    ensures view(Obj(DigestPayload(x, a, semantic))) == view(Obj(DigestPayload(x, b, semantic)))
  {
    OrderIsForgotten(view, x, a, b);
    PlainIsKept(x, a, b, Canonical(x, a), Canonical(x, b));
    PayloadsAgree(view, Canonical(x, a), Canonical(x, b), semantic);
  }

  /** If not, what is hashed looks different in some order. */
  lemma SomeOrderIsHashed<A(!new)>(view: View<A>, x: Texts, m: Object, semantic: bool) returns (b: Object)
    requires Lawful(view) && HasProfiles(m) && !AlikeManifest(view, x, m)
    requires view(Obj(DigestPayload(x, m, semantic))).Some?
    ensures ManifestRearranged(m, b)
    ensures view(Obj(DigestPayload(x, m, semantic))) != view(Obj(DigestPayload(x, b, semantic)))
  {
    PayloadSeen(view, Canonical(x, m), semantic);
    var place: Name;
    b, place := SomeOrderShows(view, x, m);
    PayloadDiffers(view, Canonical(x, m), Canonical(x, b), place, semantic);
  }

  // ---------------------------------------------------------------- one exchange

  ghost predicate SameExcept(c: Object, d: Object, name: Name) { c.Keys == d.Keys && forall n :: n in c && n != name ==> c[n] == d[n] }

  lemma FilledSameBut(o: Object, p: Object, defaults: seq<Name>, name: Name)
    requires name in o && name in p && SameExcept(o, p, name)
    ensures SameExcept(FillAll(o, defaults), FillAll(p, defaults), name)
  {
    FilledKeys(o, p, defaults);
    forall n | n in FillAll(o, defaults) && n != name ensures FillAll(o, defaults)[n] == FillAll(p, defaults)[n] {
      FilledAt(o, defaults, n);
      FilledAt(p, defaults, n);
    }
  }

  lemma SortedSameBut(x: Texts, f: Object, g: Object, name: Name)
    requires SameExcept(f, g, name)
    ensures SameExcept(SortContainer(x, FillContainer(f)), SortContainer(x, FillContainer(g)), name)
  {
  }

  lemma SeenSameBut<A>(view: View<A>, c: Object, d: Object, name: Name)
    requires SameExcept(c, d, name) && name in c && view(c[name]) == view(d[name])
    ensures SameSeen(view, c, d)
  {
  }

  lemma ListsAlikeSeen<A(!new)>(view: View<A>, v: Node, w: Node, xs: seq<Node>, ys: seq<Node>)
    requires Lawful(view) && v == List(xs) && w == List(ys) && Map(view, xs) == Map(view, ys)
    ensures view(v) == view(w)
  {
    assert ListsTell(view, xs, ys);
  }

  lemma ContainerAgreesAt<A(!new)>(view: View<A>, x: Texts, o: Object, p: Object, defaults: seq<Name>, name: Name,
                                   xs: seq<Node>, ys: seq<Node>, c: Object, d: Object)
    requires Lawful(view) && name in o && o[name] == List(xs) && Collection(name)
    requires name in p && p[name] == List(ys) && SameExcept(c, d, name)
    requires c == CanonicalContainer(x, o, defaults) && d == CanonicalContainer(x, p, defaults)
    requires Map(view, SortedItems(x, name, xs)) == Map(view, SortedItems(x, name, ys))
    ensures SameSeen(view, c, d)
  {
    CanonicalListAt(x, o, defaults, name, List(xs), xs, c);
    CanonicalListAt(x, p, defaults, name, List(ys), ys, d);
    ListsAlikeSeen(view, c[name], d[name], SortedItems(x, name, xs), SortedItems(x, name, ys));
    SeenSameBut(view, c, d, name);
  }

  lemma ContainersSameBut(x: Texts, o: Object, p: Object, defaults: seq<Name>, name: Name)
    requires name in o && name in p && SameExcept(o, p, name)
    ensures SameExcept(CanonicalContainer(x, o, defaults), CanonicalContainer(x, p, defaults), name)
  {
    FilledSameBut(o, p, defaults, name);
    SortedSameBut(x, FillAll(o, defaults), FillAll(p, defaults), name);
  }

  lemma ExchangeInList<A(!new)>(view: View<A>, x: Texts, name: Name, items: seq<Node>, i: nat, j: nat, ys: seq<Node>, key: Key,
                                g: View<A>)
    requires key == CollectionKey(x, name) && g == ItemView(view, x, name)
    requires i < j < |items| && key(items[i]) == key(items[j]) && ys == Exchanged(items, i, j)
    ensures Map(view, SortedItems(x, name, items)) != Map(view, SortedItems(x, name, ys)) <==> g(items[i]) != g(items[j])
    ensures ListVia(name, items, ys, items)
  {
    ExchangeShows(key, g, items, i, j);
    SortedItemsSeen(view, x, name, items);
    SortedItemsSeen(view, x, name, ys);
    ItemsRearrangedItself(name, items);
  }

  /** `b` is `m` with another list at `name`; `o` and `p` are the two without their profiles. */
  ghost predicate ListReplaced(m: Object, name: Name, xs: seq<Node>, ys: seq<Node>, b: Object, o: Object, p: Object) {
    && HasProfiles(m) && name in m && Collection(name) && m[name] == List(xs) && b == m[name := List(ys)]
    && HasProfiles(b) && b[Profiles] == m[Profiles] && o == m[Profiles := Null] && p == b[Profiles := Null]
    && name in o && o[name] == List(xs) && p == o[name := List(ys)]
  }

  lemma ListIsReplaced(m: Object, name: Name, xs: seq<Node>, ys: seq<Node>, b: Object)
    requires HasProfiles(m) && name in m && Collection(name) && m[name] == List(xs) && b == m[name := List(ys)]
    ensures HasProfiles(b) && ListReplaced(m, name, xs, ys, b, m[Profiles := Null], b[Profiles := Null])
  {
    assert b[Profiles := Null] == m[Profiles := Null][name := List(ys)];
  }

  lemma RootsAgree<A(!new)>(view: View<A>, x: Texts, name: Name, xs: seq<Node>, ys: seq<Node>, o: Object, p: Object,
                            defaults: seq<Name>, c: Object, d: Object)
    requires Lawful(view) && name in o && o[name] == List(xs) && Collection(name) && p == o[name := List(ys)]
    requires c == CanonicalContainer(x, o, defaults) && d == CanonicalContainer(x, p, defaults)
    requires Map(view, SortedItems(x, name, xs)) == Map(view, SortedItems(x, name, ys))
    ensures SameSeen(view, c, d)
  {
    UpdatedSameBut(o, p, name, List(ys));
    ContainersSameBut(x, o, p, defaults, name);
    ContainerAgreesAt(view, x, o, p, defaults, name, xs, ys, c, d);
  }

  lemma UpdatedSameBut(o: Object, p: Object, name: Name, v: Node)
    requires name in o && p == o[name := v]
    ensures name in p && p[name] == v && SameExcept(o, p, name)
  {
  }

  lemma RootExchangeAgrees<A(!new)>(view: View<A>, x: Texts, m: Object, name: Name, xs: seq<Node>, ys: seq<Node>, b: Object,
                                    o: Object, p: Object)
    requires Lawful(view) && ListReplaced(m, name, xs, ys, b, o, p)
    requires Map(view, SortedItems(x, name, xs)) == Map(view, SortedItems(x, name, ys))
    ensures SameSeen(view, Assembled(x, m), Assembled(x, b))
  {
    RootsAgree(view, x, name, xs, ys, o, p, ROOT_DEFAULTS, RootPart(x, m), RootPart(x, b));
    ProfilesAdded(view, RootPart(x, m), RootPart(x, b), Obj(ProfilesPart(x, m)), Obj(ProfilesPart(x, b)));
  }

  lemma RootExchangeDiffers<A(!new)>(view: View<A>, x: Texts, m: Object, name: Name, xs: seq<Node>, ys: seq<Node>, b: Object,
                                     o: Object, p: Object)
    requires Lawful(view) && ListReplaced(m, name, xs, ys, b, o, p)
    requires Map(view, SortedItems(x, name, xs)) != Map(view, SortedItems(x, name, ys))
    requires CollectionsSeen(view, RootPart(x, m))
    ensures DifferAt(view, Assembled(x, m), Assembled(x, b), name)
  {
    ShownCollectionShows(view, x, o, p, ROOT_DEFAULTS, name, xs, ys, RootPart(x, m), RootPart(x, b));
    DifferInRoot(view, RootPart(x, m), RootPart(x, b), Obj(ProfilesPart(x, m)), Obj(ProfilesPart(x, b)), name);
  }

  lemma RootExchangeRearranged(m: Object, name: Name, xs: seq<Node>, ys: seq<Node>, b: Object)
    requires HasProfiles(m) && name in m && Collection(name) && m[name] == List(xs) && b == m[name := List(ys)]
    requires ListVia(name, xs, ys, xs)
    ensures ManifestRearranged(m, b)
  {
    var o := m[Profiles := Null];
    ReplacedListRearranged(o, name, xs, ys, xs);
    assert b[Profiles := Null] == o[name := List(ys)];
    ProfilesRearrangedItself(m[Profiles].fields);
  }

  /** Two manifests in different orders, seen part by part. */
  lemma HashedAlike<A(!new)>(view: View<A>, x: Texts, a: Object, b: Object, semantic: bool)
    requires Lawful(view) && ManifestRearranged(a, b) && SameSeen(view, Assembled(x, a), Assembled(x, b))
    ensures view(Obj(DigestPayload(x, a, semantic))) == view(Obj(DigestPayload(x, b, semantic)))
  {
    CanonicalParts(x, a);
    CanonicalParts(x, b);
    PlainIsKept(x, a, b, Canonical(x, a), Canonical(x, b));
    PayloadsAgree(view, Canonical(x, a), Canonical(x, b), semantic);
  }

  lemma HashedApart<A(!new)>(view: View<A>, x: Texts, a: Object, b: Object, place: Name, semantic: bool)
    requires Lawful(view) && HasProfiles(a) && HasProfiles(b) && DifferAt(view, Assembled(x, a), Assembled(x, b), place)
    requires view(Obj(DigestPayload(x, a, semantic))).Some?
    ensures view(Obj(DigestPayload(x, a, semantic))) != view(Obj(DigestPayload(x, b, semantic)))
  {
    CanonicalParts(x, a);
    CanonicalParts(x, b);
    PayloadDiffers(view, Canonical(x, a), Canonical(x, b), place, semantic);
  }

  lemma HashedParts<A(!new)>(view: View<A>, x: Texts, m: Object, semantic: bool)
    requires Lawful(view) && HasProfiles(m) && view(Obj(DigestPayload(x, m, semantic))).Some?
    ensures CollectionsSeen(view, RootPart(x, m)) && view(Obj(ProfilesPart(x, m))).Some?
  {
    PayloadSeen(view, Canonical(x, m), semantic);
    CanonicalParts(x, m);
    AssembledSeen(view, x, m);
  }

  lemma ListInRootIsHashed<A(!new)>(view: View<A>, x: Texts, m: Object, name: Name, xs: seq<Node>, ys: seq<Node>, b: Object,
                                    semantic: bool)
    requires Lawful(view) && HasProfiles(m) && name in m && Collection(name) && m[name] == List(xs) && b == m[name := List(ys)]
    requires ListVia(name, xs, ys, xs) && view(Obj(DigestPayload(x, m, semantic))).Some?
    ensures view(Obj(DigestPayload(x, m, semantic))) != view(Obj(DigestPayload(x, b, semantic)))
       <==> Map(view, SortedItems(x, name, xs)) != Map(view, SortedItems(x, name, ys))
  {
    RootExchangeRearranged(m, name, xs, ys, b);
    ListIsReplaced(m, name, xs, ys, b);
    if Map(view, SortedItems(x, name, xs)) == Map(view, SortedItems(x, name, ys)) {
      RootExchangeAgrees(view, x, m, name, xs, ys, b, m[Profiles := Null], b[Profiles := Null]);
      HashedAlike(view, x, m, b, semantic);
    } else {
      HashedParts(view, x, m, semantic);
      RootExchangeDiffers(view, x, m, name, xs, ys, b, m[Profiles := Null], b[Profiles := Null]);
      HashedApart(view, x, m, b, name, semantic);
    }
  }

  /** Exchange two elements with equal keys in a collection of the manifest itself: what is hashed looks
      different exactly if their canonical forms do. */
  lemma ExchangeIsHashed<A(!new)>(view: View<A>, x: Texts, m: Object, name: Name, items: seq<Node>, i: nat, j: nat, ys: seq<Node>,
                                  b: Object, semantic: bool)
    requires Lawful(view) && HasProfiles(m) && view(Obj(DigestPayload(x, m, semantic))).Some?
    requires name in m && Collection(name) && m[name] == List(items) && i < j < |items|
    requires CollectionKey(x, name)(items[i]) == CollectionKey(x, name)(items[j])
    requires ys == Exchanged(items, i, j) && b == m[name := List(ys)]
    ensures view(Obj(DigestPayload(x, m, semantic))) != view(Obj(DigestPayload(x, b, semantic)))
       <==> ItemView(view, x, name)(items[i]) != ItemView(view, x, name)(items[j])
  {
    ExchangeInList(view, x, name, items, i, j, ys, CollectionKey(x, name), ItemView(view, x, name));
    ListInRootIsHashed(view, x, m, name, items, ys, b, semantic);
  }

  lemma ProfilesAgreeAt<A>(view: View<A>, x: Texts, o: Object, q: Object, p: Name, c: Object, d: Object)
    requires p in o && SameExcept(o, q, p) && c == CanonicalProfiles(x, o) && d == CanonicalProfiles(x, q)
    requires p in c ==> p in d && view(c[p]) == view(d[p])
    ensures SameSeen(view, c, d)
  {
    ProfilesSameBut(x, o, q, p);
    if p in c { SeenSameBut(view, c, d, p); }
  }

  lemma ProfilesSameBut(x: Texts, o: Object, q: Object, p: Name)
    requires SameExcept(o, q, p) && p in o
    ensures SameExcept(CanonicalProfiles(x, o), CanonicalProfiles(x, q), p)
    ensures p == Proto ==> CanonicalProfiles(x, o) == CanonicalProfiles(x, q)
  {
  }

  lemma ProfilePartsAgree<A(!new)>(view: View<A>, x: Texts, o: Object, q: Object, p: Name, was: Object, fields: Object,
                                   c: Object, d: Object)
    requires Lawful(view) && p in o && o[p] == Obj(was) && p in q && q[p] == Obj(fields) && SameExcept(o, q, p)
    requires c == CanonicalProfiles(x, o) && d == CanonicalProfiles(x, q)
    requires p != Proto ==> SameSeen(view, CanonicalContainer(x, was, PROFILE_DEFAULTS), CanonicalContainer(x, fields, PROFILE_DEFAULTS))
    ensures SameSeen(view, c, d)
  {
    if p != Proto {
      SameObjects(view, CanonicalContainer(x, was, PROFILE_DEFAULTS), CanonicalContainer(x, fields, PROFILE_DEFAULTS));
      ProfilesAt(x, o, p, was, c);
      ProfilesAt(x, q, p, fields, d);
    }
    ProfilesAgreeAt(view, x, o, q, p, c, d);
  }

  lemma ProfileIsReplaced(m: Object, p: Name, fields: Object, b: Object, o: Object, q: Object)
    requires HasProfiles(m) && o == m[Profiles].fields && p in o && b == WithProfile(m, p, fields) && q == o[p := Obj(fields)]
    ensures HasProfiles(b) && b[Profiles] == Obj(q) && b[Profiles := Null] == m[Profiles := Null] && SameExcept(o, q, p)
  {
  }

  lemma ProfileExchangeAgrees<A(!new)>(view: View<A>, x: Texts, m: Object, p: Name, was: Object, fields: Object, b: Object)
    requires Lawful(view) && HasProfiles(m) && p in m[Profiles].fields && m[Profiles].fields[p] == Obj(was)
    requires b == WithProfile(m, p, fields)
    requires p != Proto ==> SameSeen(view, CanonicalContainer(x, was, PROFILE_DEFAULTS), CanonicalContainer(x, fields, PROFILE_DEFAULTS))
    ensures HasProfiles(b) && SameSeen(view, Assembled(x, m), Assembled(x, b))
  {
    var o, q := m[Profiles].fields, m[Profiles].fields[p := Obj(fields)];
    ProfileIsReplaced(m, p, fields, b, o, q);
    ProfilePartsAgree(view, x, o, q, p, was, fields, ProfilesPart(x, m), ProfilesPart(x, b));
    SameObjects(view, ProfilesPart(x, m), ProfilesPart(x, b));
    ProfilesAdded(view, RootPart(x, m), RootPart(x, b), Obj(ProfilesPart(x, m)), Obj(ProfilesPart(x, b)));
  }

  lemma ProfileExchangeDiffers<A(!new)>(view: View<A>, x: Texts, m: Object, o: Object, p: Name, was: Object, fields: Object, b: Object,
                                        name: Name)
    requires Lawful(view) && HasProfiles(m) && o == m[Profiles].fields && p in o && p != Proto && o[p] == Obj(was)
    requires b == WithProfile(m, p, fields) && ContainerShown(view, x, was, fields, PROFILE_DEFAULTS, name)
    requires view(Obj(ProfilesPart(x, m))).Some?
    ensures HasProfiles(b) && DifferAt(view, Assembled(x, m), Assembled(x, b), Profiles)
  {
    ProfileDiffers(view, x, o, p, was, fields, ProfilesPart(x, m), ProfilesPart(x, b), name);
    DifferInProfiles(view, RootPart(x, m), RootPart(x, b), Obj(ProfilesPart(x, m)), Obj(ProfilesPart(x, b)));
  }

  lemma ShownListShows<A(!new)>(view: View<A>, x: Texts, was: Object, name: Name, xs: seq<Node>, ys: seq<Node>, fields: Object,
                                c: Object, d: Object)
    requires Lawful(view) && name in was && was[name] == List(xs) && Collection(name) && fields == was[name := List(ys)]
    requires c == CanonicalContainer(x, was, PROFILE_DEFAULTS) && d == CanonicalContainer(x, fields, PROFILE_DEFAULTS)
    requires ListVia(name, xs, ys, xs) && CollectionsSeen(view, c)
    requires Map(view, SortedItems(x, name, xs)) != Map(view, SortedItems(x, name, ys))
    ensures ContainerShown(view, x, was, fields, PROFILE_DEFAULTS, name)
  {
    ReplacedListRearranged(was, name, xs, ys, xs);
    ShownCollectionShows(view, x, was, fields, PROFILE_DEFAULTS, name, xs, ys, c, d);
  }

  lemma ListInProfileIsHashed<A(!new)>(view: View<A>, x: Texts, m: Object, o: Object, p: Name, was: Object, name: Name,
                                       xs: seq<Node>, ys: seq<Node>, fields: Object, b: Object, semantic: bool)
    requires Lawful(view) && HasProfiles(m) && o == m[Profiles].fields && p in o && p != Proto && o[p] == Obj(was)
    requires name in was && was[name] == List(xs) && Collection(name) && fields == was[name := List(ys)]
    requires b == WithProfile(m, p, fields) && ManifestRearranged(m, b)
    requires ListVia(name, xs, ys, xs) && view(Obj(DigestPayload(x, m, semantic))).Some?
    ensures view(Obj(DigestPayload(x, m, semantic))) != view(Obj(DigestPayload(x, b, semantic)))
       <==> Map(view, SortedItems(x, name, xs)) != Map(view, SortedItems(x, name, ys))
  {
    var c, d := CanonicalContainer(x, was, PROFILE_DEFAULTS), CanonicalContainer(x, fields, PROFILE_DEFAULTS);
    if Map(view, SortedItems(x, name, xs)) == Map(view, SortedItems(x, name, ys)) {
      RootsAgree(view, x, name, xs, ys, was, fields, PROFILE_DEFAULTS, c, d);
      ProfileExchangeAgrees(view, x, m, p, was, fields, b);
      HashedAlike(view, x, m, b, semantic);
    } else {
      HashedParts(view, x, m, semantic);
      ProfileCollectionsSeen(view, x, o, p, was, ProfilesPart(x, m));
      ShownListShows(view, x, was, name, xs, ys, fields, c, d);
      ProfileExchangeDiffers(view, x, m, o, p, was, fields, b, name);
      HashedApart(view, x, m, b, Profiles, semantic);
    }
  }

  lemma ProfileListRearranged(m: Object, p: Name, was: Object, name: Name, xs: seq<Node>, ys: seq<Node>, fields: Object)
    requires HasProfiles(m) && p in m[Profiles].fields && m[Profiles].fields[p] == Obj(was)
    requires name in was && was[name] == List(xs) && Collection(name) && fields == was[name := List(ys)]
    requires ListVia(name, xs, ys, xs)
    ensures ManifestRearranged(m, WithProfile(m, p, fields))
  {
    ReplacedListRearranged(was, name, xs, ys, xs);
    ProfileRearrangedAt(m, p, fields);
  }

  lemma ListInAnyProfile<A(!new)>(view: View<A>, x: Texts, m: Object, p: Name, was: Object, name: Name, xs: seq<Node>,
                                  ys: seq<Node>, fields: Object, b: Object, semantic: bool)
    requires Lawful(view) && HasProfiles(m) && p in m[Profiles].fields && m[Profiles].fields[p] == Obj(was)
    requires name in was && was[name] == List(xs) && Collection(name) && fields == was[name := List(ys)]
    requires b == WithProfile(m, p, fields)
    requires ListVia(name, xs, ys, xs) && view(Obj(DigestPayload(x, m, semantic))).Some?
    ensures view(Obj(DigestPayload(x, m, semantic))) != view(Obj(DigestPayload(x, b, semantic)))
       <==> p != Proto && Map(view, SortedItems(x, name, xs)) != Map(view, SortedItems(x, name, ys))
  {
    ProfileListRearranged(m, p, was, name, xs, ys, fields);
    if p == Proto {
      ProfileExchangeAgrees(view, x, m, p, was, fields, b);
      HashedAlike(view, x, m, b, semantic);
    } else {
      ListInProfileIsHashed(view, x, m, m[Profiles].fields, p, was, name, xs, ys, fields, b, semantic);
    }
  }

  /** The same in a profile; one called `__proto__` is never hashed. */
  lemma ProfileExchangeIsHashed<A(!new)>(view: View<A>, x: Texts, m: Object, p: Name, was: Object, name: Name, items: seq<Node>,
                                         i: nat, j: nat, ys: seq<Node>, fields: Object, b: Object, semantic: bool)
    requires Lawful(view) && HasProfiles(m) && view(Obj(DigestPayload(x, m, semantic))).Some?
    requires p in m[Profiles].fields && m[Profiles].fields[p] == Obj(was)
    requires name in was && Collection(name) && was[name] == List(items) && i < j < |items|
    requires CollectionKey(x, name)(items[i]) == CollectionKey(x, name)(items[j])
    requires ys == Exchanged(items, i, j) && fields == was[name := List(ys)] && b == WithProfile(m, p, fields)
    ensures view(Obj(DigestPayload(x, m, semantic))) != view(Obj(DigestPayload(x, b, semantic)))
       <==> p != Proto && ItemView(view, x, name)(items[i]) != ItemView(view, x, name)(items[j])
  {
    ExchangeInList(view, x, name, items, i, j, ys, CollectionKey(x, name), ItemView(view, x, name));
    ListInAnyProfile(view, x, m, p, was, name, items, ys, fields, b, semantic);
  }

  // ---------------------------------------------------------------- the canonical form itself

  /** Nothing is refused, and nothing but equal values looks the same. */
  function Whole(): View<Node> { n => Some(n) }

  lemma {:induction false} WholeLists(xs: seq<Node>, ys: seq<Node>)
    ensures Map(Whole(), xs) == Map(Whole(), ys) <==> xs == ys
    ensures None !in Map(Whole(), xs)
    decreases |xs|
  {
    if xs != [] && ys != [] {
      WholeLists(xs[1..], ys[1..]);
      assert Map(Whole(), xs)[0] == Some(xs[0]) && Map(Whole(), ys)[0] == Some(ys[0]);
      assert Map(Whole(), xs)[1..] == Map(Whole(), xs[1..]) && Map(Whole(), ys)[1..] == Map(Whole(), ys[1..]);
      assert xs == [xs[0]] + xs[1..] && ys == [ys[0]] + ys[1..];
    } else if xs != [] {
      WholeLists(xs[1..], xs[1..]);
    }
  }

  lemma WholeObjects(f: Object, g: Object)
    ensures SameSeen(Whole(), f, g) <==> f == g
  {
  }

  lemma WholeIsLawful()
    ensures Lawful(Whole())
  {
    forall xs: seq<Node>, ys: seq<Node> ensures ListsTell(Whole(), xs, ys) { WholeLists(xs, ys); }
    forall f: Object, g: Object ensures ObjectsTell(Whole(), f, g) { WholeObjects(f, g); }
  }

  /** The order of a manifest does not reach its canonical form exactly when, wherever elements are sorted,
      those with equal keys have equal canonical forms. */
  lemma OrderIsForgottenExactly(x: Texts, m: Object)
    requires HasProfiles(m)
    ensures (forall b :: ManifestRearranged(m, b) ==> Canonical(x, m) == Canonical(x, b)) <==> AlikeManifest(Whole(), x, m)
  {
    WholeIsLawful();
    if AlikeManifest(Whole(), x, m) {
      forall b | ManifestRearranged(m, b) ensures Canonical(x, m) == Canonical(x, b) {
        OrderIsForgotten(Whole(), x, m, b);
        WholeObjects(Canonical(x, m), Canonical(x, b));
      }
    } else {
      var b, place := SomeOrderShows(Whole(), x, m);
    }
  }

  /** If elements with equal keys have equal canonical forms, the order reaches no refreshed digest, whatever
      the hash. */
  lemma OrderChangesNoDigest(x: Texts, hash: Object -> Node, a: Object, b: Object, semantic: bool)
    requires ManifestRearranged(a, b) && AlikeManifest(Whole(), x, a)
    ensures DigestPayload(x, a, semantic) == DigestPayload(x, b, semantic) && Refresh(x, hash, a) == Refresh(x, hash, b)
  {
    WholeIsLawful();
    OrderIsForgotten(Whole(), x, a, b);
    WholeObjects(Canonical(x, a), Canonical(x, b));
    SameRefresh(x, hash, a, b);
  }

  lemma SameRefresh(x: Texts, hash: Object -> Node, a: Object, b: Object)
    requires Canonical(x, a) == Canonical(x, b)
    ensures Refresh(x, hash, a) == Refresh(x, hash, b)
  {
  }
}
