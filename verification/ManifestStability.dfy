/** The digests of a manifest are stable: refreshing them twice changes nothing, and neither do the order
    of collections and of nested selectors, nor, for the semantic digest, names and schema versions. */
module ManifestStability {

  import opened Options
  import opened StableSort
  import opened ManifestSelectors
  import opened ManifestDigests

  // ---------------------------------------------------------------- one collection

  lemma FillCollectionTwice(name: Name, v: Node)
    ensures FillCollection(name, FillCollection(name, v)) == FillCollection(name, v)
  {
    if v.List? {
      forall c | c in v.items ensures Filling(name)(Filling(name)(c)) == Filling(name)(c) { FillItemTwice(name, c); }
      MapTwice(Filling(name), Filling(name), Filling(name), v.items);
    }
  }

  function SortItems(x: Texts, name: Name, items: seq<Node>): seq<Node> {
    Map(SortingItem(x, name), SortBy(CollectionKey(x, name), items))
  }

  lemma SortItemsTwice(x: Texts, name: Name, items: seq<Node>)
    ensures SortItems(x, name, SortItems(x, name, items)) == SortItems(x, name, items)
  {
    var key, f := CollectionKey(x, name), SortingItem(x, name);
    var sorted := SortBy(key, items);
    CollectionKeysKept(x, name);
    SortCommutesWith(key, f, sorted);
    ByIsOrder(key);
    SortSorts(By(key), items);
    SortedStays(By(key), sorted);
    forall c | c in sorted ensures f(f(c)) == f(c) { SortItemTwice(x, name, c); }
    MapTwice(f, f, f, sorted);
  }

  lemma SortCollectionTwice(x: Texts, name: Name, v: Node)
    ensures SortCollection(x, name, SortCollection(x, name, v)) == SortCollection(x, name, v)
  {
    if v.List? { SortItemsTwice(x, name, v.items); }
  }

  /** Both passes over an element, sorting last. */
  function CanonicalItem(x: Texts, name: Name): Node -> Node { n => SortingItem(x, name)(Filling(name)(n)) }

  lemma ItemsCommuteWithSort(x: Texts, name: Name, items: seq<Node>)
    ensures SortItems(x, name, Map(Filling(name), items)) == Map(CanonicalItem(x, name), SortBy(CollectionKey(x, name), items))
    ensures Map(Filling(name), SortItems(x, name, items)) == Map(CanonicalItem(x, name), SortBy(CollectionKey(x, name), items))
  {
    var key, sorted := CollectionKey(x, name), SortBy(CollectionKey(x, name), items);
    CollectionKeysKept(x, name);
    SortCommutesWith(key, Filling(name), items);
    forall c | c in sorted ensures Filling(name)(SortingItem(x, name)(c)) == CanonicalItem(x, name)(c) { ItemsCommute(x, name, c); }
    MapTwice(Filling(name), SortingItem(x, name), CanonicalItem(x, name), sorted);
    MapTwice(SortingItem(x, name), Filling(name), CanonicalItem(x, name), sorted);
  }

  lemma SortCollectionIs(x: Texts, name: Name, items: seq<Node>)
    ensures SortCollection(x, name, List(items)) == if Collection(name) then List(SortItems(x, name, items)) else List(items)
  {
  }

  lemma FillCollectionIs(name: Name, items: seq<Node>)
    ensures FillCollection(name, List(items)) == List(Map(Filling(name), items))
  {
  }

  lemma ListsCommute(x: Texts, name: Name, items: seq<Node>)
    ensures FillCollection(name, SortCollection(x, name, List(items))) == SortCollection(x, name, FillCollection(name, List(items)))
  {
    FillCollectionIs(name, items);
    SortCollectionIs(x, name, items);
    SortCollectionIs(x, name, Map(Filling(name), items));
    FillCollectionIs(name, SortItems(x, name, items));
    ItemsCommuteWithSort(x, name, items);
  }

  lemma CollectionsCommute(x: Texts, name: Name, v: Node)
    ensures FillCollection(name, SortCollection(x, name, v)) == SortCollection(x, name, FillCollection(name, v))
  {
    if v.List? { ListsCommute(x, name, v.items); }
  }

  // ---------------------------------------------------------------- one container

  lemma ContainersCommute(x: Texts, o: Object)
    ensures FillContainer(SortContainer(x, o)) == SortContainer(x, FillContainer(o))
  {
    forall n | n in o
      ensures FillCollection(n, SortCollection(x, n, o[n])) == SortCollection(x, n, FillCollection(n, o[n]))
    {
      CollectionsCommute(x, n, o[n]);
    }
  }

  lemma FillContainerTwice(o: Object)
    ensures FillContainer(FillContainer(o)) == FillContainer(o)
  {
    forall n | n in o ensures FillCollection(n, FillCollection(n, o[n])) == FillCollection(n, o[n]) { FillCollectionTwice(n, o[n]); }
  }

  lemma SortContainerTwice(x: Texts, o: Object)
    ensures SortContainer(x, SortContainer(x, o)) == SortContainer(x, o)
  {
    forall n | n in o ensures SortCollection(x, n, SortCollection(x, n, o[n])) == SortCollection(x, n, o[n]) {
      SortCollectionTwice(x, n, o[n]);
    }
  }

  predicate Filled(o: Object, names: seq<Name>) {
    forall i :: 0 <= i < |names| ==> names[i] in o && o[names[i]] != Null
  }

  lemma {:induction false} FillAllKeeps(o: Object, names: seq<Name>)
    ensures forall n :: n in o && o[n] != Null ==> n in FillAll(o, names) && FillAll(o, names)[n] == o[n]
    ensures forall n :: n !in names ==> (n in FillAll(o, names) <==> n in o) && (n in o ==> FillAll(o, names)[n] == o[n])
    decreases |names|
  {
    if names != [] { FillAllKeeps(Fill(o, names[0], List([])), names[1..]); }
  }

  lemma {:induction false} FillAllFills(o: Object, names: seq<Name>)
    ensures Filled(FillAll(o, names), names)
    decreases |names|
  {
    if names != [] {
      var next := Fill(o, names[0], List([]));
      FillAllFills(next, names[1..]);
      FillAllKeeps(next, names[1..]);
      assert forall i :: 0 < i < |names| ==> names[i] == names[1..][i - 1];
    }
  }

  lemma {:induction false} FilledStays(o: Object, names: seq<Name>)
    requires Filled(o, names)
    ensures FillAll(o, names) == o
    decreases |names|
  {
    if names != [] {
      assert names[0] in o && o[names[0]] != Null;
      assert forall i :: 0 <= i < |names[1..]| ==> names[1..][i] == names[i + 1];
      FilledStays(o, names[1..]);
    }
  }

  lemma PassesKeepFilled(x: Texts, o: Object, names: seq<Name>)
    requires Filled(o, names)
    ensures Filled(FillContainer(o), names) && Filled(SortContainer(x, o), names)
  {
  }

  /** A container with its defaults, its elements filled in, and sorted. */
  function CanonicalContainer(x: Texts, o: Object, defaults: seq<Name>): Object {
    SortContainer(x, FillContainer(FillAll(o, defaults)))
  }

  /** Doing it all again changes nothing. */
  lemma CanonicalContainerStays(x: Texts, o: Object, defaults: seq<Name>)
    ensures var c := CanonicalContainer(x, o, defaults);
            FillAll(c, defaults) == c && FillContainer(c) == c && SortContainer(x, c) == c
  {
    var all := FillAll(o, defaults);
    var c := CanonicalContainer(x, o, defaults);
    FillAllFills(o, defaults);
    PassesKeepFilled(x, all, defaults);
    PassesKeepFilled(x, FillContainer(all), defaults);
    FilledStays(c, defaults);
    ContainersCommute(x, FillContainer(all));
    FillContainerTwice(all);
    SortContainerTwice(x, FillContainer(all));
  }

  // ---------------------------------------------------------------- the manifest

  lemma Untouched(x: Texts, o: Object, name: Name)
    requires !Collection(name)
    ensures name in o ==> SortContainer(x, o)[name] == o[name]
    ensures name in o && name != Roles && name != Constraints && name != RiskAcceptances ==> FillContainer(o)[name] == o[name]
  {
    if name in o && o[name].List? { MapIdentity(Filling(name), o[name].items); }
  }

  lemma {:induction false} MapIdentity(f: Node -> Node, s: seq<Node>)
    ensures (forall n :: n in s ==> f(n) == n) ==> Map(f, s) == s
  {
    if s != [] {
      MapIdentity(f, s[1..]);
      assert s == [s[0]] + s[1..];
    }
  }

  function CanonicalProfile(x: Texts, n: Node): Node {
    if n.Obj? then Obj(CanonicalContainer(x, n.fields, PROFILE_DEFAULTS)) else n
  }

  function CanonicalProfiles(x: Texts, o: Object): Object { map p | p in o && p != Proto :: CanonicalProfile(x, o[p]) }

  predicate HasProfiles(o: Object) { Profiles in o && o[Profiles].Obj? }

  lemma ProfilesSurvive(x: Texts, m: Object)
    ensures var root := CanonicalContainer(x, m, ROOT_DEFAULTS);
            && HasProfiles(root) == HasProfiles(m) && (HasProfiles(m) ==> root[Profiles] == m[Profiles])
    ensures var filled := FillContainer(FillAll(m, ROOT_DEFAULTS));
            && HasProfiles(filled) == HasProfiles(m) && (HasProfiles(m) ==> filled[Profiles] == m[Profiles])
  {
    var all := FillAll(m, ROOT_DEFAULTS);
    FillAllKeeps(m, ROOT_DEFAULTS);
    assert Profiles !in ROOT_DEFAULTS;
    Untouched(x, all, Profiles);
    Untouched(x, FillContainer(all), Profiles);
  }

  lemma SortBesideProfiles(x: Texts, o: Object, profiles: Object)
    ensures SortContainer(x, o[Profiles := Obj(profiles)]) == SortContainer(x, o)[Profiles := Obj(profiles)]
  {
  }

  lemma FillBesideProfiles(o: Object, profiles: Object)
    ensures FillContainer(o[Profiles := Obj(profiles)]) == FillContainer(o)[Profiles := Obj(profiles)]
  {
  }

  function FilledProfiles(o: Object): Object { map p | p in o :: FillProfile(o[p]) }
  function SortedProfiles(x: Texts, o: Object): Object { map p | p in o && p != Proto :: SortProfile(x, o[p]) }

  lemma ProfilesInTwoPasses(x: Texts, o: Object)
    ensures SortedProfiles(x, FilledProfiles(o)) == CanonicalProfiles(x, o)
  {
  }

  /** The canonical manifest, container by container. */
  lemma CanonicalByContainer(x: Texts, m: Object)
    ensures var root := CanonicalContainer(x, m, ROOT_DEFAULTS);
            Canonical(x, m) == if HasProfiles(m) then root[Profiles := Obj(CanonicalProfiles(x, m[Profiles].fields))] else root
  {
    var filled := FillContainer(FillAll(m, ROOT_DEFAULTS));
    ProfilesSurvive(x, m);
    if HasProfiles(m) {
      var profiles := FilledProfiles(m[Profiles].fields);
      assert Materialize(m) == filled[Profiles := Obj(profiles)];
      SortBesideProfiles(x, filled, profiles);
      ProfilesInTwoPasses(x, m[Profiles].fields);
    }
  }

  lemma CanonicalProfileStays(x: Texts, n: Node)
    ensures CanonicalProfile(x, CanonicalProfile(x, n)) == CanonicalProfile(x, n)
  {
    if n.Obj? { CanonicalContainerStays(x, n.fields, PROFILE_DEFAULTS); }
  }

  lemma CanonicalProfilesStay(x: Texts, o: Object)
    ensures CanonicalProfiles(x, CanonicalProfiles(x, o)) == CanonicalProfiles(x, o)
  {
    forall p | p in o ensures CanonicalProfile(x, CanonicalProfile(x, o[p])) == CanonicalProfile(x, o[p]) {
      CanonicalProfileStays(x, o[p]);
    }
  }

  lemma {:induction false} FillAllBesideProfiles(o: Object, names: seq<Name>, v: Node)
    requires Profiles !in names
    ensures FillAll(o[Profiles := v], names) == FillAll(o, names)[Profiles := v]
    decreases |names|
  {
    if names != [] {
      assert names[0] != Profiles;
      assert Fill(o[Profiles := v], names[0], List([])) == Fill(o, names[0], List([]))[Profiles := v];
      FillAllBesideProfiles(Fill(o, names[0], List([])), names[1..], v);
    }
  }

  lemma CanonicalBesideProfiles(x: Texts, o: Object, profiles: Object)
    ensures CanonicalContainer(x, o[Profiles := Obj(profiles)], ROOT_DEFAULTS)
         == CanonicalContainer(x, o, ROOT_DEFAULTS)[Profiles := Obj(profiles)]
  {
    assert Profiles !in ROOT_DEFAULTS;
    FillAllBesideProfiles(o, ROOT_DEFAULTS, Obj(profiles));
    FillBesideProfiles(FillAll(o, ROOT_DEFAULTS), profiles);
    SortBesideProfiles(x, FillContainer(FillAll(o, ROOT_DEFAULTS)), profiles);
  }

  /** The canonical form of a canonical manifest is itself. */
  lemma CanonicalStays(x: Texts, m: Object)
    ensures Canonical(x, Canonical(x, m)) == Canonical(x, m)
  {
    var root := CanonicalContainer(x, m, ROOT_DEFAULTS);
    CanonicalByContainer(x, m);
    CanonicalContainerStays(x, m, ROOT_DEFAULTS);
    ProfilesSurvive(x, m);
    if HasProfiles(m) {
      CanonicalWithProfiles(x, root, CanonicalProfiles(x, m[Profiles].fields));
      CanonicalProfilesStay(x, m[Profiles].fields);
    } else {
      CanonicalByContainer(x, root);
    }
  }

  lemma CanonicalWithProfiles(x: Texts, root: Object, profiles: Object)
    requires CanonicalContainer(x, root, ROOT_DEFAULTS) == root
    ensures Canonical(x, root[Profiles := Obj(profiles)]) == root[Profiles := Obj(CanonicalProfiles(x, profiles))]
  {
    var m := root[Profiles := Obj(profiles)];
    CanonicalByContainer(x, m);
    CanonicalBesideProfiles(x, root, profiles);
    ReplacedProfiles(root, Obj(profiles), Obj(CanonicalProfiles(x, profiles)));
  }

  lemma ReplacedProfiles(o: Object, v: Node, w: Node)
    ensures o[Profiles := v][Profiles := w] == o[Profiles := w]
  {
  }

  // ---------------------------------------------------------------- digests

  /** Properties of an object without some. */
  function Without(n: Node, names: set<Name>): Node { if n.Obj? then Obj(n.fields - names) else n }

  function Inside(o: Object, name: Name, names: set<Name>): Object {
    if name in o then o[name := Without(o[name], names)] else o
  }

  function PayloadOf(c: Object, semantic: bool): Object {
    var payload := Inside(c, Compatibility, {ArtifactDigest, SemanticDigest});
    if semantic then Inside(Inside(payload, Workload, {DisplayName}), Compatibility, {SchemaVersion}) else payload
  }

  /** `digestPayload`. */
  function DigestPayload(x: Texts, m: Object, semantic: bool): Object { PayloadOf(Canonical(x, m), semantic) }

  /** The new compatibility metadata. */
  function WithDigests(n: Node, artifact: Node, semantic: Node): Node {
    if n.Obj? then Obj(n.fields[ArtifactDigest := artifact][SemanticDigest := semantic]) else n
  }

  /** `refreshCanonicalManifestDigests`; `hash` stands for SHA-256 of the canonical text. */
  function Refresh(x: Texts, hash: Object -> Node, m: Object): Object {
    var c := Canonical(x, m);
    if Compatibility !in c then c
    else
      c[Compatibility := WithDigests(c[Compatibility], hash(DigestPayload(x, c, false)), hash(DigestPayload(x, c, true)))]
  }

  predicate Plain(name: Name) { name == Compatibility || name == Workload }

  lemma {:induction false} FillAllBesidePlain(o: Object, names: seq<Name>, name: Name, v: Node)
    requires name !in names
    ensures FillAll(o[name := v], names) == FillAll(o, names)[name := v]
    decreases |names|
  {
    if names != [] {
      assert names[0] != name;
      assert Fill(o[name := v], names[0], List([])) == Fill(o, names[0], List([]))[name := v];
      FillAllBesidePlain(Fill(o, names[0], List([])), names[1..], name, v);
    }
  }

  lemma PlainStays(x: Texts, name: Name, v: Node)
    requires Plain(name)
    ensures FillCollection(name, v) == v && SortCollection(x, name, v) == v
  {
    if v.List? { MapIdentity(Filling(name), v.items); }
  }

  lemma ContainerBesidePlain(x: Texts, o: Object, name: Name, v: Node)
    requires Plain(name)
    ensures FillContainer(o[name := v]) == FillContainer(o)[name := v]
    ensures SortContainer(x, o[name := v]) == SortContainer(x, o)[name := v]
  {
    PlainStays(x, name, v);
  }

  lemma RootBesidePlain(x: Texts, o: Object, name: Name, v: Node)
    requires Plain(name)
    ensures CanonicalContainer(x, o[name := v], ROOT_DEFAULTS) == CanonicalContainer(x, o, ROOT_DEFAULTS)[name := v]
  {
    FillAllBesidePlain(o, ROOT_DEFAULTS, name, v);
    ContainerBesidePlain(x, FillAll(o, ROOT_DEFAULTS), name, v);
    ContainerBesidePlain(x, FillContainer(FillAll(o, ROOT_DEFAULTS)), name, v);
  }

  lemma UpdatesCommute(o: Object, a: Name, v: Node, b: Name, w: Node)
    requires a != b
    ensures o[a := v][b := w] == o[b := w][a := v]
  {
  }

  /** The canonical manifest, from its root container and its profiles. */
  function Assemble(root: Object, profiles: Option<Object>): Object {
    if profiles.Some? then root[Profiles := Obj(profiles.value)] else root
  }

  function ProfilesOf(x: Texts, m: Object): Option<Object> {
    if HasProfiles(m) then Some(CanonicalProfiles(x, m[Profiles].fields)) else None
  }

  lemma CanonicalAssembled(x: Texts, m: Object, root: Object, profiles: Option<Object>)
    requires root == CanonicalContainer(x, m, ROOT_DEFAULTS) && profiles == ProfilesOf(x, m)
    ensures Canonical(x, m) == Assemble(root, profiles)
  {
    CanonicalByContainer(x, m);
  }

  lemma SameProfiles(x: Texts, m: Object, name: Name, v: Node)
    requires Plain(name)
    ensures ProfilesOf(x, m[name := v]) == ProfilesOf(x, m)
  {
  }

  lemma AssembleBesidePlain(root: Object, profiles: Option<Object>, name: Name, v: Node)
    requires Plain(name)
    ensures Assemble(root[name := v], profiles) == Assemble(root, profiles)[name := v]
  {
    if profiles.Some? { UpdatesCommute(root, name, v, Profiles, Obj(profiles.value)); }
  }

  /** Workload and compatibility metadata pass through unchanged. */
  lemma CanonicalBesidePlain(x: Texts, m: Object, name: Name, v: Node)
    requires Plain(name)
    ensures Canonical(x, m[name := v]) == Canonical(x, m)[name := v]
  {
    var root, profiles := CanonicalContainer(x, m, ROOT_DEFAULTS), ProfilesOf(x, m);
    CanonicalAssembled(x, m, root, profiles);
    RootBesidePlain(x, m, name, v);
    SameProfiles(x, m, name, v);
    CanonicalAssembled(x, m[name := v], root[name := v], profiles);
    AssembleBesidePlain(root, profiles, name, v);
  }

  lemma DigestsDoNotCount(n: Node, a: Node, b: Node)
    ensures Without(WithDigests(n, a, b), {ArtifactDigest, SemanticDigest}) == Without(n, {ArtifactDigest, SemanticDigest})
  {
  }

  lemma PayloadIgnoresDigests(c: Object, w: Node, a: Node, b: Node, semantic: bool)
    requires Compatibility in c && w == WithDigests(c[Compatibility], a, b)
    ensures PayloadOf(c[Compatibility := w], semantic) == PayloadOf(c, semantic)
  {
    DigestsDoNotCount(c[Compatibility], a, b);
    var kept := Without(c[Compatibility], {ArtifactDigest, SemanticDigest});
    assert c[Compatibility := w][Compatibility := kept] == c[Compatibility := kept];
  }

  /** The refreshed form of what is canonical already. */
  function Stamped(hash: Object -> Node, c: Object): Object {
    if Compatibility !in c then c
    else c[Compatibility := WithDigests(c[Compatibility], hash(PayloadOf(c, false)), hash(PayloadOf(c, true)))]
  }

  lemma RefreshIsStamping(x: Texts, hash: Object -> Node, m: Object, c: Object)
    requires c == Canonical(x, m) && Canonical(x, c) == c
    ensures Refresh(x, hash, m) == Stamped(hash, c)
  {
  }

  lemma StampedStays(hash: Object -> Node, c: Object)
    ensures Stamped(hash, Stamped(hash, c)) == Stamped(hash, c)
  {
    if Compatibility in c {
      var a, b := hash(PayloadOf(c, false)), hash(PayloadOf(c, true));
      var w := WithDigests(c[Compatibility], a, b);
      PayloadIgnoresDigests(c, w, a, b, false);
      PayloadIgnoresDigests(c, w, a, b, true);
      StampTwice(c, w, a, b);
    }
  }

  lemma StampTwice(c: Object, w: Node, a: Node, b: Node)
    requires Compatibility in c && w == WithDigests(c[Compatibility], a, b)
    ensures WithDigests(w, a, b) == w && c[Compatibility := w][Compatibility := w] == c[Compatibility := w]
  {
  }

  lemma StampedIsCanonical(x: Texts, hash: Object -> Node, c: Object)
    requires Canonical(x, c) == c
    ensures Canonical(x, Stamped(hash, c)) == Stamped(hash, c)
  {
    if Compatibility in c {
      CanonicalBesidePlain(x, c, Compatibility,
                           WithDigests(c[Compatibility], hash(PayloadOf(c, false)), hash(PayloadOf(c, true))));
    }
  }

  /** Refreshing the digests twice is refreshing them once. */
  lemma RefreshIsIdempotent(x: Texts, hash: Object -> Node, m: Object)
    ensures Refresh(x, hash, Refresh(x, hash, m)) == Refresh(x, hash, m)
  {
    var c := Canonical(x, m);
    var r := Stamped(hash, c);
    CanonicalStays(x, m);
    RefreshIsStamping(x, hash, m, c);
    StampedIsCanonical(x, hash, c);
    RefreshIsStamping(x, hash, r, r);
    StampedStays(hash, c);
  }

  // ---------------------------------------------------------------- what the semantic digest ignores

  predicate SameBut(a: Node, b: Node, names: set<Name>) {
    a == b || (a.Obj? && b.Obj? && a.fields - names == b.fields - names)
  }

  lemma CanonicalKeepsPlain(x: Texts, m: Object, name: Name, c: Object)
    requires Plain(name) && name in m && c == Canonical(x, m)
    ensures name in c && c[name] == m[name]
  {
    CanonicalBesidePlain(x, m, name, m[name]);
    assert m[name := m[name]] == m;
  }

  /** Neither the display name of the workload nor the schema version reaches the semantic digest. */
  lemma SemanticDigestIgnores(x: Texts, m: Object, workload: Node, compatibility: Node)
    requires Workload in m && Compatibility in m
    requires SameBut(workload, m[Workload], {DisplayName}) && SameBut(compatibility, m[Compatibility], {SchemaVersion})
    ensures DigestPayload(x, m[Workload := workload][Compatibility := compatibility], true) == DigestPayload(x, m, true)
  {
    var c := Canonical(x, m);
    CanonicalBesidePlain(x, m, Workload, workload);
    CanonicalBesidePlain(x, m[Workload := workload], Compatibility, compatibility);
    CanonicalKeepsPlain(x, m, Workload, c);
    CanonicalKeepsPlain(x, m, Compatibility, c);
    SemanticPayloadIgnores(c, workload, compatibility);
  }

  lemma SemanticPayloadIgnores(c: Object, workload: Node, compatibility: Node)
    requires Workload in c && Compatibility in c
    requires SameBut(workload, c[Workload], {DisplayName}) && SameBut(compatibility, c[Compatibility], {SchemaVersion})
    ensures PayloadOf(c[Workload := workload][Compatibility := compatibility], true) == PayloadOf(c, true)
  {
    var d := c[Workload := workload][Compatibility := compatibility];
    StrippedAlike(compatibility, c[Compatibility]);
    SemanticParts(c);
    SemanticParts(d);
    Overwritten(c, workload, compatibility, Without(workload, {DisplayName}),
                Without(Without(compatibility, {ArtifactDigest, SemanticDigest}), {SchemaVersion}));
  }

  lemma Overwritten(c: Object, w: Node, v: Node, w2: Node, v2: Node)
    ensures c[Workload := w][Compatibility := v][Workload := w2][Compatibility := v2] == c[Workload := w2][Compatibility := v2]
  {
  }

  lemma StrippedAlike(a: Node, b: Node)
    requires SameBut(a, b, {SchemaVersion})
    ensures Without(Without(a, {ArtifactDigest, SemanticDigest}), {SchemaVersion})
         == Without(Without(b, {ArtifactDigest, SemanticDigest}), {SchemaVersion})
  {
    if a.Obj? && b.Obj? {
      assert a.fields - {ArtifactDigest, SemanticDigest} - {SchemaVersion} == a.fields - {SchemaVersion} - {ArtifactDigest, SemanticDigest};
      assert b.fields - {ArtifactDigest, SemanticDigest} - {SchemaVersion} == b.fields - {SchemaVersion} - {ArtifactDigest, SemanticDigest};
    }
  }

  lemma SemanticParts(c: Object)
    requires Workload in c && Compatibility in c
    ensures PayloadOf(c, true) == c[Workload := Without(c[Workload], {DisplayName})]
                                   [Compatibility := Without(Without(c[Compatibility], {ArtifactDigest, SemanticDigest}), {SchemaVersion})]
  {
  }
}
