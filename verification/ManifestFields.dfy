/** What a canonical manifest says, place by place: which fields are filled in and with what, and in which
    order each of its lists stands. */
module ManifestFields {

  import opened Options
  import opened StableSort
  import opened ManifestSelectors
  import opened ManifestDigests
  import opened ManifestStability

  // ---------------------------------------------------------------- fields that are filled in

  predicate Given(o: Object, field: Name) { field in o && o[field] != Null }

  /** One field before and after filling in, when it has this default or none. */
  predicate FilledIn(o: Object, filled: Object, field: Name, default: Option<Node>) {
    if default.Some? && !Given(o, field) then field in filled && filled[field] == default.value
    else (field in filled <==> field in o) && (field in o ==> filled[field] == o[field])
  }

  /** A role is approved, a constraint not protected, and an accepted risk has no links, unless it says so. */
  function ElementDefault(collection: Name, field: Name): Option<Node> {
    if collection == Roles && field == Status then Some(Known(Approved))
    else if collection == Constraints && field == Protected then Some(Flag(false))
    else if collection == RiskAcceptances && (field == LinkedControlRefs || field == AcceptedResourceBindings) then Some(List([]))
    else None
  }

  /** A selector of resource types names no locations or groups, one of a scale set no instances. */
  function SelectorDefault(o: Object, field: Name): Option<Node> {
    if SelectorType !in o then None
    else if o[SelectorType] == Known(ResourceType) && (field == Locations || field == ResourceGroups) then Some(List([]))
    else if o[SelectorType] == Known(VmScaleSet) && field == InstanceIds then Some(List([]))
    else None
  }

  predicate InRoot(field: Name) {
    field == Relationships || field == Constraints || field == Controls || field == RiskAcceptances || field == Objectives
  }

  predicate InProfile(field: Name) {
    InRoot(field) || field == Roles || field == Ownership || field == WeakeningOverrides || field == DisabledRefs
  }

  function ListDefault(defaulted: bool): Option<Node> { if defaulted then Some(List([])) else None }

  lemma RoleFilled(x: Texts, o: Object, filled: Object, field: Name)
    requires FillRole(Obj(o)) == Obj(filled) && field != Selectors
    ensures SortRole(x, Obj(filled)).Obj?
    ensures FilledIn(o, SortRole(x, Obj(filled)).fields, field, if field == Status then Some(Known(Approved)) else None)
  {
  }

  lemma ConstraintFilled(o: Object, field: Name)
    ensures FillConstraint(Obj(o)).Obj?
    ensures FilledIn(o, FillConstraint(Obj(o)).fields, field, if field == Protected then Some(Flag(false)) else None)
  {
  }

  lemma RiskFilled(o: Object, field: Name)
    ensures FillRisk(Obj(o)).Obj?
    ensures FilledIn(o, FillRisk(Obj(o)).fields, field,
                     if field == LinkedControlRefs || field == AcceptedResourceBindings then Some(List([])) else None)
  {
  }

  lemma FillingIs(collection: Name, n: Node)
    ensures Filling(collection)(n)
         == if collection == Roles then FillRole(n) else if collection == Constraints then FillConstraint(n)
            else if collection == RiskAcceptances then FillRisk(n) else n
  {
  }

  lemma SortingIs(x: Texts, collection: Name, n: Node)
    ensures SortingItem(x, collection)(n) == if collection == Roles then SortRole(x, n) else n
  {
  }

  lemma ItemIs(x: Texts, collection: Name, n: Node)
    ensures collection == Roles ==> CanonicalItem(x, collection)(n) == SortRole(x, FillRole(n))
    ensures collection == Constraints ==> CanonicalItem(x, collection)(n) == FillConstraint(n)
    ensures collection == RiskAcceptances ==> CanonicalItem(x, collection)(n) == FillRisk(n)
    ensures collection != Roles && collection != Constraints && collection != RiskAcceptances ==>
              CanonicalItem(x, collection)(n) == n
  {
    var filled := Filling(collection)(n);
    FillingIs(collection, n);
    SortingIs(x, collection, filled);
    assert CanonicalItem(x, collection)(n) == SortingItem(x, collection)(filled);
  }

  /** Of an element, all but the selectors of a role. */
  lemma ElementExactly(x: Texts, collection: Name, o: Object, field: Name)
    requires !(collection == Roles && field == Selectors)
    ensures CanonicalItem(x, collection)(Obj(o)).Obj?
    ensures FilledIn(o, CanonicalItem(x, collection)(Obj(o)).fields, field, ElementDefault(collection, field))
  {
    ItemIs(x, collection, Obj(o));
    if collection == Roles { RoleFilled(x, o, FillRole(Obj(o)).fields, field); }
    if collection == Constraints { ConstraintFilled(o, field); }
    if collection == RiskAcceptances { RiskFilled(o, field); }
  }

  lemma SelectorFilled(o: Object, field: Name)
    ensures FilledIn(o, FillSelector(o), field, SelectorDefault(o, field))
  {
  }

  lemma MaterializedBeside(n: Node, field: Name)
    requires n.Obj? && field != Children
    ensures MaterializeSelector(n).Obj?
    ensures (field in MaterializeSelector(n).fields <==> field in FillSelector(n.fields))
            && (field in FillSelector(n.fields) ==> MaterializeSelector(n).fields[field] == FillSelector(n.fields)[field])
  {
  }

  lemma SortedBeside(x: Texts, n: Node, field: Name)
    requires n.Obj? && field != Children
    ensures SortSelector(x, n).Obj?
    ensures (field in SortSelector(x, n).fields <==> field in n.fields)
            && (field in n.fields ==> SortSelector(x, n).fields[field] == n.fields[field])
  {
  }

  /** Of a selector, all but its children. */
  lemma SelectorExactly(x: Texts, o: Object, field: Name)
    requires field != Children
    ensures Canonizing(x)(Obj(o)).Obj?
    ensures FilledIn(o, Canonizing(x)(Obj(o)).fields, field, SelectorDefault(o, field))
  {
    SelectorFilled(o, field);
    MaterializedBeside(Obj(o), field);
    SortedBeside(x, MaterializeSelector(Obj(o)), field);
  }

  // ---------------------------------------------------------------- the order of a list

  /** A missing or null field counts as empty text. */
  function TextOf(x: Texts, n: Node, field: Name): seq<int> {
    if !n.Obj? then [] else CodePoints(x.fold(x.spell(if Given(n.fields, field) then n.fields[field] else Str([]))))
  }

  /** At the first of these fields in which the two differ, the earlier has the smaller text. */
  ghost predicate NotAfter(x: Texts, fields: seq<Name>, a: Node, b: Node) {
    SameTexts(x, fields, a, b) || exists k :: DecidedAt(x, fields, a, b, k)
  }

  ghost predicate DecidedAt(x: Texts, fields: seq<Name>, a: Node, b: Node, k: int) {
    && 0 <= k < |fields| && Precedes(TextOf(x, a, fields[k]), TextOf(x, b, fields[k]))
    && forall l :: 0 <= l < k ==> TextOf(x, a, fields[l]) == TextOf(x, b, fields[l])
  }

  ghost predicate AscendsBy(x: Texts, fields: seq<Name>, items: seq<Node>) {
    forall i, j :: 0 <= i < j < |items| ==> NotAfter(x, fields, items[i], items[j])
  }

  lemma PrecedesIsStrict(a: seq<int>, b: seq<int>)
    ensures Precedes(a, b) ==> a != b
  {
  }

  ghost predicate SameTexts(x: Texts, fields: seq<Name>, a: Node, b: Node) {
    forall k :: 0 <= k < |fields| ==> TextOf(x, a, fields[k]) == TextOf(x, b, fields[k])
  }

  lemma SameLater(x: Texts, fields: seq<Name>, a: Node, b: Node)
    requires fields != [] && TextOf(x, a, fields[0]) == TextOf(x, b, fields[0])
    ensures SameTexts(x, fields, a, b) <==> SameTexts(x, fields[1..], a, b)
  {
    if SameTexts(x, fields[1..], a, b) {
      forall k | 0 <= k < |fields| ensures TextOf(x, a, fields[k]) == TextOf(x, b, fields[k]) {
        if k > 0 { assert fields[k] == fields[1..][k - 1]; }
      }
    }
  }

  lemma DecidedAtLater(x: Texts, fields: seq<Name>, a: Node, b: Node, k: nat)
    requires fields != [] && TextOf(x, a, fields[0]) == TextOf(x, b, fields[0])
    ensures DecidedAt(x, fields, a, b, k + 1) <==> DecidedAt(x, fields[1..], a, b, k)
  {
    var rest := fields[1..];
    if DecidedAt(x, rest, a, b, k) {
      forall l | 0 <= l < k + 1 ensures TextOf(x, a, fields[l]) == TextOf(x, b, fields[l]) {
        if l > 0 { assert fields[l] == rest[l - 1]; }
      }
    }
    if DecidedAt(x, fields, a, b, k + 1) {
      forall l | 0 <= l < k ensures TextOf(x, a, rest[l]) == TextOf(x, b, rest[l]) { assert rest[l] == fields[l + 1]; }
    }
  }

  lemma DecidedLater(x: Texts, fields: seq<Name>, a: Node, b: Node)
    requires fields != [] && TextOf(x, a, fields[0]) == TextOf(x, b, fields[0])
    ensures NotAfter(x, fields, a, b) <==> NotAfter(x, fields[1..], a, b)
  {
    SameLater(x, fields, a, b);
    PrecedesIsStrict(TextOf(x, a, fields[0]), TextOf(x, b, fields[0]));
    if k :| DecidedAt(x, fields, a, b, k) { DecidedAtLater(x, fields, a, b, k - 1); }
    if k :| DecidedAt(x, fields[1..], a, b, k) { DecidedAtLater(x, fields, a, b, k); }
  }

  lemma {:induction false} KeysCompareExactly(x: Texts, fields: seq<Name>, a: Node, b: Node)
    ensures KeysLeq(KeysOf(x, fields, a), KeysOf(x, fields, b)) <==> NotAfter(x, fields, a, b)
  {
    if fields != [] {
      var s, t := TextOf(x, a, fields[0]), TextOf(x, b, fields[0]);
      assert KeysOf(x, fields, a)[0] == s && KeysOf(x, fields, b)[0] == t;
      LexLeqExactly(s, t);
      PrecedesIsStrict(s, t);
      KeysCompareExactly(x, fields[1..], a, b);
      if s == t {
        DecidedLater(x, fields, a, b);
      } else {
        if Precedes(s, t) { assert DecidedAt(x, fields, a, b, 0); }
        forall k | DecidedAt(x, fields, a, b, k) ensures k == 0 { }
      }
    }
  }

  /** Sorting by fields rearranges a list so that it ascends by them. */
  lemma SortByAscends(x: Texts, fields: seq<Name>, items: seq<Node>)
    ensures multiset(SortBy(KeyBy(x, fields), items)) == multiset(items)
    ensures AscendsBy(x, fields, SortBy(KeyBy(x, fields), items))
  {
    var key := KeyBy(x, fields);
    var sorted := SortBy(key, items);
    ByIsOrder(key);
    SortSorts(By(key), items);
    forall i, j | 0 <= i < j < |sorted| ensures NotAfter(x, fields, sorted[i], sorted[j]) {
      assert By(key)(sorted[i], sorted[j]);
      KeysCompareExactly(x, fields, sorted[i], sorted[j]);
    }
  }

  // ---------------------------------------------------------------- lists of a container

  /** Which fields a collection is listed by. */
  function IdFields(collection: Name): seq<Name> {
    if collection == Roles then [RoleId]
    else if collection == Constraints then [ConstraintId]
    else if collection == Controls then [ControlId]
    else if collection == RiskAcceptances then [RiskAcceptanceId]
    else if collection == Objectives then [ObjectiveId]
    else if collection == Ownership then [OwnerRef]
    else if collection == WeakeningOverrides then [OverrideId]
    else if collection == DisabledRefs then [TargetKind, TargetRef]
    else []
  }

  lemma KeyFieldsAre(collection: Name)
    ensures KeyFields(collection) == IdFields(collection)
  {
  }

  /** A relationship without an identifier of its own goes by that of its exception. */
  function RelationText(x: Texts, n: Node): seq<int> {
    if n.Obj? && Given(n.fields, RelationshipId) then TextOf(x, n, RelationshipId) else TextOf(x, n, ExceptionId)
  }

  predicate Listed(collection: Name) { collection == Relationships || IdFields(collection) != [] }

  ghost predicate InOrder(x: Texts, collection: Name, items: seq<Node>) {
    if collection == Relationships then
      forall i, j :: 0 <= i < j < |items| ==>
        RelationText(x, items[i]) == RelationText(x, items[j]) || Precedes(RelationText(x, items[i]), RelationText(x, items[j]))
    else AscendsBy(x, IdFields(collection), items)
  }

  lemma RelationsCompare(x: Texts, a: Node, b: Node)
    requires KeysLeq(RelationshipKey(x)(a), RelationshipKey(x)(b))
    ensures RelationText(x, a) == RelationText(x, b) || Precedes(RelationText(x, a), RelationText(x, b))
  {
    LexLeqExactly(RelationText(x, a), RelationText(x, b));
    if a.Obj? && b.Obj? {
      assert RelationshipKey(x)(a)[0] == RelationText(x, a) && RelationshipKey(x)(b)[0] == RelationText(x, b);
    }
  }

  lemma SortedInOrder(x: Texts, collection: Name, items: seq<Node>)
    requires Listed(collection)
    ensures multiset(SortBy(CollectionKey(x, collection), items)) == multiset(items)
    ensures InOrder(x, collection, SortBy(CollectionKey(x, collection), items))
  {
    KeyFieldsAre(collection);
    if collection == Relationships {
      var key := RelationshipKey(x);
      var sorted := SortBy(key, items);
      ByIsOrder(key);
      SortSorts(By(key), items);
      forall i, j | 0 <= i < j < |sorted|
        ensures RelationText(x, sorted[i]) == RelationText(x, sorted[j])
                || Precedes(RelationText(x, sorted[i]), RelationText(x, sorted[j]))
      {
        assert By(key)(sorted[i], sorted[j]);
        RelationsCompare(x, sorted[i], sorted[j]);
      }
    } else {
      SortByAscends(x, IdFields(collection), items);
    }
  }

  /** The list holds the canonical form of each of these elements, and stands in order. */
  ghost predicate Arranged(x: Texts, collection: Name, items: seq<Node>, arranged: seq<Node>) {
    multiset(arranged) == multiset(Map(CanonicalItem(x, collection), items)) && InOrder(x, collection, arranged)
  }

  lemma ListArranged(x: Texts, collection: Name, items: seq<Node>)
    requires Listed(collection)
    ensures SortCollection(x, collection, FillCollection(collection, List(items))).List?
    ensures Arranged(x, collection, items, SortCollection(x, collection, FillCollection(collection, List(items))).items)
  {
    var filled := Map(Filling(collection), items);
    var key, f := CollectionKey(x, collection), SortingItem(x, collection);
    KeyFieldsAre(collection);
    FillCollectionIs(collection, items);
    SortCollectionIs(x, collection, filled);
    CollectionKeysKept(x, collection);
    SortCommutesWith(key, f, filled);
    assert Map(f, SortBy(key, filled)) == SortBy(key, Map(f, filled));
    SortedInOrder(x, collection, Map(f, filled));
    MapTwice(Filling(collection), f, CanonicalItem(x, collection), items);
  }

  lemma UnlistedStays(x: Texts, field: Name, v: Node)
    requires !v.List? || !Listed(field)
    ensures SortCollection(x, field, FillCollection(field, v)) == v
  {
    KeyFieldsAre(field);
    if v.List? {
      forall n | n in v.items ensures Filling(field)(n) == n { FillingIs(field, n); }
      MapIdentity(Filling(field), v.items);
    }
  }

  // ---------------------------------------------------------------- the whole manifest

  /** What a field of a container becomes: a listed collection is arranged, a missing list is empty if the
      container defaults it, and everything else stays. */
  ghost predicate Becomes(x: Texts, o: Object, canonical: Object, field: Name, defaulted: bool) {
    if Given(o, field) && o[field].List? && Listed(field) then
      && field in canonical && canonical[field].List?
      && Arranged(x, field, o[field].items, canonical[field].items)
    else FilledIn(o, canonical, field, ListDefault(defaulted))
  }

  lemma EmptyStays(x: Texts, field: Name)
    ensures SortCollection(x, field, FillCollection(field, List([]))) == List([])
  {
    FillCollectionIs(field, []);
    SortCollectionIs(x, field, []);
  }

  lemma DefaultsGiven(o: Object, defaults: seq<Name>, field: Name)
    ensures FilledIn(o, FillAll(o, defaults), field, ListDefault(field in defaults))
  {
    FillAllKeeps(o, defaults);
    if field in defaults && !Given(o, field) { FillAllGives(o, defaults, field); }
  }

  lemma FieldOfContainer(x: Texts, o: Object, defaults: seq<Name>, field: Name, all: Object)
    requires all == FillAll(o, defaults)
    ensures field in CanonicalContainer(x, o, defaults) <==> field in all
    ensures field in all ==>
              CanonicalContainer(x, o, defaults)[field] == SortCollection(x, field, FillCollection(field, all[field]))
  {
  }

  lemma ContainerBecomes(x: Texts, o: Object, defaults: seq<Name>, field: Name)
    ensures Becomes(x, o, CanonicalContainer(x, o, defaults), field, field in defaults)
  {
    var all := FillAll(o, defaults);
    DefaultsGiven(o, defaults, field);
    FieldOfContainer(x, o, defaults, field, all);
    if field in all { FieldBecomes(x, o, all, CanonicalContainer(x, o, defaults), field, field in defaults); }
  }

  lemma FieldBecomes(x: Texts, o: Object, all: Object, c: Object, field: Name, defaulted: bool)
    requires FilledIn(o, all, field, ListDefault(defaulted)) && field in all && field in c
    requires c[field] == SortCollection(x, field, FillCollection(field, all[field]))
    ensures Becomes(x, o, c, field, defaulted)
  {
    if Given(o, field) && o[field].List? && Listed(field) {
      ListArranged(x, field, o[field].items);
    } else if Given(o, field) || !defaulted {
      UnlistedStays(x, field, o[field]);
    } else {
      EmptyStays(x, field);
    }
  }

  lemma {:induction false} FillAllGives(o: Object, names: seq<Name>, field: Name)
    requires field in names && !Given(o, field)
    ensures field in FillAll(o, names) && FillAll(o, names)[field] == List([])
    decreases |names|
  {
    var next := Fill(o, names[0], List([]));
    FillAllKeeps(next, names[1..]);
    if names[0] != field { FillAllGives(next, names[1..], field); }
  }

  lemma DefaultsAre(field: Name)
    ensures field in ROOT_DEFAULTS <==> InRoot(field)
    ensures field in PROFILE_DEFAULTS <==> InProfile(field)
  {
  }

  /** The canonical manifest, field by field. */
  lemma RootExactly(x: Texts, m: Object, field: Name)
    requires field != Profiles
    ensures Becomes(x, m, Canonical(x, m), field, InRoot(field))
  {
    CanonicalByContainer(x, m);
    ContainerBecomes(x, m, ROOT_DEFAULTS, field);
    DefaultsAre(field);
  }

  /** Its profiles: all but one called `__proto__`, field by field. */
  lemma ProfilesExactly(x: Texts, m: Object, p: Name, field: Name)
    requires HasProfiles(m)
    ensures HasProfiles(Canonical(x, m))
    ensures var profiles := Canonical(x, m)[Profiles].fields;
            && (p in profiles <==> p in m[Profiles].fields && p != Proto)
            && (p in profiles ==>
                  if m[Profiles].fields[p].Obj? then
                    profiles[p].Obj? && Becomes(x, m[Profiles].fields[p].fields, profiles[p].fields, field, InProfile(field))
                  else profiles[p] == m[Profiles].fields[p])
  {
    CanonicalByContainer(x, m);
    if p in m[Profiles].fields && m[Profiles].fields[p].Obj? {
      ContainerBecomes(x, m[Profiles].fields[p].fields, PROFILE_DEFAULTS, field);
      DefaultsAre(field);
    }
  }

  // ---------------------------------------------------------------- selectors, at every depth

  /** The selectors of a role are all kept, each in canonical form, and stand in order of their identifiers. */
  lemma RoleSelectorsExactly(x: Texts, n: Node)
    requires HasSelectors(n)
    ensures HasSelectors(CanonicalItem(x, Roles)(n))
    ensures var kept := CanonicalItem(x, Roles)(n).fields[Selectors].items;
            && multiset(kept) == multiset(Map(Canonizing(x), n.fields[Selectors].items))
            && AscendsBy(x, [SelectorId], kept)
  {
    var items := n.fields[Selectors].items;
    ItemIs(x, Roles, n);
    SortFilledRole(x, n);
    CanonizedInOrder(x, items, SortSelectors(x, Map(Materializing(), items)));
  }

  lemma CanonizedInOrder(x: Texts, items: seq<Node>, kept: seq<Node>)
    requires kept == SortSelectors(x, Map(Materializing(), items))
    ensures multiset(kept) == multiset(Map(Canonizing(x), items)) && AscendsBy(x, [SelectorId], kept)
  {
    SelectorsCommute(x, items);
    CanonizingKeepsKey(x);
    SortCommutesWith(SelectorKey(x), Canonizing(x), items);
    SortByAscends(x, [SelectorId], Map(Canonizing(x), items));
  }

  lemma CanonizingKeepsKey(x: Texts)
    ensures KeepsKey(SelectorKey(x), Canonizing(x))
  {
    KeysKept(x);
    forall n: Node ensures SelectorKey(x)(Canonizing(x)(n)) == SelectorKey(x)(n) {
      assert SelectorKey(x)(Sorting(x)(MaterializeSelector(n))) == SelectorKey(x)(MaterializeSelector(n));
      assert SelectorKey(x)(Materializing()(n)) == SelectorKey(x)(n);
    }
  }

  /** Of the children of a selector those that are objects are kept, in the same way. */
  lemma ChildrenExactly(x: Texts, n: Node)
    requires HasChildren(n)
    ensures HasChildren(Canonizing(x)(n))
    ensures var kept := Canonizing(x)(n).fields[Children].items;
            && multiset(kept) == multiset(Map(Canonizing(x), Objects(n.fields[Children].items)))
            && AscendsBy(x, [SelectorId], kept)
  {
    var objects := Objects(n.fields[Children].items);
    CanonicalChildrenMapped(x, n, MaterializeSelector(n));
    CanonizingKeepsKey(x);
    SortCommutesWith(SelectorKey(x), Canonizing(x), objects);
    SortByAscends(x, [SelectorId], Map(Canonizing(x), objects));
  }

  // ---------------------------------------------------------------- what is hashed

  predicate LeftOut(semantic: bool, field: Name, inner: Name) {
    || (field == Compatibility && (inner == ArtifactDigest || inner == SemanticDigest))
    || (semantic && field == Compatibility && inner == SchemaVersion)
    || (semantic && field == Workload && inner == DisplayName)
  }

  /** The hashed payload is the canonical manifest without the two digests, and for the semantic digest
      without display name and schema version; nothing else is left out. */
  lemma PayloadExactly(x: Texts, m: Object, semantic: bool, field: Name, inner: Name)
    ensures field in DigestPayload(x, m, semantic) <==> field in Canonical(x, m)
    ensures field in Canonical(x, m) ==>
              var whole, hashed := Canonical(x, m)[field], DigestPayload(x, m, semantic)[field];
              if !whole.Obj? then hashed == whole
              else
                && hashed.Obj? && (inner in hashed.fields <==> inner in whole.fields && !LeftOut(semantic, field, inner))
                && (inner in hashed.fields ==> hashed.fields[inner] == whole.fields[inner])
  {
    PayloadOfExactly(Canonical(x, m), semantic, field, inner);
  }

  lemma InsideExactly(o: Object, name: Name, names: set<Name>, field: Name, inner: Name)
    ensures field in Inside(o, name, names) <==> field in o
    ensures field in o ==>
              var left := Inside(o, name, names)[field];
              if !o[field].Obj? then left == o[field]
              else
                && left.Obj? && (inner in left.fields <==> inner in o[field].fields && !(field == name && inner in names))
                && (inner in left.fields ==> left.fields[inner] == o[field].fields[inner])
  {
  }

  lemma PayloadOfExactly(c: Object, semantic: bool, field: Name, inner: Name)
    ensures field in PayloadOf(c, semantic) <==> field in c
    ensures field in c ==>
              var hashed := PayloadOf(c, semantic)[field];
              if !c[field].Obj? then hashed == c[field]
              else
                && hashed.Obj? && (inner in hashed.fields <==> inner in c[field].fields && !LeftOut(semantic, field, inner))
                && (inner in hashed.fields ==> hashed.fields[inner] == c[field].fields[inner])
  {
    var digests, name, schema := {ArtifactDigest, SemanticDigest}, {DisplayName}, {SchemaVersion};
    var one := Inside(c, Compatibility, digests);
    InsideExactly(c, Compatibility, digests, field, inner);
    InsideExactly(one, Workload, name, field, inner);
    InsideExactly(Inside(one, Workload, name), Compatibility, schema, field, inner);
  }
}
