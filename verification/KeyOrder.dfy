/** The order in which an object lists its keys never reaches its canonical text. */
module KeyOrder {

  import opened Options
  import opened Timestamps
  import opened StableSort
  import opened CanonicalJson
  import opened CanonicalText
  import opened CanonicalParser

  /** The same value: objects are compared key by key, arrays position by position. */
  ghost predicate SameJson(v: Json, w: Json)
    decreases v, 2
  {
    match v
    case Arr(items) => w.Arr? && |items| == |w.items| && forall i :: 0 <= i < |items| ==> SameJson(items[i], w.items[i])
    case Obj(fields) =>
      && w.Obj?
      && (forall i :: 0 <= i < |fields| ==> FoundAmong(v, i, w.fields))
      && forall j :: 0 <= j < |w.fields| ==> HasKey(fields, w.fields[j].0)
    case _ => v == w
  }

  ghost predicate FoundAmong(v: Json, i: nat, others: seq<Field>)
    requires v.Obj? && i < |v.fields|
    decreases v, 1
  {
    exists j :: 0 <= j < |others| && SameField(v, i, others[j])
  }

  ghost predicate SameField(v: Json, i: nat, b: Field)
    requires v.Obj? && i < |v.fields|
    decreases v, 0
  {
    v.fields[i].0 == b.0 && SameJson(v.fields[i].1, b.1)
  }

  /** No object lists a key twice. */
  predicate Keyed(v: Json) {
    match v
    case Arr(items) => forall i :: 0 <= i < |items| ==> Keyed(items[i])
    case Obj(fields) => DistinctKeys(fields) && forall i :: 0 <= i < |fields| ==> Keyed(fields[i].1)
    case _ => true
  }

  // ---------------------------------------------------------------- sorted keys

  lemma {:induction false} InsertDistinct(x: Field, s: seq<Field>)
    requires DistinctKeys(s) && !HasKey(s, x.0)
    ensures DistinctKeys(Insert(ByKey, x, s))
  {
    if s != [] && !ByKey(x, s[0]) {
      var rest := Insert(ByKey, x, s[1..]);
      assert !HasKey(s[1..], x.0) by { KeyInTail(s, x.0); }
      InsertDistinct(x, s[1..]);
      InsertAdds(ByKey, x, s[1..]);
      forall j | 0 <= j < |rest| ensures rest[j].0 != s[0].0 {
        assert rest[j] in multiset(rest);
        assert rest[j] == x || rest[j] in s[1..];
        assert s[0].0 != x.0;
      }
    } else {
      assert forall j :: 0 <= j < |s| ==> s[j].0 != x.0;
    }
  }

  lemma KeyInTail(s: seq<Field>, k: Text)
    requires s != []
    ensures HasKey(s[1..], k) ==> HasKey(s, k)
  {
    if HasKey(s[1..], k) {
      var i :| 0 <= i < |s[1..]| && s[1..][i].0 == k;
      assert s[i + 1].0 == k;
    }
  }

  lemma {:induction false} SortDistinct(s: seq<Field>)
    requires DistinctKeys(s)
    ensures DistinctKeys(Sort(ByKey, s))
  {
    if s != [] {
      SortDistinct(s[1..]);
      ByKeyIsOrder();
      SortSorts(ByKey, s[1..]);
      var sorted := Sort(ByKey, s[1..]);
      forall i | 0 <= i < |sorted| ensures sorted[i].0 != s[0].0 {
        assert sorted[i] in multiset(sorted);
        assert sorted[i] in s[1..];
      }
      InsertDistinct(s[0], sorted);
    }
  }

  predicate Strict(s: seq<Field>) {
    DistinctKeys(s) && Sorted(ByKey, s)
  }

  lemma SortedFieldsAreStrict(fields: seq<Field>)
    requires DistinctKeys(fields)
    ensures Strict(SortFields(fields))
  {
    SortDistinct(fields);
    ByKeyIsOrder();
    SortSorts(ByKey, fields);
  }

  predicate SameKeys(s: seq<Field>, t: seq<Field>) {
    && (forall i :: 0 <= i < |s| ==> HasKey(t, s[i].0))
    && forall i :: 0 <= i < |t| ==> HasKey(s, t[i].0)
  }

  lemma SameFirstKey(s: seq<Field>, t: seq<Field>)
    requires Strict(s) && Strict(t) && SameKeys(s, t) && s != [] && t != []
    ensures s[0].0 == t[0].0
  {
    var i :| 0 <= i < |t| && t[i].0 == s[0].0;
    var j :| 0 <= j < |s| && s[j].0 == t[0].0;
    assert i == 0 || ByKey(t[0], t[i]);
    assert j == 0 || ByKey(s[0], s[j]);
    if i != 0 && j != 0 { LexAntisymmetric(s[0].0, t[0].0); }
  }

  lemma SameKeysTail(s: seq<Field>, t: seq<Field>)
    requires Strict(s) && Strict(t) && SameKeys(s, t) && s != [] && t != [] && s[0].0 == t[0].0
    ensures SameKeys(s[1..], t[1..])
  {
    forall i | 0 <= i < |s[1..]| ensures HasKey(t[1..], s[1..][i].0) {
      assert HasKey(t, s[i + 1].0);
      var j :| 0 <= j < |t| && t[j].0 == s[i + 1].0;
      assert t[1..][j - 1] == t[j];
    }
    forall i | 0 <= i < |t[1..]| ensures HasKey(s[1..], t[1..][i].0) {
      assert HasKey(s, t[i + 1].0);
      var j :| 0 <= j < |s| && s[j].0 == t[i + 1].0;
      assert s[1..][j - 1] == s[j];
    }
  }

  /** Two sorted field lists with the same keys have them at the same places. */
  lemma {:induction false} KeysAlign(s: seq<Field>, t: seq<Field>)
    requires Strict(s) && Strict(t) && SameKeys(s, t)
    ensures |s| == |t| && forall k :: 0 <= k < |s| ==> s[k].0 == t[k].0
  {
    if s == [] {
      assert t == [] || HasKey(s, t[0].0);
    } else {
      assert HasKey(t, s[0].0);
      SameFirstKey(s, t);
      SameKeysTail(s, t);
      KeysAlign(s[1..], t[1..]);
      forall k | 0 <= k < |s| ensures s[k].0 == t[k].0 {
        if k > 0 { assert s[k] == s[1..][k - 1] && t[k] == t[1..][k - 1]; }
      }
    }
  }

  lemma SortKeepsKeys(fields: seq<Field>)
    ensures SameKeys(fields, SortFields(fields))
    ensures forall x :: x in fields <==> x in SortFields(fields)
  {
    var sorted := SortFields(fields);
    forall x ensures x in fields <==> x in sorted { assert x in multiset(fields) <==> x in multiset(sorted); }
    forall i | 0 <= i < |fields| ensures HasKey(sorted, fields[i].0) { assert fields[i] in sorted; }
    forall i | 0 <= i < |sorted| ensures HasKey(fields, sorted[i].0) { assert sorted[i] in fields; }
  }

  lemma KeysCompose(a: seq<Field>, b: seq<Field>, c: seq<Field>)
    requires SameKeys(a, b) && SameKeys(b, c)
    ensures SameKeys(a, c)
  {
    forall i | 0 <= i < |a| ensures HasKey(c, a[i].0) {
      var j :| 0 <= j < |b| && b[j].0 == a[i].0;
      assert HasKey(c, b[j].0);
    }
    forall i | 0 <= i < |c| ensures HasKey(a, c[i].0) {
      var j :| 0 <= j < |b| && b[j].0 == c[i].0;
      assert HasKey(a, b[j].0);
    }
  }

  lemma SameObjectKeys(v: Json, w: Json)
    requires v.Obj? && w.Obj? && SameJson(v, w)
    ensures SameKeys(v.fields, w.fields)
  {
    forall i | 0 <= i < |v.fields| ensures HasKey(w.fields, v.fields[i].0) {
      assert FoundAmong(v, i, w.fields);
      var j :| 0 <= j < |w.fields| && SameField(v, i, w.fields[j]);
    }
  }

  lemma SortedKeysAlign(f: seq<Field>, g: seq<Field>)
    requires DistinctKeys(f) && DistinctKeys(g) && SameKeys(f, g)
    ensures |SortFields(f)| == |SortFields(g)|
    ensures forall k :: 0 <= k < |SortFields(f)| ==> SortFields(f)[k].0 == SortFields(g)[k].0
  {
    SortedFieldsAreStrict(f);
    SortedFieldsAreStrict(g);
    SortKeepsKeys(f);
    SortKeepsKeys(g);
    assert SameKeys(SortFields(f), f);
    KeysCompose(SortFields(f), f, g);
    KeysCompose(SortFields(f), g, SortFields(g));
    KeysAlign(SortFields(f), SortFields(g));
  }

  /** At the same place of the sorted lists stands the same value. */
  lemma SortedValuesAlign(v: Json, w: Json, k: nat)
    requires v.Obj? && w.Obj? && SameJson(v, w) && DistinctKeys(v.fields) && DistinctKeys(w.fields)
    requires |SortFields(v.fields)| == |SortFields(w.fields)| && k < |SortFields(v.fields)|
    requires SortFields(v.fields)[k].0 == SortFields(w.fields)[k].0
    ensures SameJson(SortFields(v.fields)[k].1, SortFields(w.fields)[k].1)
  {
    var f, g := SortFields(v.fields), SortFields(w.fields);
    SortKeepsKeys(v.fields);
    SortKeepsKeys(w.fields);
    assert f[k] in v.fields && g[k] in w.fields;
    var i :| 0 <= i < |v.fields| && v.fields[i] == f[k];
    assert FoundAmong(v, i, w.fields);
    var j :| 0 <= j < |w.fields| && SameField(v, i, w.fields[j]);
    var m :| 0 <= m < |w.fields| && w.fields[m] == g[k];
    assert w.fields[j].0 == w.fields[m].0;
    assert j == m;
  }

  // ---------------------------------------------------------------- the theorem

  lemma {:induction false} SameIsOrderedAlike(v: Json, w: Json)
    requires Keyed(v) && Keyed(w) && SameJson(v, w)
    ensures Ordered(v) == Ordered(w)
    decreases v, 1, 0
  {
    match v
    case Arr(items) => ItemsOrderedAlike(v, items, w, w.items);
    case Obj(fields) =>
      SameObjectKeys(v, w);
      SortedKeysAlign(fields, w.fields);
      SortedFieldsAreInside(fields, v);
      SortedFieldsAreInside(w.fields, w);
      forall k | 0 <= k < |SortFields(fields)|
        ensures SameJson(SortFields(fields)[k].1, SortFields(w.fields)[k].1)
        ensures Keyed(SortFields(fields)[k].1) && Keyed(SortFields(w.fields)[k].1)
      {
        SortedValuesAlign(v, w, k);
        KeyedInside(v, k);
        KeyedInside(w, k);
      }
      FieldsOrderedAlike(v, SortFields(fields), w, SortFields(w.fields));
    case _ =>
  }

  lemma KeyedInside(v: Json, k: nat)
    requires v.Obj? && Keyed(v) && k < |SortFields(v.fields)|
    ensures Keyed(SortFields(v.fields)[k].1)
  {
    SortKeepsKeys(v.fields);
    assert SortFields(v.fields)[k] in v.fields;
  }

  lemma {:induction false} ItemsOrderedAlike(v: Json, items: seq<Json>, w: Json, others: seq<Json>)
    requires |items| == |others| && forall i :: 0 <= i < |items| ==> items[i] < v && others[i] < w
    requires forall i :: 0 <= i < |items| ==> Keyed(items[i]) && Keyed(others[i]) && SameJson(items[i], others[i])
    ensures OrderedItems(v, items) == OrderedItems(w, others)
    decreases v, 0, |items|
  {
    if items != [] {
      SameIsOrderedAlike(items[0], others[0]);
      ItemsOrderedAlike(v, items[1..], w, others[1..]);
    }
  }

  lemma {:induction false} FieldsOrderedAlike(v: Json, fields: seq<Field>, w: Json, others: seq<Field>)
    requires |fields| == |others| && forall i :: 0 <= i < |fields| ==> fields[i].1 < v && others[i].1 < w
    requires forall i :: 0 <= i < |fields| ==> fields[i].0 == others[i].0 && SameJson(fields[i].1, others[i].1)
    requires forall i :: 0 <= i < |fields| ==> Keyed(fields[i].1) && Keyed(others[i].1)
    ensures OrderedFields(v, fields) == OrderedFields(w, others)
    decreases v, 0, |fields|
  {
    if fields != [] {
      SameIsOrderedAlike(fields[0].1, others[0].1);
      FieldsOrderedAlike(v, fields[1..], w, others[1..]);
    }
  }

  lemma {:induction false} OrderedItemAt(v: Json, items: seq<Json>, i: nat)
    requires i < |items| && forall k :: 0 <= k < |items| ==> items[k] < v
    ensures OrderedItems(v, items)[i] == Ordered(items[i])
    decreases |items|
  {
    if i > 0 { OrderedItemAt(v, items[1..], i - 1); }
  }

  lemma {:induction false} OrderedFieldAt(v: Json, fields: seq<Field>, i: nat)
    requires i < |fields| && forall k :: 0 <= k < |fields| ==> fields[k].1 < v
    ensures OrderedFields(v, fields)[i] == (fields[i].0, Ordered(fields[i].1))
    decreases |fields|
  {
    if i > 0 { OrderedFieldAt(v, fields[1..], i - 1); }
  }

  /** And values that order alike are the same up to key order. */
  lemma {:induction false} OrderedAlikeIsSame(v: Json, w: Json)
    requires Ordered(v) == Ordered(w)
    ensures SameJson(v, w)
    decreases v
  {
    match v
    case Arr(items) =>
      forall i | 0 <= i < |items| ensures SameJson(items[i], w.items[i]) {
        OrderedItemAt(v, items, i);
        OrderedItemAt(w, w.items, i);
        OrderedAlikeIsSame(items[i], w.items[i]);
      }
    case Obj(fields) =>
      SortedFieldsAreInside(fields, v);
      SortedFieldsAreInside(w.fields, w);
      forall k | 0 <= k < |SortFields(fields)|
        ensures SortFields(fields)[k].0 == SortFields(w.fields)[k].0
        ensures SameJson(SortFields(fields)[k].1, SortFields(w.fields)[k].1)
      {
        OrderedFieldAt(v, SortFields(fields), k);
        OrderedFieldAt(w, SortFields(w.fields), k);
        OrderedAlikeIsSame(SortFields(fields)[k].1, SortFields(w.fields)[k].1);
      }
      AlignedObjectsAreSame(v, w);
    case _ =>
  }

  ghost predicate Aligned(v: Json, w: Json)
    requires v.Obj? && w.Obj?
  {
    && |v.fields| == |w.fields|
    && forall k :: 0 <= k < |v.fields| ==>
         && SortFields(v.fields)[k].0 == SortFields(w.fields)[k].0
         && SameJson(SortFields(v.fields)[k].1, SortFields(w.fields)[k].1)
  }

  lemma AlignedFieldIsFound(v: Json, w: Json, i: nat)
    requires v.Obj? && w.Obj? && Aligned(v, w) && i < |v.fields|
    ensures FoundAmong(v, i, w.fields)
  {
    var f, g := SortFields(v.fields), SortFields(w.fields);
    SortKeepsKeys(v.fields);
    SortKeepsKeys(w.fields);
    assert v.fields[i] in f;
    var k :| 0 <= k < |f| && f[k] == v.fields[i];
    assert g[k] in w.fields;
    var j :| 0 <= j < |w.fields| && w.fields[j] == g[k];
    assert SameField(v, i, w.fields[j]);
  }

  lemma AlignedKeyIsFound(v: Json, w: Json, j: nat)
    requires v.Obj? && w.Obj? && Aligned(v, w) && j < |w.fields|
    ensures HasKey(v.fields, w.fields[j].0)
  {
    var f, g := SortFields(v.fields), SortFields(w.fields);
    SortKeepsKeys(v.fields);
    SortKeepsKeys(w.fields);
    assert w.fields[j] in g;
    var k :| 0 <= k < |g| && g[k] == w.fields[j];
    assert f[k] in v.fields;
  }

  lemma AlignedObjectsAreSame(v: Json, w: Json)
    requires v.Obj? && w.Obj? && Aligned(v, w)
    ensures SameJson(v, w)
  {
    forall i | 0 <= i < |v.fields| ensures FoundAmong(v, i, w.fields) { AlignedFieldIsFound(v, w, i); }
    forall j | 0 <= j < |w.fields| ensures HasKey(v.fields, w.fields[j].0) { AlignedKeyIsFound(v, w, j); }
  }

  lemma {:induction false} NormalIsKeyed(r: Rules, v: Json)
    requires Normal(r, v)
    ensures Keyed(v)
  {
    match v
    case Arr(items) => forall i | 0 <= i < |items| ensures Keyed(items[i]) { NormalIsKeyed(r, items[i]); }
    case Obj(fields) => forall i | 0 <= i < |fields| ensures Keyed(fields[i].1) { NormalIsKeyed(r, fields[i].1); }
    case _ =>
  }

  /** Values that differ only in the order of keys, at any depth, render alike. */
  lemma KeyOrderIsForgotten(v: Json, w: Json)
    requires Keyed(v) && Keyed(w) && SameJson(v, w)
    ensures Render(v) == Render(w)
  {
    SameIsOrderedAlike(v, w);
    RenderPrintsOrdered(v);
    RenderPrintsOrdered(w);
  }

  /** Two documents have the same canonical text exactly when they normalize to the same value. */
  lemma EqualTextsMeanSameValues(r: Rules, v: Json, w: Json)
    requires Laws(r) && Canonicalize(r, v).Some? && Canonicalize(r, w).Some?
    ensures Canonicalize(r, v) == Canonicalize(r, w) <==> SameJson(Normalize(r, v).value, Normalize(r, w).value)
  {
    EqualTextsMeanEqualValues(r, v, w);
    NormalizeIsNormal(r, v);
    NormalizeIsNormal(r, w);
    NormalIsKeyed(r, Normalize(r, v).value);
    NormalIsKeyed(r, Normalize(r, w).value);
    if SameJson(Normalize(r, v).value, Normalize(r, w).value) {
      SameIsOrderedAlike(Normalize(r, v).value, Normalize(r, w).value);
    }
    if Ordered(Normalize(r, v).value) == Ordered(Normalize(r, w).value) {
      OrderedAlikeIsSame(Normalize(r, v).value, Normalize(r, w).value);
    }
  }
}
