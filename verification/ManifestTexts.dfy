/** Manifest values as the JSON values that are canonicalized and hashed, and canonical texts as a view of
    them: a text is known by its parts. */
module ManifestTexts {

  import opened Options
  import opened Timestamps
  import opened StableSort
  import opened ManifestSelectors
  import opened ManifestViews
  import J = CanonicalJson
  import T = CanonicalText
  import K = KeyOrder

  // ---------------------------------------------------------------- JSON values

  /** How names, words and numbers are written. */
  datatype Spelling = Spelling(name: Name -> Text, word: Word -> Text, number: Text -> J.Number)

  /** After NFC exactly the name `__proto__` is spelled so. */
  ghost predicate SpellsProto(r: J.Rules, s: Spelling) {
    forall n: Name :: r.nfc(s.name(n)) == J.PROTO <==> n == Proto
  }

  /** Some order of the names; none of them reaches a canonical text. */
  ghost function Listing(keys: set<Name>): (names: seq<Name>)
    ensures forall n :: n in names <==> n in keys
  {
    if keys == {} then []
    else
      var n :| n in keys;
      [n] + Listing(keys - {n})
  }

  ghost function ToJson(s: Spelling, n: Node): J.Json
    decreases n, 1, 0
  {
    match n
    case Null => J.Null
    case Flag(b) => J.Bool(b)
    case Number(t) => J.Num(s.number(t))
    case Known(w) => J.Str(s.word(w))
    case Str(t) => J.Str(t)
    case List(items) => J.Arr(ToItems(s, n, items))
    case Obj(fields) => J.Obj(ToFields(s, n, fields, Listing(fields.Keys)))
  }

  ghost function ToItems(s: Spelling, n: Node, items: seq<Node>): (js: seq<J.Json>)
    requires forall i :: 0 <= i < |items| ==> items[i] < n
    ensures |js| == |items| && forall i :: 0 <= i < |js| ==> js[i] == ToJson(s, items[i])
    decreases n, 0, |items|
  {
    if items == [] then [] else [ToJson(s, items[0])] + ToItems(s, n, items[1..])
  }

  ghost function ToFields(s: Spelling, n: Node, o: Object, names: seq<Name>): (fs: seq<(Text, J.Json)>)
    requires forall k :: k in names ==> k in o && o[k] < n
    ensures |fs| == |names|
    ensures forall i :: 0 <= i < |fs| ==> names[i] in o && fs[i] == (s.name(names[i]), ToJson(s, o[names[i]]))
    decreases n, 0, |names|
  {
    if names == [] then [] else [(s.name(names[0]), ToJson(s, o[names[0]]))] + ToFields(s, n, o, names[1..])
  }

  /** `canonicalizeJson` of a manifest value; nothing where it throws. */
  ghost function TextView(r: J.Rules, s: Spelling): View<Text> { n => T.Canonicalize(r, ToJson(s, n)) }

  ghost function Normal(r: J.Rules, s: Spelling, n: Node): Option<J.Json> { J.Normalize(r, ToJson(s, n)) }

  /** The two values normalize to the same value up to the order of keys, or both to none. */
  ghost predicate SameForm(r: J.Rules, s: Spelling, a: Node, b: Node) {
    var v, w := Normal(r, s, a), Normal(r, s, b);
    v.Some? == w.Some? && (v.Some? && w.Some? ==> K.SameJson(v.value, w.value))
  }

  lemma SameTexts(r: J.Rules, s: Spelling, a: Node, b: Node)
    requires J.Laws(r)
    ensures TextView(r, s)(a).Some? <==> Normal(r, s, a).Some?
    ensures TextView(r, s)(a) == TextView(r, s)(b) <==> SameForm(r, s, a, b)
  {
    if Normal(r, s, a).Some? && Normal(r, s, b).Some? { K.EqualTextsMeanSameValues(r, ToJson(s, a), ToJson(s, b)); }
  }

  // ---------------------------------------------------------------- lists

  lemma {:induction false} ItemsNormalized(r: J.Rules, v: J.Json, items: seq<J.Json>)
    requires forall i :: 0 <= i < |items| ==> items[i] < v
    ensures J.NormalizeItems(r, v, items).Some? <==> forall i :: 0 <= i < |items| ==> J.Normalize(r, items[i]).Some?
    ensures J.NormalizeItems(r, v, items).Some? ==>
              && |J.NormalizeItems(r, v, items).value| == |items|
              && forall i :: 0 <= i < |items| ==> J.NormalizeItems(r, v, items).value[i] == J.Normalize(r, items[i]).value
    decreases |items|
  {
    if items != [] {
      var front := items[..|items| - 1];
      ItemsNormalized(r, v, front);
      assert forall i :: 0 <= i < |front| ==> front[i] == items[i];
      assert forall i :: 0 <= i < |items| ==> i < |front| || items[i] == items[|items| - 1];
    }
  }

  lemma NormalList(r: J.Rules, s: Spelling, xs: seq<Node>)
    ensures Normal(r, s, List(xs)).Some? <==> forall i :: 0 <= i < |xs| ==> Normal(r, s, xs[i]).Some?
    ensures Normal(r, s, List(xs)).Some? ==>
              && Normal(r, s, List(xs)).value.Arr? && |Normal(r, s, List(xs)).value.items| == |xs|
              && forall i :: 0 <= i < |xs| ==> Normal(r, s, List(xs)).value.items[i] == Normal(r, s, xs[i]).value
  {
    var n := List(xs);
    var v := ToJson(s, n);
    ItemsNormalized(r, v, v.items);
    assert forall i :: 0 <= i < |xs| ==> v.items[i] == ToJson(s, xs[i]);
  }

  lemma MapsTell<A>(view: View<A>, xs: seq<Node>, ys: seq<Node>)
    ensures Map(view, xs) == Map(view, ys) <==> |xs| == |ys| && forall i :: 0 <= i < |xs| ==> view(xs[i]) == view(ys[i])
  {
    MapLength(view, xs);
    MapLength(view, ys);
    if |xs| == |ys| {
      forall i | 0 <= i < |xs| ensures Map(view, xs)[i] == view(xs[i]) && Map(view, ys)[i] == view(ys[i]) {
        MapAt(view, xs, i);
        MapAt(view, ys, i);
      }
    }
  }

  lemma ListFormsAgree(r: J.Rules, s: Spelling, xs: seq<Node>, ys: seq<Node>)
    requires |xs| == |ys| && forall i :: 0 <= i < |xs| ==> SameForm(r, s, xs[i], ys[i])
    ensures SameForm(r, s, List(xs), List(ys))
  {
    NormalList(r, s, xs);
    NormalList(r, s, ys);
    var v, w := Normal(r, s, List(xs)), Normal(r, s, List(ys));
    assert v.Some? <==> w.Some? by {
      forall i | 0 <= i < |xs| ensures Normal(r, s, xs[i]).Some? == Normal(r, s, ys[i]).Some? {
        assert SameForm(r, s, xs[i], ys[i]);
      }
    }
    if v.Some? {
      forall i | 0 <= i < |xs| ensures K.SameJson(v.value.items[i], w.value.items[i]) { assert SameForm(r, s, xs[i], ys[i]); }
    }
  }

  lemma ListFormsTell(r: J.Rules, s: Spelling, xs: seq<Node>, ys: seq<Node>)
    requires Normal(r, s, List(xs)).Some? && SameForm(r, s, List(xs), List(ys))
    ensures |xs| == |ys| && forall i :: 0 <= i < |xs| ==> SameForm(r, s, xs[i], ys[i])
  {
    NormalList(r, s, xs);
    NormalList(r, s, ys);
    var v, w := Normal(r, s, List(xs)).value, Normal(r, s, List(ys)).value;
    assert K.SameJson(v, w);
    forall i | 0 <= i < |xs| ensures SameForm(r, s, xs[i], ys[i]) { assert K.SameJson(v.items[i], w.items[i]); }
  }

  lemma ListTextsAgree(r: J.Rules, s: Spelling, xs: seq<Node>, ys: seq<Node>, view: View<Text>)
    requires J.Laws(r) && view == TextView(r, s) && Map(view, xs) == Map(view, ys)
    ensures view(List(xs)) == view(List(ys))
  {
    MapsTell(view, xs, ys);
    forall i | 0 <= i < |xs| ensures SameForm(r, s, xs[i], ys[i]) { SameTexts(r, s, xs[i], ys[i]); }
    ListFormsAgree(r, s, xs, ys);
    SameTexts(r, s, List(xs), List(ys));
  }

  lemma ListTextsTellParts(r: J.Rules, s: Spelling, xs: seq<Node>, ys: seq<Node>, view: View<Text>)
    requires J.Laws(r) && view == TextView(r, s) && view(List(xs)).Some? && view(List(xs)) == view(List(ys))
    ensures Map(view, xs) == Map(view, ys)
  {
    SameTexts(r, s, List(xs), List(ys));
    ListFormsTell(r, s, xs, ys);
    forall i | 0 <= i < |xs| ensures view(xs[i]) == view(ys[i]) { SameTexts(r, s, xs[i], ys[i]); }
    MapsTell(view, xs, ys);
  }

  lemma ListTextsRefuse(r: J.Rules, s: Spelling, xs: seq<Node>, view: View<Text>)
    requires J.Laws(r) && view == TextView(r, s)
    ensures view(List(xs)).Some? <==> None !in Map(view, xs)
  {
    SameTexts(r, s, List(xs), List(xs));
    NormalList(r, s, xs);
    NoneInside(view, xs);
    forall i | 0 <= i < |xs| ensures view(xs[i]).Some? <==> Normal(r, s, xs[i]).Some? { SameTexts(r, s, xs[i], xs[i]); }
    forall n ensures n in xs <==> exists i :: 0 <= i < |xs| && xs[i] == n {}
  }

  lemma ListTextsTell(r: J.Rules, s: Spelling, xs: seq<Node>, ys: seq<Node>, view: View<Text>)
    requires J.Laws(r) && view == TextView(r, s)
    ensures ListsTell(view, xs, ys)
  {
    if Map(view, xs) == Map(view, ys) { ListTextsAgree(r, s, xs, ys, view); }
    if view(List(xs)).Some? && view(List(xs)) == view(List(ys)) { ListTextsTellParts(r, s, xs, ys, view); }
    ListTextsRefuse(r, s, xs, view);
  }

  // ---------------------------------------------------------------- objects

  type Fields = seq<(Text, J.Json)>

  ghost predicate FieldAgrees(r: J.Rules, a: (Text, J.Json), b: (Text, J.Json)) {
    a.0 == b.0 && J.Normalize(r, a.1).Some? == J.Normalize(r, b.1).Some?
  }

  ghost predicate FieldSame(r: J.Rules, a: (Text, J.Json), b: (Text, J.Json)) {
    var v, w := J.Normalize(r, a.1), J.Normalize(r, b.1);
    v.Some? && w.Some? ==> K.SameJson(v.value, w.value)
  }

  ghost predicate Aligned(fs: Fields, gs: Fields) {
    |fs| == |gs| && forall i :: 0 <= i < |fs| ==> fs[i].0 == gs[i].0
  }

  lemma AddAligned(r: J.Rules, done: Option<Fields>, also: Option<Fields>, a: (Text, J.Json), b: (Text, J.Json))
    requires FieldAgrees(r, a, b) && done.Some? == also.Some? && (done.Some? ==> Aligned(done.value, also.value))
    ensures var f, g := J.AddField(r, done, a.0, J.Normalize(r, a.1)), J.AddField(r, also, b.0, J.Normalize(r, b.1));
            f.Some? == g.Some? && (f.Some? ==> Aligned(f.value, g.value))
  {
    var key := J.ScalarText(r, a.0);
    if done.Some? && key.Some? {
      assert J.HasKey(done.value, key.value) <==> J.HasKey(also.value, key.value) by {
        assert forall i :: 0 <= i < |done.value| ==> done.value[i].0 == also.value[i].0;
      }
    }
  }

  ghost predicate ValuesSame(fs: Fields, gs: Fields) {
    |fs| == |gs| && forall i :: 0 <= i < |fs| ==> K.SameJson(fs[i].1, gs[i].1)
  }

  lemma AddSame(r: J.Rules, done: Option<Fields>, also: Option<Fields>, a: (Text, J.Json), b: (Text, J.Json))
    requires FieldSame(r, a, b) && a.0 == b.0 && (done.Some? && also.Some? ==> ValuesSame(done.value, also.value))
    ensures var f, g := J.AddField(r, done, a.0, J.Normalize(r, a.1)), J.AddField(r, also, b.0, J.Normalize(r, b.1));
            f.Some? && g.Some? ==> ValuesSame(f.value, g.value)
  {
  }

  ghost predicate Inside(fs: Fields, v: J.Json) { forall i :: 0 <= i < |fs| ==> fs[i].1 < v }

  lemma {:induction false} FieldsAlign(r: J.Rules, v: J.Json, fs: Fields, w: J.Json, gs: Fields)
    requires Inside(fs, v) && Inside(gs, w) && |fs| == |gs| && forall i :: 0 <= i < |fs| ==> FieldAgrees(r, fs[i], gs[i])
    ensures J.NormalizeFields(r, v, fs).Some? == J.NormalizeFields(r, w, gs).Some?
    ensures J.NormalizeFields(r, v, fs).Some? ==> Aligned(J.NormalizeFields(r, v, fs).value, J.NormalizeFields(r, w, gs).value)
    decreases |fs|
  {
    if fs != [] {
      var n := |fs| - 1;
      FieldsAlign(r, v, fs[..n], w, gs[..n]);
      AddAligned(r, J.NormalizeFields(r, v, fs[..n]), J.NormalizeFields(r, w, gs[..n]), fs[n], gs[n]);
    }
  }

  lemma {:induction false} FieldsSame(r: J.Rules, v: J.Json, fs: Fields, w: J.Json, gs: Fields)
    requires Inside(fs, v) && Inside(gs, w) && |fs| == |gs|
    requires forall i :: 0 <= i < |fs| ==> fs[i].0 == gs[i].0 && FieldSame(r, fs[i], gs[i])
    requires J.NormalizeFields(r, v, fs).Some? && J.NormalizeFields(r, w, gs).Some?
    ensures ValuesSame(J.NormalizeFields(r, v, fs).value, J.NormalizeFields(r, w, gs).value)
    decreases |fs|
  {
    if fs != [] {
      var n := |fs| - 1;
      FieldsSame(r, v, fs[..n], w, gs[..n]);
      AddSame(r, J.NormalizeFields(r, v, fs[..n]), J.NormalizeFields(r, w, gs[..n]), fs[n], gs[n]);
    }
  }

  /** Every entry is normalized and, unless its key becomes `__proto__`, kept. */
  lemma {:induction false} FieldKept(r: J.Rules, v: J.Json, fs: Fields, i: nat)
    requires Inside(fs, v) && i < |fs| && J.NormalizeFields(r, v, fs).Some?
    ensures J.Normalize(r, fs[i].1).Some?
    ensures r.nfc(fs[i].0) != J.PROTO ==> (r.nfc(fs[i].0), J.Normalize(r, fs[i].1).value) in J.NormalizeFields(r, v, fs).value
    decreases |fs|
  {
    if i < |fs| - 1 { FieldKept(r, v, fs[..|fs| - 1], i); }
  }

  lemma AlignedSame(v: J.Json, w: J.Json)
    requires v.Obj? && w.Obj? && Aligned(v.fields, w.fields) && ValuesSame(v.fields, w.fields)
    ensures K.SameJson(v, w)
  {
    forall i | 0 <= i < |v.fields| ensures K.FoundAmong(v, i, w.fields) { assert K.SameField(v, i, w.fields[i]); }
    forall j | 0 <= j < |w.fields| ensures J.HasKey(v.fields, w.fields[j].0) { assert v.fields[j].0 == w.fields[j].0; }
  }

  lemma ValueUnderKey(v: J.Json, w: J.Json, key: Text, a: J.Json, b: J.Json)
    requires v.Obj? && w.Obj? && K.SameJson(v, w) && J.DistinctKeys(w.fields)
    requires (key, a) in v.fields && (key, b) in w.fields
    ensures K.SameJson(a, b)
  {
    var i :| 0 <= i < |v.fields| && v.fields[i] == (key, a);
    assert K.FoundAmong(v, i, w.fields);
    var j :| 0 <= j < |w.fields| && K.SameField(v, i, w.fields[j]);
    var k :| 0 <= k < |w.fields| && w.fields[k] == (key, b);
    assert w.fields[j].0 == key == w.fields[k].0;
    assert j == k;
  }

  // ---------------------------------------------------------------- objects of manifest values

  ghost function Entries(s: Spelling, f: Object): Fields { ToJson(s, Obj(f)).fields }

  lemma EntriesAre(s: Spelling, f: Object, names: seq<Name>)
    requires names == Listing(f.Keys)
    ensures |Entries(s, f)| == |names| && Inside(Entries(s, f), ToJson(s, Obj(f)))
    ensures forall i :: 0 <= i < |names| ==> names[i] in f && Entries(s, f)[i] == (s.name(names[i]), ToJson(s, f[names[i]]))
  {
    assert forall k :: k in names <==> k in f;
  }

  lemma NormalObject(r: J.Rules, s: Spelling, f: Object) returns (v: J.Json, fs: Fields)
    ensures v == ToJson(s, Obj(f)) && fs == Entries(s, f) && Inside(fs, v)
    ensures var all := J.NormalizeFields(r, v, fs);
            Normal(r, s, Obj(f)) == if all.Some? then Some(J.Json.Obj(all.value)) else None
  {
    v, fs := ToJson(s, Obj(f)), Entries(s, f);
    EntriesAre(s, f, Listing(f.Keys));
  }

  lemma EntriesAgree(r: J.Rules, s: Spelling, f: Object, g: Object, fs: Fields, gs: Fields)
    requires fs == Entries(s, f) && gs == Entries(s, g) && f.Keys == g.Keys
    requires forall k :: k in f ==> Normal(r, s, f[k]).Some? == Normal(r, s, g[k]).Some?
    ensures |fs| == |gs| && forall i :: 0 <= i < |fs| ==> FieldAgrees(r, fs[i], gs[i])
  {
    var names := Listing(f.Keys);
    EntriesAre(s, f, names);
    EntriesAre(s, g, names);
    forall i | 0 <= i < |names| ensures FieldAgrees(r, fs[i], gs[i]) { assert names[i] in f; }
  }

  lemma EntriesSame(r: J.Rules, s: Spelling, f: Object, g: Object, fs: Fields, gs: Fields)
    requires fs == Entries(s, f) && gs == Entries(s, g) && f.Keys == g.Keys
    requires forall k :: k in f ==> SameForm(r, s, f[k], g[k])
    ensures |fs| == |gs| && forall i :: 0 <= i < |fs| ==> fs[i].0 == gs[i].0 && FieldSame(r, fs[i], gs[i])
  {
    var names := Listing(f.Keys);
    EntriesAre(s, f, names);
    EntriesAre(s, g, names);
    forall i | 0 <= i < |names| ensures fs[i].0 == gs[i].0 && FieldSame(r, fs[i], gs[i]) {
      assert names[i] in f;
      assert SameForm(r, s, f[names[i]], g[names[i]]);
    }
  }

  lemma ObjectFormsAlign(r: J.Rules, s: Spelling, f: Object, g: Object)
    requires f.Keys == g.Keys && forall k :: k in f ==> Normal(r, s, f[k]).Some? == Normal(r, s, g[k]).Some?
    ensures Normal(r, s, Obj(f)).Some? == Normal(r, s, Obj(g)).Some?
    ensures Normal(r, s, Obj(f)).Some? ==>
              && Normal(r, s, Obj(f)).value.Obj? && Normal(r, s, Obj(g)).value.Obj?
              && Aligned(Normal(r, s, Obj(f)).value.fields, Normal(r, s, Obj(g)).value.fields)
  {
    var v, fs := NormalObject(r, s, f);
    var w, gs := NormalObject(r, s, g);
    EntriesAgree(r, s, f, g, fs, gs);
    FieldsAlign(r, v, fs, w, gs);
  }

  lemma ObjectValuesSame(r: J.Rules, s: Spelling, f: Object, g: Object)
    requires f.Keys == g.Keys && forall k :: k in f ==> SameForm(r, s, f[k], g[k])
    requires Normal(r, s, Obj(f)).Some? && Normal(r, s, Obj(g)).Some?
    ensures Normal(r, s, Obj(f)).value.Obj? && Normal(r, s, Obj(g)).value.Obj?
    ensures ValuesSame(Normal(r, s, Obj(f)).value.fields, Normal(r, s, Obj(g)).value.fields)
  {
    var v, fs := NormalObject(r, s, f);
    var w, gs := NormalObject(r, s, g);
    EntriesSame(r, s, f, g, fs, gs);
    FieldsSame(r, v, fs, w, gs);
  }

  lemma ObjectFormsAgree(r: J.Rules, s: Spelling, f: Object, g: Object)
    requires f.Keys == g.Keys && forall k :: k in f ==> SameForm(r, s, f[k], g[k])
    ensures SameForm(r, s, Obj(f), Obj(g))
  {
    forall k | k in f ensures Normal(r, s, f[k]).Some? == Normal(r, s, g[k]).Some? { assert SameForm(r, s, f[k], g[k]); }
    ObjectFormsAlign(r, s, f, g);
    if Normal(r, s, Obj(f)).Some? {
      ObjectValuesSame(r, s, f, g);
      AlignedSame(Normal(r, s, Obj(f)).value, Normal(r, s, Obj(g)).value);
    }
  }

  lemma EntryOf(s: Spelling, f: Object, k: Name, fs: Fields) returns (i: nat)
    requires k in f && fs == Entries(s, f)
    ensures i < |fs| && fs[i] == (s.name(k), ToJson(s, f[k]))
  {
    var names := Listing(f.Keys);
    EntriesAre(s, f, names);
    assert k in names;
    i :| 0 <= i < |names| && names[i] == k;
  }

  lemma EntryKept(r: J.Rules, s: Spelling, f: Object, k: Name)
    requires k in f && Normal(r, s, Obj(f)).Some?
    ensures Normal(r, s, Obj(f)).value.Obj? && Normal(r, s, f[k]).Some?
    ensures r.nfc(s.name(k)) != J.PROTO ==>
              (r.nfc(s.name(k)), Normal(r, s, f[k]).value) in Normal(r, s, Obj(f)).value.fields
  {
    var v, fs := NormalObject(r, s, f);
    var i := EntryOf(s, f, k, fs);
    FieldKept(r, v, fs, i);
  }

  lemma ObjectFormsTell(r: J.Rules, s: Spelling, f: Object, g: Object, k: Name)
    requires J.Laws(r) && SpellsProto(r, s) && Normal(r, s, Obj(f)).Some? && SameForm(r, s, Obj(f), Obj(g))
    requires k in f && k in g && k != Proto
    ensures SameForm(r, s, f[k], g[k])
  {
    EntryKept(r, s, f, k);
    EntryKept(r, s, g, k);
    J.NormalizeIsNormal(r, ToJson(s, Obj(g)));
    ValueUnderKey(Normal(r, s, Obj(f)).value, Normal(r, s, Obj(g)).value, r.nfc(s.name(k)),
                  Normal(r, s, f[k]).value, Normal(r, s, g[k]).value);
  }

  lemma ObjectTextsAgree(r: J.Rules, s: Spelling, f: Object, g: Object, view: View<Text>)
    requires J.Laws(r) && view == TextView(r, s) && SameSeen(view, f, g)
    ensures view(Obj(f)) == view(Obj(g))
  {
    forall k | k in f ensures SameForm(r, s, f[k], g[k]) { SameTexts(r, s, f[k], g[k]); }
    ObjectFormsAgree(r, s, f, g);
    SameTexts(r, s, Obj(f), Obj(g));
  }

  lemma ObjectTextsTellParts(r: J.Rules, s: Spelling, f: Object, g: Object, view: View<Text>)
    requires J.Laws(r) && SpellsProto(r, s) && view == TextView(r, s) && view(Obj(f)).Some? && view(Obj(f)) == view(Obj(g))
    ensures forall k :: k in f && k in g && k != Proto ==> view(f[k]) == view(g[k])
  {
    SameTexts(r, s, Obj(f), Obj(g));
    forall k | k in f && k in g && k != Proto ensures view(f[k]) == view(g[k]) {
      ObjectFormsTell(r, s, f, g, k);
      SameTexts(r, s, f[k], g[k]);
    }
  }

  lemma ObjectTextsRefuse(r: J.Rules, s: Spelling, f: Object, view: View<Text>)
    requires J.Laws(r) && view == TextView(r, s) && view(Obj(f)).Some?
    ensures AllSeen(view, f)
  {
    SameTexts(r, s, Obj(f), Obj(f));
    forall k | k in f ensures view(f[k]).Some? {
      EntryKept(r, s, f, k);
      SameTexts(r, s, f[k], f[k]);
    }
  }

  lemma ObjectTextsExist(r: J.Rules, s: Spelling, f: Object, g: Object, view: View<Text>)
    requires J.Laws(r) && view == TextView(r, s) && view(Obj(f)).Some? && f.Keys == g.Keys && AllSeen(view, g)
    ensures view(Obj(g)).Some?
  {
    ObjectTextsRefuse(r, s, f, view);
    forall k | k in f ensures Normal(r, s, f[k]).Some? == Normal(r, s, g[k]).Some? {
      SameTexts(r, s, f[k], f[k]);
      SameTexts(r, s, g[k], g[k]);
    }
    ObjectFormsAlign(r, s, f, g);
    SameTexts(r, s, Obj(f), Obj(f));
    SameTexts(r, s, Obj(g), Obj(g));
  }

  lemma ObjectTextsTell(r: J.Rules, s: Spelling, f: Object, g: Object, view: View<Text>)
    requires J.Laws(r) && SpellsProto(r, s) && view == TextView(r, s)
    ensures ObjectsTell(view, f, g)
  {
    if SameSeen(view, f, g) { ObjectTextsAgree(r, s, f, g, view); }
    if view(Obj(f)).Some? {
      ObjectTextsRefuse(r, s, f, view);
      if view(Obj(f)) == view(Obj(g)) { ObjectTextsTellParts(r, s, f, g, view); }
      if f.Keys == g.Keys && AllSeen(view, g) { ObjectTextsExist(r, s, f, g, view); }
    }
  }

  /** A canonical text tells apart exactly what its parts tell apart. */
  lemma TextsAreLawful(r: J.Rules, s: Spelling)
    requires J.Laws(r) && SpellsProto(r, s)
    ensures Lawful(TextView(r, s))
  {
    forall xs: seq<Node>, ys: seq<Node> ensures ListsTell(TextView(r, s), xs, ys) {
      ListTextsTell(r, s, xs, ys, TextView(r, s));
    }
    forall f: Object, g: Object ensures ObjectsTell(TextView(r, s), f, g) { ObjectTextsTell(r, s, f, g, TextView(r, s)); }
  }
}
