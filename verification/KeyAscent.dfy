/** Which order the keys of a canonical text stand in, and that this settles the text. */
module KeyAscent {

  import opened Options
  import opened Timestamps
  import opened StableSort
  import opened CanonicalJson
  import opened CanonicalText
  import opened CanonicalParser
  import opened KeyOrder

  ghost predicate KeysAscend(fields: seq<Field>) {
    forall i, j :: 0 <= i < j < |fields| ==> Precedes(fields[i].0, fields[j].0)
  }

  /** In every object, of two keys the earlier is a proper prefix of the later or has the smaller code
      unit where they first differ. */
  ghost predicate Ascending(v: Json) {
    match v
    case Arr(items) => forall i :: 0 <= i < |items| ==> Ascending(items[i])
    case Obj(fields) => KeysAscend(fields) && forall i :: 0 <= i < |fields| ==> Ascending(fields[i].1)
    case _ => true
  }

  lemma StrictAscends(fields: seq<Field>)
    ensures Strict(fields) <==> KeysAscend(fields)
  {
    forall i, j | 0 <= i < j < |fields|
      ensures Precedes(fields[i].0, fields[j].0) <==> fields[i].0 != fields[j].0 && ByKey(fields[i], fields[j])
    {
      LexLeqExactly(fields[i].0, fields[j].0);
      PrecedesDiffers(fields[i].0, fields[j].0);
    }
  }

  lemma PrecedesDiffers(a: Text, b: Text)
    ensures Precedes(a, b) ==> a != b
  {
  }

  /** Ordering a value puts all of its keys in that order, at every depth. */
  lemma {:induction false} OrderedAscends(v: Json)
    requires Keyed(v)
    ensures Ascending(Ordered(v))
    decreases v
  {
    match v
    case Arr(items) =>
      forall i | 0 <= i < |items| ensures Ascending(OrderedItems(v, items)[i]) {
        OrderedItemAt(v, items, i);
        OrderedAscends(items[i]);
      }
    case Obj(fields) =>
      var sorted := SortFields(fields);
      SortedFieldsAreInside(fields, v);
      SortedFieldsAreStrict(fields);
      StrictAscends(sorted);
      forall i | 0 <= i < |sorted|
        ensures OrderedFields(v, sorted)[i].0 == sorted[i].0 && Ascending(OrderedFields(v, sorted)[i].1)
      {
        OrderedFieldAt(v, sorted, i);
        KeyedInside(v, i);
        OrderedAscends(sorted[i].1);
      }
    case _ =>
  }

  /** And what is in that order stays as it is. */
  lemma {:induction false} AscendingStays(v: Json)
    requires Ascending(v)
    ensures Ordered(v) == v && Keyed(v)
    decreases v
  {
    match v
    case Arr(items) =>
      forall i | 0 <= i < |items| ensures OrderedItems(v, items)[i] == items[i] && Keyed(items[i]) {
        OrderedItemAt(v, items, i);
        AscendingStays(items[i]);
      }
    case Obj(fields) =>
      StrictAscends(fields);
      SortedStays(ByKey, fields);
      forall i | 0 <= i < |fields| ensures OrderedFields(v, fields)[i] == fields[i] && Keyed(fields[i].1) {
        OrderedFieldAt(v, fields, i);
        AscendingStays(fields[i].1);
      }
    case _ =>
  }

  /** Ordering finds the one value that is the same up to the order of keys and has them ascending. */
  lemma OrderedExactly(v: Json, w: Json)
    requires Keyed(v)
    ensures w == Ordered(v) <==> SameJson(v, w) && Ascending(w)
  {
    OrderedAscends(v);
    AscendingStays(Ordered(v));
    OrderedAlikeIsSame(v, Ordered(v));
    if SameJson(v, w) && Ascending(w) {
      AscendingStays(w);
      SameIsOrderedAlike(v, w);
    }
  }

  /** The canonical text of a document is the text of the one value that is the normalized document up to
      the order of keys, and has its keys ascending at every depth. */
  lemma CanonicalTextExactly(r: Rules, v: Json, w: Json)
    requires Laws(r) && Canonicalize(r, v).Some?
    ensures Parse(Canonicalize(r, v).value) == Some((w, []))
       <==> SameJson(Normalize(r, v).value, w) && Ascending(w)
    ensures SameJson(Normalize(r, v).value, w) && Ascending(w) ==> Canonicalize(r, v).value == Print(w)
  {
    ParseRecoversNormalized(r, v);
    NormalizeIsNormal(r, v);
    NormalIsKeyed(r, Normalize(r, v).value);
    OrderedExactly(Normalize(r, v).value, w);
    RenderPrintsOrdered(Normalize(r, v).value);
  }
}
