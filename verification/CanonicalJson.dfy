/** Canonical JSON (RFC 8785, section 3.2) as both browser applications produce it: normalization, and
    rendering with keys in UTF-16 order. Unicode normalization (NFC) is a parameter; a number is the
    text ECMAScript writes for it. */
module CanonicalJson {

  import opened Options
  import opened Calendar
  import opened Timestamps
  import opened StableSort

  const QUOTE: Unit := 34
  const COMMA: Unit := 44
  const BACKSLASH: Unit := 92

  predicate TokenUnit(u: Unit) {
    Digit(u) || u == DASH || u == PLUS || u == DOT || u == 69 || u == 101
  }

  predicate TokenText(t: Text) {
    t != [] && (Digit(t[0]) || t[0] == DASH) && forall i :: 0 <= i < |t| ==> TokenUnit(t[i])
  }

  type Token = t: Text | TokenText(t) witness [48]

  /** A number; `safe` says that it is no integer beyond 2^53 - 1. */
  datatype Number = NaN | Infinite | NegativeZero | Finite(token: Token, safe: bool)

  datatype Json =
    | Null
    | Bool(flag: bool)
    | Num(number: Number)
    | Str(text: Text)
    | Arr(items: seq<Json>)
    | Obj(fields: seq<(Text, Json)>)

  /** What differs between the applications and what Unicode decides. */
  datatype Rules = Rules(nfc: Text -> Text, stamp: Text -> Option<Text>)

  // ---------------------------------------------------------------- Unicode scalar text

  /** Every surrogate is one of a pair. */
  predicate Scalar(s: Text) {
    if s == [] then true
    else if High(s[0]) then |s| >= 2 && Low(s[1]) && Scalar(s[2..])
    else !Low(s[0]) && Scalar(s[1..])
  }

  function ScalarText(r: Rules, s: Text): Option<Text> {
    if Scalar(r.nfc(s)) then Some(r.nfc(s)) else None
  }

  /** `assertUnicodeScalarText`. */
  method AssertUnicodeScalarText(r: Rules, value: Text) returns (result: Option<Text>)
    ensures result == ScalarText(r, value)
  {
    var normalized := r.nfc(value);
    var index := 0;
    assert normalized[0..] == normalized;
    while index < |normalized|
      invariant 0 <= index <= |normalized| && Scalar(normalized[index..]) == Scalar(normalized)
    {
      var code := normalized[index];
      assert normalized[index..][1..] == normalized[index + 1..];
      if High(code) {
        if index + 1 >= |normalized| || !Low(normalized[index + 1]) { return None; }
        assert normalized[index..][2..] == normalized[index + 2..];
        index := index + 1;
      } else if Low(code) {
        return None;
      }
      index := index + 1;
    }
    assert normalized[index..] == [];
    return Some(normalized);
  }

  // ---------------------------------------------------------------- normalization

  /** `__proto__`: assigning to this key of a fresh object sets no property of its own. */
  const PROTO: Text := [95, 95, 112, 114, 111, 116, 111, 95, 95]

  function NormalizeText(r: Rules, s: Text): Option<Text> {
    var text := ScalarText(r, s);
    if text.Some? && TEE in text.value then r.stamp(text.value) else text
  }

  predicate HasKey(fields: seq<(Text, Json)>, key: Text) {
    exists i :: 0 <= i < |fields| && fields[i].0 == key
  }

  /** One turn of the loop over the entries of an object. */
  function AddField(r: Rules, done: Option<seq<(Text, Json)>>, rawKey: Text, item: Option<Json>): Option<seq<(Text, Json)>> {
    var key := ScalarText(r, rawKey);
    if done.None? || key.None? || HasKey(done.value, key.value) || item.None? then None
    else if key.value == PROTO then done
    else Some(done.value + [(key.value, item.value)])
  }

  /** `normalizeJson`; it throws where there is no result. */
  function Normalize(r: Rules, v: Json): Option<Json>
    decreases v, 1, 0
  {
    match v
    case Null => Some(v)
    case Bool(_) => Some(v)
    case Str(text) => (var t := NormalizeText(r, text); if t.Some? then Some(Str(t.value)) else None)
    case Num(n) => if n.Finite? && n.safe then Some(v) else None
    case Arr(items) => (var all := NormalizeItems(r, v, items); if all.Some? then Some(Arr(all.value)) else None)
    case Obj(fields) => (var all := NormalizeFields(r, v, fields); if all.Some? then Some(Obj(all.value)) else None)
  }

  function NormalizeItems(r: Rules, v: Json, items: seq<Json>): Option<seq<Json>>
    requires forall i :: 0 <= i < |items| ==> items[i] < v
    decreases v, 0, |items|
  {
    if items == [] then Some([])
    else
      var front, last := NormalizeItems(r, v, items[..|items| - 1]), Normalize(r, items[|items| - 1]);
      if front.Some? && last.Some? then Some(front.value + [last.value]) else None
  }

  function NormalizeFields(r: Rules, v: Json, fields: seq<(Text, Json)>): Option<seq<(Text, Json)>>
    requires forall i :: 0 <= i < |fields| ==> fields[i].1 < v
    decreases v, 0, |fields|
  {
    if fields == [] then Some([])
    else
      var last := fields[|fields| - 1];
      AddField(r, NormalizeFields(r, v, fields[..|fields| - 1]), last.0, Normalize(r, last.1))
  }

  lemma OneMoreField(r: Rules, v: Json, fields: seq<(Text, Json)>, i: nat)
    requires i < |fields| && forall k :: 0 <= k < |fields| ==> fields[k].1 < v
    ensures NormalizeFields(r, v, fields[..i + 1])
         == AddField(r, NormalizeFields(r, v, fields[..i]), fields[i].0, Normalize(r, fields[i].1))
  {
    assert fields[..i + 1][..i] == fields[..i];
  }

  lemma {:induction false} FieldsFail(r: Rules, v: Json, fields: seq<(Text, Json)>, i: nat)
    requires i <= |fields| && forall k :: 0 <= k < |fields| ==> fields[k].1 < v
    requires NormalizeFields(r, v, fields[..i]).None?
    ensures NormalizeFields(r, v, fields).None?
    decreases |fields| - i
  {
    if i == |fields| {
      assert fields[..i] == fields;
    } else {
      OneMoreField(r, v, fields, i);
      FieldsFail(r, v, fields, i + 1);
    }
  }

  lemma OneMoreItem(r: Rules, v: Json, items: seq<Json>, i: nat)
    requires i < |items| && forall k :: 0 <= k < |items| ==> items[k] < v
    ensures var front, last := NormalizeItems(r, v, items[..i]), Normalize(r, items[i]);
            NormalizeItems(r, v, items[..i + 1]) == if front.Some? && last.Some? then Some(front.value + [last.value]) else None
  {
    assert items[..i + 1][..i] == items[..i];
  }

  lemma {:induction false} ItemsFail(r: Rules, v: Json, items: seq<Json>, i: nat)
    requires i <= |items| && forall k :: 0 <= k < |items| ==> items[k] < v
    requires NormalizeItems(r, v, items[..i]).None?
    ensures NormalizeItems(r, v, items).None?
    decreases |items| - i
  {
    if i == |items| {
      assert items[..i] == items;
    } else {
      OneMoreItem(r, v, items, i);
      ItemsFail(r, v, items, i + 1);
    }
  }

  /** The loop over the entries of an object. */
  method NormalizeObject(r: Rules, v: Json, fields: seq<(Text, Json)>) returns (result: Option<seq<(Text, Json)>>)
    requires forall i :: 0 <= i < |fields| ==> fields[i].1 < v
    ensures result == NormalizeFields(r, v, fields)
    decreases v, 0
  {
    var normalized: seq<(Text, Json)> := [];
    for i := 0 to |fields|
      invariant NormalizeFields(r, v, fields[..i]) == Some(normalized)
    {
      OneMoreField(r, v, fields, i);
      var key := AssertUnicodeScalarText(r, fields[i].0);
      if key.None? || HasKey(normalized, key.value) {
        FieldsFail(r, v, fields, i + 1);
        return None;
      }
      var item := NormalizeJson(r, fields[i].1);
      if item.None? {
        FieldsFail(r, v, fields, i + 1);
        return None;
      }
      if key.value != PROTO { normalized := normalized + [(key.value, item.value)]; }
    }
    assert fields[..|fields|] == fields;
    return Some(normalized);
  }

  method NormalizeArray(r: Rules, v: Json, items: seq<Json>) returns (result: Option<seq<Json>>)
    requires forall i :: 0 <= i < |items| ==> items[i] < v
    ensures result == NormalizeItems(r, v, items)
    decreases v, 0
  {
    var normalized: seq<Json> := [];
    for i := 0 to |items|
      invariant NormalizeItems(r, v, items[..i]) == Some(normalized)
    {
      OneMoreItem(r, v, items, i);
      var item := NormalizeJson(r, items[i]);
      if item.None? {
        ItemsFail(r, v, items, i + 1);
        return None;
      }
      normalized := normalized + [item.value];
    }
    assert items[..|items|] == items;
    return Some(normalized);
  }

  method NormalizeJson(r: Rules, v: Json) returns (result: Option<Json>)
    ensures result == Normalize(r, v)
    decreases v, 1
  {
    match v {
      case Null => return Some(v);
      case Bool(_) => return Some(v);
      case Str(text) =>
        var normalized := AssertUnicodeScalarText(r, text);
        if normalized.None? { return None; }
        var t := if TEE in normalized.value then r.stamp(normalized.value) else normalized;
        return if t.Some? then Some(Str(t.value)) else None;
      case Num(n) => return if n.Finite? && n.safe then Some(v) else None;
      case Arr(items) =>
        var all := NormalizeArray(r, v, items);
        return if all.Some? then Some(Arr(all.value)) else None;
      case Obj(fields) =>
        var all := NormalizeObject(r, v, fields);
        return if all.Some? then Some(Obj(all.value)) else None;
    }
  }

  // ---------------------------------------------------------------- what normalization guarantees

  predicate Ascii(t: Text) { forall i :: 0 <= i < |t| ==> t[i] < 128 }

  ghost predicate StampLaw(stamp: Text -> Option<Text>) {
    forall s: Text, t: Text :: stamp(s) == Some(t) ==> stamp(t) == Some(t) && (t == s || Ascii(t))
  }

  /** What is taken of NFC, and what the timestamp normalizers provide. */
  ghost predicate Laws(r: Rules) {
    && (forall s: Text :: r.nfc(r.nfc(s)) == r.nfc(s))
    && (forall s: Text :: Ascii(s) ==> r.nfc(s) == s)
    && StampLaw(r.stamp)
  }

  predicate NormalText(r: Rules, t: Text) {
    ScalarText(r, t) == Some(t) && (TEE in t ==> r.stamp(t) == Some(t))
  }

  predicate NormalKey(r: Rules, k: Text) { ScalarText(r, k) == Some(k) && k != PROTO }

  predicate DistinctKeys(fields: seq<(Text, Json)>) {
    forall i, j :: 0 <= i < j < |fields| ==> fields[i].0 != fields[j].0
  }

  predicate Normal(r: Rules, v: Json) {
    match v
    case Null => true
    case Bool(_) => true
    case Num(n) => n.Finite? && n.safe
    case Str(text) => NormalText(r, text)
    case Arr(items) => forall i :: 0 <= i < |items| ==> Normal(r, items[i])
    case Obj(fields) =>
      DistinctKeys(fields) && forall i :: 0 <= i < |fields| ==> NormalKey(r, fields[i].0) && Normal(r, fields[i].1)
  }

  lemma {:induction false} AsciiIsScalar(t: Text)
    requires Ascii(t)
    ensures Scalar(t)
  {
    if t != [] { AsciiIsScalar(t[1..]); }
  }

  lemma NormalizedTextIsNormal(r: Rules, s: Text)
    requires Laws(r) && NormalizeText(r, s).Some?
    ensures NormalText(r, NormalizeText(r, s).value)
  {
    var n, t := r.nfc(s), NormalizeText(r, s).value;
    if t != n {
      assert r.stamp(n) == Some(t);
      AsciiIsScalar(t);
    }
  }

  predicate NormalFields(r: Rules, fields: seq<(Text, Json)>) {
    DistinctKeys(fields) && forall i :: 0 <= i < |fields| ==> NormalKey(r, fields[i].0) && Normal(r, fields[i].1)
  }

  lemma AddFieldIsNormal(r: Rules, done: seq<(Text, Json)>, rawKey: Text, item: Option<Json>)
    requires Laws(r) && NormalFields(r, done) && (item.Some? ==> Normal(r, item.value))
    ensures AddField(r, Some(done), rawKey, item).Some? ==> NormalFields(r, AddField(r, Some(done), rawKey, item).value)
  {
  }

  /** Whatever normalization returns is normal. */
  lemma {:induction false} NormalizeIsNormal(r: Rules, v: Json)
    requires Laws(r) && Normalize(r, v).Some?
    ensures Normal(r, Normalize(r, v).value)
    decreases v, 1, 0
  {
    match v
    case Str(text) => NormalizedTextIsNormal(r, text);
    case Arr(items) => ItemsAreNormal(r, v, items);
    case Obj(fields) => FieldsAreNormal(r, v, fields);
    case _ =>
  }

  lemma {:induction false} ItemsAreNormal(r: Rules, v: Json, items: seq<Json>)
    requires Laws(r) && (forall i :: 0 <= i < |items| ==> items[i] < v) && NormalizeItems(r, v, items).Some?
    ensures forall i :: 0 <= i < |NormalizeItems(r, v, items).value| ==> Normal(r, NormalizeItems(r, v, items).value[i])
    decreases v, 0, |items|
  {
    if items != [] {
      ItemsAreNormal(r, v, items[..|items| - 1]);
      NormalizeIsNormal(r, items[|items| - 1]);
    }
  }

  lemma {:induction false} FieldsAreNormal(r: Rules, v: Json, fields: seq<(Text, Json)>)
    requires Laws(r) && (forall i :: 0 <= i < |fields| ==> fields[i].1 < v) && NormalizeFields(r, v, fields).Some?
    ensures NormalFields(r, NormalizeFields(r, v, fields).value)
    decreases v, 0, |fields|
  {
    if fields != [] {
      var last := fields[|fields| - 1];
      FieldsAreNormal(r, v, fields[..|fields| - 1]);
      NormalizeIsNormal(r, last.1);
      AddFieldIsNormal(r, NormalizeFields(r, v, fields[..|fields| - 1]).value, last.0, Normalize(r, last.1));
    }
  }

  /** And what is normal stays as it is. */
  lemma {:induction false} NormalIsFixed(r: Rules, v: Json)
    requires Normal(r, v)
    ensures Normalize(r, v) == Some(v)
    decreases v, 1, 0
  {
    match v
    case Arr(items) => ItemsAreFixed(r, v, items);
    case Obj(fields) => FieldsAreFixed(r, v, fields);
    case _ =>
  }

  lemma {:induction false} ItemsAreFixed(r: Rules, v: Json, items: seq<Json>)
    requires (forall i :: 0 <= i < |items| ==> items[i] < v) && forall i :: 0 <= i < |items| ==> Normal(r, items[i])
    ensures NormalizeItems(r, v, items) == Some(items)
    decreases v, 0, |items|
  {
    if items != [] {
      var front, last := items[..|items| - 1], items[|items| - 1];
      ItemsAreFixed(r, v, front);
      NormalIsFixed(r, last);
      assert items == front + [last];
    }
  }

  lemma {:induction false} FieldsAreFixed(r: Rules, v: Json, fields: seq<(Text, Json)>)
    requires (forall i :: 0 <= i < |fields| ==> fields[i].1 < v) && NormalFields(r, fields)
    ensures NormalizeFields(r, v, fields) == Some(fields)
    decreases v, 0, |fields|
  {
    if fields != [] {
      var front, last := fields[..|fields| - 1], fields[|fields| - 1];
      FieldsAreFixed(r, v, front);
      NormalIsFixed(r, last.1);
      assert fields == front + [last];
      assert !HasKey(front, last.0);
    }
  }

  lemma NormalizeIsIdempotent(r: Rules, v: Json)
    requires Laws(r) && Normalize(r, v).Some?
    ensures Normalize(r, Normalize(r, v).value) == Normalize(r, v)
  {
    NormalizeIsNormal(r, v);
    NormalIsFixed(r, Normalize(r, v).value);
  }

  lemma YearIsAscii(y: int)
    ensures Ascii(WriteYear(y))
  {
  }

  lemma IsoIsAscii(t: Time)
    requires ProperTime(t)
    ensures Ascii(Iso(t))
  {
    YearIsAscii(DateOf(t.day).year);
    TimesAreWritable(t);
    WrittenIsAscii(DateOf(t.day), ClockOf(t));
  }

  lemma WrittenIsAscii(date: Date, c: Clock)
    requires Writable(date, c) && Ascii(WriteYear(date.year))
    ensures Ascii(WriteTime(date, c))
  {
    assert Ascii(WriteFields(date.month + 1, date.day, c));
    assert Ascii(WriteTail(c.ms));
  }

  lemma PresentationStampLaw(s: Text, t: Text)
    requires NormalizePresentation(s) == Some(t)
    ensures NormalizePresentation(t) == Some(t) && (t == s || Ascii(t))
  {
    PresentationIsIdempotent(s, t);
    if t != s { var time := ResultIsIso(s, t); IsoIsAscii(time); }
  }

  lemma ManifestStampLaw(s: Text, t: Text)
    requires NormalizeManifest(s) == Some(t)
    ensures NormalizeManifest(t) == Some(t) && (t == s || Ascii(t))
  {
    ManifestIsIdempotent(s, t);
    if t != s { var time := ResultIsIso(s, t); IsoIsAscii(time); }
  }

  predicate ObeysOn(stamp: Text -> Option<Text>, s: Text) {
    match stamp(s)
    case None => true
    case Some(t) => stamp(t) == Some(t) && (t == s || Ascii(t))
  }

  lemma PresentationObeys(s: Text)
    ensures ObeysOn(NormalizePresentation, s)
  {
    var t := NormalizePresentation(s);
    if t.Some? { PresentationStampLaw(s, t.value); }
  }

  lemma ManifestObeys(s: Text)
    ensures ObeysOn(NormalizeManifest, s)
  {
    var t := NormalizeManifest(s);
    if t.Some? { ManifestStampLaw(s, t.value); }
  }

  lemma ObeyingEverywhere(stamp: Text -> Option<Text>)
    requires forall s: Text :: ObeysOn(stamp, s)
    ensures StampLaw(stamp)
  {
    forall s: Text, t: Text | stamp(s) == Some(t) ensures stamp(t) == Some(t) && (t == s || Ascii(t)) {
      assert ObeysOn(stamp, s);
    }
  }

  /** Both applications follow the laws, whatever NFC is, if it is idempotent and leaves ASCII alone. */
  lemma ApplicationsFollowLaws(nfc: Text -> Text)
    requires (forall s: Text :: nfc(nfc(s)) == nfc(s)) && forall s: Text :: Ascii(s) ==> nfc(s) == s
    ensures Laws(Rules(nfc, NormalizePresentation)) && Laws(Rules(nfc, NormalizeManifest))
  {
    forall s: Text ensures ObeysOn(NormalizePresentation, s) && ObeysOn(NormalizeManifest, s) {
      PresentationObeys(s);
      ManifestObeys(s);
    }
    ObeyingEverywhere(NormalizePresentation);
    ObeyingEverywhere(NormalizeManifest);
  }

  /** An object loses entries exactly when one of its keys normalizes to `__proto__`. */
  lemma {:induction false} OnlyProtoIsLost(r: Rules, v: Json, fields: seq<(Text, Json)>)
    requires (forall i :: 0 <= i < |fields| ==> fields[i].1 < v) && NormalizeFields(r, v, fields).Some?
    ensures |NormalizeFields(r, v, fields).value| <= |fields|
    ensures |NormalizeFields(r, v, fields).value| == |fields|
       <==> forall i :: 0 <= i < |fields| ==> r.nfc(fields[i].0) != PROTO
    decreases |fields|
  {
    if fields != [] {
      var front := fields[..|fields| - 1];
      OnlyProtoIsLost(r, v, front);
      assert forall i :: 0 <= i < |front| ==> front[i] == fields[i];
      if forall i :: 0 <= i < |fields| ==> r.nfc(fields[i].0) != PROTO {
        forall i | 0 <= i < |front| ensures r.nfc(front[i].0) != PROTO { assert front[i] == fields[i]; }
      }
      if r.nfc(fields[|fields| - 1].0) != PROTO && forall i :: 0 <= i < |front| ==> r.nfc(front[i].0) != PROTO {
        forall i | 0 <= i < |fields| ensures r.nfc(fields[i].0) != PROTO {
          if i < |front| { assert front[i] == fields[i]; }
        }
      }
    }
  }

  lemma ProtoIsScalar(r: Rules, key: Text, proto: Text)
    requires Laws(r) && r.nfc(key) == proto && Ascii(proto)
    ensures ScalarText(r, key) == Some(proto)
  {
    AsciiIsScalar(proto);
  }

  lemma ProtoIsAscii()
    ensures Ascii(PROTO)
  {
  }

  lemma AddsNothing(r: Rules, done: Option<seq<(Text, Json)>>, key: Text, item: Option<Json>)
    requires ScalarText(r, key) == Some(PROTO) && done.Some? && !HasKey(done.value, PROTO) && item.Some?
    ensures AddField(r, done, key, item) == done
  {
  }

  /** No normalized object has an entry under `__proto__`. */
  lemma {:induction false} ProtoIsNeverKept(r: Rules, v: Json, fields: seq<(Text, Json)>)
    requires (forall i :: 0 <= i < |fields| ==> fields[i].1 < v) && NormalizeFields(r, v, fields).Some?
    ensures !HasKey(NormalizeFields(r, v, fields).value, PROTO)
    decreases |fields|
  {
    if fields != [] {
      var last := fields[|fields| - 1];
      ProtoIsNeverKept(r, v, fields[..|fields| - 1]);
      NeverAdded(r, NormalizeFields(r, v, fields[..|fields| - 1]), last.0, Normalize(r, last.1));
    }
  }

  lemma NeverAdded(r: Rules, done: Option<seq<(Text, Json)>>, key: Text, item: Option<Json>)
    requires done.Some? && !HasKey(done.value, PROTO) && AddField(r, done, key, item).Some?
    ensures !HasKey(AddField(r, done, key, item).value, PROTO)
  {
  }

  lemma AppendedField(r: Rules, v: Json, fields: seq<(Text, Json)>, last: (Text, Json))
    requires v == Obj(fields + [last])
    ensures NormalizeFields(r, v, fields + [last])
         == AddField(r, NormalizeFields(r, Obj(fields), fields), last.0, Normalize(r, last.1))
  {
    assert (fields + [last])[..|fields|] == fields;
    SameFields(r, v, Obj(fields), fields);
  }

  /** An entry under `__proto__` leaves no trace: documents that differ only in it normalize alike. */
  lemma ProtoIsInvisible(r: Rules, v: Json, fields: seq<(Text, Json)>, key: Text, item: Json)
    requires Laws(r) && v == Obj(fields + [(key, item)]) && r.nfc(key) == PROTO
    requires Normalize(r, item).Some? && NormalizeFields(r, Obj(fields), fields).Some?
    ensures Normalize(r, v) == Normalize(r, Obj(fields))
  {
    ProtoIsAscii();
    ProtoIsScalar(r, key, PROTO);
    ProtoIsNeverKept(r, Obj(fields), fields);
    AddsNothing(r, NormalizeFields(r, Obj(fields), fields), key, Normalize(r, item));
    AppendedField(r, v, fields, (key, item));
  }

  /** Normalizing a list of entries does not depend on the value it is taken from. */
  lemma {:induction false} SameFields(r: Rules, v: Json, w: Json, fields: seq<(Text, Json)>)
    requires forall i :: 0 <= i < |fields| ==> fields[i].1 < v && fields[i].1 < w
    ensures NormalizeFields(r, v, fields) == NormalizeFields(r, w, fields)
  {
    if fields != [] { SameFields(r, v, w, fields[..|fields| - 1]); }
  }
}
