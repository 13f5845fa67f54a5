/** A parser for canonical JSON text. It recovers what was printed, so equal canonical texts come from
    equal normalized values. */
module CanonicalParser {

  import opened Options
  import opened Timestamps
  import opened StableSort
  import opened CanonicalJson
  import opened CanonicalText

  // ---------------------------------------------------------------- strings

  function HexValue(u: Unit): int {
    if Digit(u) then u as int - 48 else if 97 <= u <= 102 then u as int - 87 else -1
  }

  function ShortEscape(u: Unit): Option<Unit> {
    if u == QUOTE then Some(QUOTE)
    else if u == BACKSLASH then Some(BACKSLASH)
    else if u == 98 then Some(8)
    else if u == 116 then Some(9)
    else if u == 110 then Some(10)
    else if u == 102 then Some(12)
    else if u == 114 then Some(13)
    else None
  }

  /** The next code unit of a string and how much text it takes. */
  function TakeUnit(s: Text): (r: Option<(Unit, nat)>)
    ensures r.Some? ==> 1 <= r.value.1 <= |s|
  {
    if s == [] || s[0] == QUOTE || s[0] < 32 then None
    else if s[0] != BACKSLASH then Some((s[0], 1))
    else if |s| >= 2 && ShortEscape(s[1]).Some? then Some((ShortEscape(s[1]).value, 2))
    else if |s| >= 6 && s[1] == 117 && s[2] == 48 && s[3] == 48 && HexValue(s[4]) >= 0 && HexValue(s[5]) >= 0
    then Some((HexValue(s[4]) * 16 + HexValue(s[5]), 6))
    else None
  }

  /** A string up to its closing quote. */
  function ParseChars(s: Text): (r: Option<(Text, Text)>)
    ensures r.Some? ==> |r.value.1| < |s|
    decreases |s|
  {
    if s != [] && s[0] == QUOTE then Some(([], s[1..]))
    else
      var u := TakeUnit(s);
      if u.None? then None
      else
        var rest := ParseChars(s[u.value.1..]);
        if rest.None? then None else Some(([u.value.0] + rest.value.0, rest.value.1))
  }

  lemma HexReturns(n: int)
    requires 0 <= n < 16
    ensures HexValue(Hex(n)) == n
  {
  }

  lemma TakeEscaped(u: Unit, rest: Text)
    ensures TakeUnit(Escape(u) + rest) == Some((u, |Escape(u)|)) && (Escape(u) + rest)[|Escape(u)|..] == rest
    ensures Escape(u)[0] != QUOTE
  {
    var s := Escape(u) + rest;
    assert s[|Escape(u)|..] == rest;
    if u < 32 && ShortEscape(s[1]).None? {
      HexReturns(u / 16);
      HexReturns(u % 16);
    }
  }

  lemma {:induction false} ParseEscaped(t: Text, rest: Text)
    ensures ParseChars(EscapeAll(t) + ([QUOTE] + rest)) == Some((t, rest))
  {
    var s := EscapeAll(t) + ([QUOTE] + rest);
    if t == [] {
      assert s == [QUOTE] + rest && s[1..] == rest;
    } else {
      var tail := EscapeAll(t[1..]) + ([QUOTE] + rest);
      assert s == Escape(t[0]) + tail;
      TakeEscaped(t[0], tail);
      ParseEscaped(t[1..], rest);
      assert s[0] == Escape(t[0])[0];
      assert [t[0]] + t[1..] == t;
    }
  }

  // ---------------------------------------------------------------- values

  function TokenRun(s: Text): (n: nat)
    ensures n <= |s|
  {
    if s != [] && TokenUnit(s[0]) then 1 + TokenRun(s[1..]) else 0
  }

  function ParseNumber(s: Text): (r: Option<(Json, Text)>)
    ensures r.Some? ==> |r.value.1| < |s|
  {
    var n := TokenRun(s);
    if TokenText(s[..n]) then Some((Num(Finite(s[..n], true)), s[n..])) else None
  }

  function ParseString(s: Text): (r: Option<(Text, Text)>)
    ensures r.Some? ==> |r.value.1| < |s|
  {
    if s != [] && s[0] == QUOTE then ParseChars(s[1..]) else None
  }

  function Parse(s: Text): (r: Option<(Json, Text)>)
    ensures r.Some? ==> |r.value.1| < |s|
    decreases |s|, 1
  {
    if s == [] then None
    else if s[0] == 110 then (if NULL <= s then Some((Null, s[4..])) else None)
    else if s[0] == 116 then (if TRUE <= s then Some((Bool(true), s[4..])) else None)
    else if s[0] == 102 then (if FALSE <= s then Some((Bool(false), s[5..])) else None)
    else if s[0] == QUOTE then (var t := ParseString(s); if t.None? then None else Some((Str(t.value.0), t.value.1)))
    else if s[0] == 91 then
      (if |s| >= 2 && s[1] == 93 then Some((Arr([]), s[2..]))
       else var items := ParseItems(s[1..]); if items.None? then None else Some((Arr(items.value.0), items.value.1)))
    else if s[0] == 123 then
      (if |s| >= 2 && s[1] == 125 then Some((Obj([]), s[2..]))
       else var fields := ParseFields(s[1..]); if fields.None? then None else Some((Obj(fields.value.0), fields.value.1)))
    else ParseNumber(s)
  }

  function ParseItems(s: Text): (r: Option<(seq<Json>, Text)>)
    ensures r.Some? ==> |r.value.1| < |s|
    decreases |s|, 2
  {
    var first := Parse(s);
    if first.None? || first.value.1 == [] then None
    else if first.value.1[0] == 93 then Some(([first.value.0], first.value.1[1..]))
    else if first.value.1[0] != COMMA then None
    else
      var rest := ParseItems(first.value.1[1..]);
      if rest.None? then None else Some(([first.value.0] + rest.value.0, rest.value.1))
  }

  function ParseField(s: Text): (r: Option<(Field, Text)>)
    ensures r.Some? ==> |r.value.1| < |s|
    decreases |s|, 2
  {
    var key := ParseString(s);
    if key.None? || key.value.1 == [] || key.value.1[0] != COLON then None
    else
      var value := Parse(key.value.1[1..]);
      if value.None? then None else Some(((key.value.0, value.value.0), value.value.1))
  }

  function ParseFields(s: Text): (r: Option<(seq<Field>, Text)>)
    ensures r.Some? ==> |r.value.1| < |s|
    decreases |s|, 3
  {
    var first := ParseField(s);
    if first.None? || first.value.1 == [] then None
    else if first.value.1[0] == 125 then Some(([first.value.0], first.value.1[1..]))
    else if first.value.1[0] != COMMA then None
    else
      var rest := ParseFields(first.value.1[1..]);
      if rest.None? then None else Some(([first.value.0] + rest.value.0, rest.value.1))
  }

  // ---------------------------------------------------------------- the parser recovers the value

  /** All numbers are finite, and no integer is out of the safe range. */
  predicate Sound(v: Json) {
    match v
    case Num(n) => n.Finite? && n.safe
    case Arr(items) => forall i :: 0 <= i < |items| ==> Sound(items[i])
    case Obj(fields) => forall i :: 0 <= i < |fields| ==> Sound(fields[i].1)
    case _ => true
  }

  /** What follows is not part of a number. */
  predicate Stops(rest: Text) { rest == [] || !TokenUnit(rest[0]) }

  lemma {:induction false} RunStops(t: Text, rest: Text)
    requires (forall i :: 0 <= i < |t| ==> TokenUnit(t[i])) && Stops(rest)
    ensures TokenRun(t + rest) == |t|
  {
    if t == [] {
      assert t + rest == rest;
    } else {
      assert (t + rest)[1..] == t[1..] + rest;
      RunStops(t[1..], rest);
    }
  }

  lemma ParsePrintedNumber(n: Number, rest: Text)
    requires n.Finite? && n.safe && Stops(rest)
    ensures Parse(NumberText(n) + rest) == Some((Num(n), rest))
  {
    var s := n.token + rest;
    RunStops(n.token, rest);
    assert s[..|n.token|] == n.token && s[|n.token|..] == rest;
    assert s[0] == n.token[0];
  }

  lemma ParseQuoted(t: Text, rest: Text)
    ensures ParseString(Quoted(t) + rest) == Some((t, rest)) && (Quoted(t) + rest)[0] == QUOTE
  {
    ParseEscaped(t, rest);
    assert (Quoted(t) + rest)[1..] == EscapeAll(t) + ([QUOTE] + rest);
  }

  lemma ParseWord(s: Text, word: Text, rest: Text)
    requires s == word + rest
    ensures word <= s && s[|word|..] == rest
  {
  }

  /** The first unit of a printed value closes nothing. */
  lemma PrintOpens(v: Json)
    requires Sound(v)
    ensures Print(v) != [] && Print(v)[0] != 93 && Print(v)[0] != 125
  {
  }

  lemma {:induction false} ParsePrint(v: Json, rest: Text, s: Text)
    requires Sound(v) && Stops(rest) && s == Print(v) + rest
    ensures Parse(s) == Some((v, rest))
    decreases v, 2, 0
  {
    match v
    case Null => ParseWord(s, NULL, rest);
    case Bool(flag) => ParseWord(s, if flag then TRUE else FALSE, rest);
    case Num(n) => ParsePrintedNumber(n, rest);
    case Str(t) => ParseQuoted(t, rest);
    case Arr(items) => ParsePrintedArray(v, items, rest, s);
    case Obj(fields) => ParsePrintedObject(v, fields, rest, s);
  }

  lemma ParseArrayBody(s: Text, body: Text, items: seq<Json>, rest: Text)
    requires s == [91] + body && body != [] && body[0] != 93 && ParseItems(body) == Some((items, rest))
    ensures Parse(s) == Some((Arr(items), rest))
  {
    assert s[1..] == body;
  }

  lemma EmptyArray(v: Json, rest: Text, s: Text)
    requires v == Arr([]) && s == Print(v) + rest
    ensures Parse(s) == Some((v, rest))
  {
    assert s[1] == 93 && s[2..] == rest;
  }

  lemma ItemsOpen(v: Json, items: seq<Json>)
    requires v == Arr(items) && items != [] && Sound(v)
    ensures PrintItems(v, items) != [] && PrintItems(v, items)[0] != 93
  {
    PrintOpens(items[0]);
  }

  lemma Bracketed(inner: Text, rest: Text)
    ensures ([91] + inner + [93]) + rest == [91] + (inner + ([93] + rest))
  {
  }

  lemma ArrayText(v: Json, items: seq<Json>, rest: Text, s: Text, body: Text)
    requires v == Arr(items) && items != [] && Sound(v) && s == Print(v) + rest
    requires body == PrintItems(v, items) + ([93] + rest)
    ensures s == [91] + body && body != [] && body[0] != 93
  {
    ItemsOpen(v, items);
    Bracketed(PrintItems(v, items), rest);
  }

  lemma {:induction false} ParsePrintedArray(v: Json, items: seq<Json>, rest: Text, s: Text)
    requires v == Arr(items) && Sound(v) && Stops(rest) && s == Print(v) + rest
    ensures Parse(s) == Some((v, rest))
    decreases v, 1, 0
  {
    if items == [] {
      EmptyArray(v, rest, s);
    } else {
      var body := PrintItems(v, items) + ([93] + rest);
      ParsePrintedItems(v, items, rest, body);
      ArrayText(v, items, rest, s, body);
      ParseArrayBody(s, body, items, rest);
    }
  }

  lemma LastItem(s: Text, item: Json, rest: Text)
    requires Parse(s) == Some((item, [93] + rest))
    ensures ParseItems(s) == Some(([item], rest))
  {
    assert ([93] + rest)[1..] == rest;
  }

  lemma NextItem(s: Text, item: Json, tail: Text, items: seq<Json>, rest: Text)
    requires Parse(s) == Some((item, [COMMA] + tail)) && ParseItems(tail) == Some((items, rest))
    ensures ParseItems(s) == Some(([item] + items, rest))
  {
    assert ([COMMA] + tail)[1..] == tail;
  }

  lemma PrintItemsHead(v: Json, items: seq<Json>, rest: Text)
    requires items != [] && forall i :: 0 <= i < |items| ==> items[i] < v
    ensures PrintItems(v, items) + rest
         == Print(items[0]) + (if |items| == 1 then rest else [COMMA] + (PrintItems(v, items[1..]) + rest))
  {
  }

  lemma {:induction false} ParsePrintedItems(v: Json, items: seq<Json>, rest: Text, s: Text)
    requires items != [] && (forall i :: 0 <= i < |items| ==> items[i] < v && Sound(items[i]))
    requires s == PrintItems(v, items) + ([93] + rest)
    ensures ParseItems(s) == Some((items, rest))
    decreases v, 0, |items|
  {
    PrintItemsHead(v, items, [93] + rest);
    if |items| == 1 {
      ParsePrint(items[0], [93] + rest, s);
      LastItem(s, items[0], rest);
      assert items == [items[0]];
    } else {
      var tail := PrintItems(v, items[1..]) + ([93] + rest);
      ParsePrint(items[0], [COMMA] + tail, s);
      ParsePrintedItems(v, items[1..], rest, tail);
      NextItem(s, items[0], tail, items[1..], rest);
      assert [items[0]] + items[1..] == items;
    }
  }

  lemma ParseObjectBody(s: Text, body: Text, fields: seq<Field>, rest: Text)
    requires s == [123] + body && body != [] && body[0] != 125 && ParseFields(body) == Some((fields, rest))
    ensures Parse(s) == Some((Obj(fields), rest))
  {
    assert s[1..] == body;
  }

  lemma EmptyObject(v: Json, rest: Text, s: Text)
    requires v == Obj([]) && s == Print(v) + rest
    ensures Parse(s) == Some((v, rest))
  {
    assert s[1] == 125 && s[2..] == rest;
  }

  lemma ObjectText(v: Json, fields: seq<Field>, rest: Text, s: Text, body: Text)
    requires v == Obj(fields) && fields != [] && s == Print(v) + rest
    requires body == PrintFields(v, fields) + ([125] + rest)
    ensures s == [123] + body && body != [] && body[0] != 125
  {
    FieldsStartQuoted(v, fields);
    Braced(PrintFields(v, fields), rest);
  }

  lemma FieldsStartQuoted(v: Json, fields: seq<Field>)
    requires v == Obj(fields) && fields != []
    ensures PrintFields(v, fields) != [] && PrintFields(v, fields)[0] == QUOTE
  {
  }

  lemma Braced(inner: Text, rest: Text)
    ensures ([123] + inner + [125]) + rest == [123] + (inner + ([125] + rest))
  {
  }

  lemma {:induction false} ParsePrintedObject(v: Json, fields: seq<Field>, rest: Text, s: Text)
    requires v == Obj(fields) && Sound(v) && Stops(rest) && s == Print(v) + rest
    ensures Parse(s) == Some((v, rest))
    decreases v, 1, 0
  {
    if fields == [] {
      EmptyObject(v, rest, s);
    } else {
      var body := PrintFields(v, fields) + ([125] + rest);
      ParsePrintedFields(v, fields, rest, body);
      ObjectText(v, fields, rest, s, body);
      ParseObjectBody(s, body, fields, rest);
    }
  }

  lemma LastField(s: Text, field: Field, rest: Text)
    requires ParseField(s) == Some((field, [125] + rest))
    ensures ParseFields(s) == Some(([field], rest))
  {
    assert ([125] + rest)[1..] == rest;
  }

  lemma NextField(s: Text, field: Field, tail: Text, fields: seq<Field>, rest: Text)
    requires ParseField(s) == Some((field, [COMMA] + tail)) && ParseFields(tail) == Some((fields, rest))
    ensures ParseFields(s) == Some(([field] + fields, rest))
  {
    assert ([COMMA] + tail)[1..] == tail;
  }

  /** A field, what it is printed as, and what follows. */
  function FieldText(field: Field, rest: Text): Text { Quoted(field.0) + ([COLON] + (Print(field.1) + rest)) }

  lemma PrintFieldsHead(v: Json, fields: seq<Field>, rest: Text)
    requires fields != [] && forall i :: 0 <= i < |fields| ==> fields[i].1 < v
    ensures PrintFields(v, fields) + rest
         == FieldText(fields[0], if |fields| == 1 then rest else [COMMA] + (PrintFields(v, fields[1..]) + rest))
  {
  }

  lemma ParseFieldParts(s: Text, key: Text, after: Text, value: Json, rest: Text)
    requires ParseString(s) == Some((key, [COLON] + after)) && Parse(after) == Some((value, rest))
    ensures ParseField(s) == Some(((key, value), rest))
  {
    assert ([COLON] + after)[1..] == after;
  }

  lemma {:induction false} ParsePrintedField(v: Json, field: Field, rest: Text, s: Text)
    requires field.1 < v && Sound(field.1) && Stops(rest) && s == FieldText(field, rest)
    ensures ParseField(s) == Some((field, rest))
    decreases v, 0, 0
  {
    var after := Print(field.1) + rest;
    ParseQuoted(field.0, [COLON] + after);
    ParsePrint(field.1, rest, after);
    ParseFieldParts(s, field.0, after, field.1, rest);
  }

  lemma {:induction false} ParsePrintedFields(v: Json, fields: seq<Field>, rest: Text, s: Text)
    requires fields != [] && (forall i :: 0 <= i < |fields| ==> fields[i].1 < v && Sound(fields[i].1))
    requires s == PrintFields(v, fields) + ([125] + rest)
    ensures ParseFields(s) == Some((fields, rest))
    decreases v, 0, |fields|
  {
    PrintFieldsHead(v, fields, [125] + rest);
    if |fields| == 1 {
      ParsePrintedField(v, fields[0], [125] + rest, s);
      LastField(s, fields[0], rest);
      assert fields == [fields[0]];
    } else {
      var tail := PrintFields(v, fields[1..]) + ([125] + rest);
      ParsePrintedField(v, fields[0], [COMMA] + tail, s);
      ParsePrintedFields(v, fields[1..], rest, tail);
      NextField(s, fields[0], tail, fields[1..], rest);
      assert [fields[0]] + fields[1..] == fields;
    }
  }

  // ---------------------------------------------------------------- faithfulness

  lemma {:induction false} NormalIsSound(r: Rules, v: Json)
    requires Normal(r, v)
    ensures Sound(v)
    decreases v
  {
    match v
    case Arr(items) => forall i | 0 <= i < |items| ensures Sound(items[i]) { NormalIsSound(r, items[i]); }
    case Obj(fields) => forall i | 0 <= i < |fields| ensures Sound(fields[i].1) { NormalIsSound(r, fields[i].1); }
    case _ =>
  }

  lemma {:induction false} OrderedIsSound(v: Json)
    requires Sound(v)
    ensures Sound(Ordered(v))
    decreases v, 1, 0
  {
    match v
    case Arr(items) => OrderedItemsAreSound(v, items);
    case Obj(fields) =>
      SortedFieldsAreInside(fields, v);
      forall i | 0 <= i < |fields| ensures Sound(SortFields(fields)[i].1) {
        assert SortFields(fields)[i] in fields;
      }
      OrderedFieldsAreSound(v, SortFields(fields));
    case _ =>
  }

  lemma {:induction false} OrderedItemsAreSound(v: Json, items: seq<Json>)
    requires forall i :: 0 <= i < |items| ==> items[i] < v && Sound(items[i])
    ensures forall i :: 0 <= i < |items| ==> Sound(OrderedItems(v, items)[i])
    decreases v, 0, |items|
  {
    if items != [] {
      OrderedIsSound(items[0]);
      OrderedItemsAreSound(v, items[1..]);
    }
  }

  lemma {:induction false} OrderedFieldsAreSound(v: Json, fields: seq<Field>)
    requires forall i :: 0 <= i < |fields| ==> fields[i].1 < v && Sound(fields[i].1)
    ensures forall i :: 0 <= i < |fields| ==> Sound(OrderedFields(v, fields)[i].1)
    decreases v, 0, |fields|
  {
    if fields != [] {
      OrderedIsSound(fields[0].1);
      OrderedFieldsAreSound(v, fields[1..]);
    }
  }

  /** Parsing the canonical text gives back the normalized value, its keys in order. */
  lemma ParseRecoversNormalized(r: Rules, v: Json)
    requires Laws(r) && Canonicalize(r, v).Some?
    ensures Parse(Canonicalize(r, v).value) == Some((Ordered(Normalize(r, v).value), []))
  {
    var n := Normalize(r, v).value;
    NormalizeIsNormal(r, v);
    NormalIsSound(r, n);
    OrderedIsSound(n);
    RenderPrintsOrdered(n);
    assert Print(Ordered(n)) + [] == Print(Ordered(n));
    ParsePrint(Ordered(n), [], Print(Ordered(n)));
  }

  /** Canonical texts are equal exactly when the normalized values are, up to the order of keys. */
  lemma EqualTextsMeanEqualValues(r: Rules, v: Json, w: Json)
    requires Laws(r) && Canonicalize(r, v).Some? && Canonicalize(r, w).Some?
    ensures Canonicalize(r, v) == Canonicalize(r, w) <==> Ordered(Normalize(r, v).value) == Ordered(Normalize(r, w).value)
  {
    ParseRecoversNormalized(r, v);
    ParseRecoversNormalized(r, w);
    RenderPrintsOrdered(Normalize(r, v).value);
    RenderPrintsOrdered(Normalize(r, w).value);
  }
}
