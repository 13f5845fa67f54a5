/** No text of a value is shorter than the printed one, and no other is as short: nothing is written
    that could be left out, and no character is escaped that need not be. */
module CanonicalShortest {

  import opened Options
  import opened Timestamps
  import opened CanonicalJson
  import opened CanonicalText
  import opened CanonicalParser

  /** `s` ends in `rest`; what comes before is no shorter than `best`, and `best` itself if as short. */
  predicate Beats(best: Text, s: Text, rest: Text) {
    |best| + |rest| <= |s| && (|best| + |rest| == |s| ==> s == best + rest)
  }

  lemma Follow(first: Text, s: Text, next: Text, second: Text, rest: Text)
    requires Beats(first, s, next) && Beats(second, next, rest)
    ensures Beats(first + second, s, rest)
  {
    assert first + (second + rest) == (first + second) + rest;
  }

  lemma One(u: Unit, s: Text)
    requires s != [] && s[0] == u
    ensures Beats([u], s, s[1..])
  {
  }

  lemma Closed(first: Text, s: Text, after: Text, close: Unit)
    requires Beats(first, s, after) && after != [] && after[0] == close
    ensures Beats(first + [close], s, after[1..])
  {
    One(close, after);
    Follow(first, s, after, [close], after[1..]);
  }

  lemma Joined(first: Text, s: Text, after: Text, inner: Text, close: Unit, rest: Text)
    requires Beats(first, s, after) && after != [] && after[0] == COMMA && Beats(inner + [close], after[1..], rest)
    ensures Beats((first + ([COMMA] + inner)) + [close], s, rest)
  {
    One(COMMA, after);
    Follow([COMMA], after, after[1..], inner + [close], rest);
    Follow(first, s, after, [COMMA] + (inner + [close]), rest);
    assert (first + ([COMMA] + inner)) + [close] == first + ([COMMA] + (inner + [close]));
  }

  /** The escape is the shortest spelling of its code unit. */
  lemma UnitShortest(s: Text)
    requires TakeUnit(s).Some?
    ensures Beats(Escape(TakeUnit(s).value.0), s, s[TakeUnit(s).value.1..])
  {
    var (u, n) := TakeUnit(s).value;
    assert s == s[..n] + s[n..];
    if n == 6 && |Escape(u)| == 6 {
      assert u / 16 == HexValue(s[4]) && u % 16 == HexValue(s[5]);
      assert s[..6] == Escape(u);
    } else if n == 2 {
      assert s[..2] == Escape(u);
    } else if n == 1 {
      assert s[..1] == Escape(u);
    }
  }

  lemma {:induction false} CharsShortest(s: Text)
    requires ParseChars(s).Some?
    ensures Beats(EscapeAll(ParseChars(s).value.0) + [QUOTE], s, ParseChars(s).value.1)
    decreases |s|
  {
    if s[0] == QUOTE {
      assert EscapeAll([]) + [QUOTE] == [QUOTE];
      One(QUOTE, s);
    } else {
      var (u, n) := TakeUnit(s).value;
      var (t, rest) := ParseChars(s[n..]).value;
      UnitShortest(s);
      CharsShortest(s[n..]);
      Follow(Escape(u), s, s[n..], EscapeAll(t) + [QUOTE], rest);
      assert EscapeAll([u] + t) + [QUOTE] == Escape(u) + (EscapeAll(t) + [QUOTE]) by { assert ([u] + t)[1..] == t; }
    }
  }

  lemma StringShortest(s: Text)
    requires ParseString(s).Some?
    ensures Beats(Quoted(ParseString(s).value.0), s, ParseString(s).value.1)
  {
    var (t, rest) := ParseString(s).value;
    One(QUOTE, s);
    CharsShortest(s[1..]);
    Follow([QUOTE], s, s[1..], EscapeAll(t) + [QUOTE], rest);
    assert Quoted(t) == [QUOTE] + (EscapeAll(t) + [QUOTE]);
  }

  lemma NumberShortest(s: Text)
    requires ParseNumber(s).Some?
    ensures Beats(Print(ParseNumber(s).value.0), s, ParseNumber(s).value.1)
  {
  }

  lemma WordShortest(word: Text, s: Text)
    requires word <= s
    ensures Beats(word, s, s[|word|..])
  {
  }

  lemma {:induction false} ValueShortest(s: Text)
    requires Parse(s).Some?
    ensures Beats(Print(Parse(s).value.0), s, Parse(s).value.1)
    decreases |s|, 1
  {
    var (v, rest) := Parse(s).value;
    if s[0] == 110 { WordShortest(NULL, s); }
    else if s[0] == 116 { WordShortest(TRUE, s); }
    else if s[0] == 102 { WordShortest(FALSE, s); }
    else if s[0] == QUOTE { StringShortest(s); }
    else if s[0] == 91 { ArrayShortest(s); }
    else if s[0] == 123 { ObjectShortest(s); }
    else { NumberShortest(s); }
  }

  lemma {:induction false} ArrayShortest(s: Text)
    requires Parse(s).Some? && s[0] == 91
    ensures Beats(Print(Parse(s).value.0), s, Parse(s).value.1)
    decreases |s|, 0
  {
    var (v, rest) := Parse(s).value;
    if |s| >= 2 && s[1] == 93 {
      assert Print(v) == [91, 93];
    } else {
      One(91, s);
      ItemsShortest(s[1..], v);
      Follow([91], s, s[1..], PrintItems(v, v.items) + [93], rest);
      assert Print(v) == [91] + (PrintItems(v, v.items) + [93]);
    }
  }

  lemma {:induction false} ItemsShortest(s: Text, w: Json)
    requires ParseItems(s).Some? && forall i :: 0 <= i < |ParseItems(s).value.0| ==> ParseItems(s).value.0[i] < w
    ensures Beats(PrintItems(w, ParseItems(s).value.0) + [93], s, ParseItems(s).value.1)
    decreases |s|, 2
  {
    var (items, rest) := ParseItems(s).value;
    var (item, after) := Parse(s).value;
    ValueShortest(s);
    if after[0] == 93 {
      Closed(Print(item), s, after, 93);
    } else {
      var (others, end) := ParseItems(after[1..]).value;
      assert items[1..] == others;
      forall i | 0 <= i < |others| ensures others[i] < w { assert others[i] == items[i + 1]; }
      ItemsShortest(after[1..], w);
      ItemsAreSome(after[1..]);
      Joined(Print(item), s, after, PrintItems(w, others), 93, rest);
    }
  }

  lemma ItemsAreSome(s: Text)
    requires ParseItems(s).Some?
    ensures ParseItems(s).value.0 != []
  {
  }

  lemma {:induction false} ObjectShortest(s: Text)
    requires Parse(s).Some? && s[0] == 123
    ensures Beats(Print(Parse(s).value.0), s, Parse(s).value.1)
    decreases |s|, 0
  {
    var (v, rest) := Parse(s).value;
    if |s| >= 2 && s[1] == 125 {
      assert Print(v) == [123, 125];
    } else {
      One(123, s);
      FieldsShortest(s[1..], v);
      Follow([123], s, s[1..], PrintFields(v, v.fields) + [125], rest);
      assert Print(v) == [123] + (PrintFields(v, v.fields) + [125]);
    }
  }

  function PrintField(field: Field): Text { Quoted(field.0) + ([COLON] + Print(field.1)) }

  lemma {:induction false} FieldShortest(s: Text)
    requires ParseField(s).Some?
    ensures Beats(PrintField(ParseField(s).value.0), s, ParseField(s).value.1)
    decreases |s|, 2
  {
    var (key, after) := ParseString(s).value;
    var (value, rest) := Parse(after[1..]).value;
    StringShortest(s);
    One(COLON, after);
    ValueShortest(after[1..]);
    Follow([COLON], after, after[1..], Print(value), rest);
    Follow(Quoted(key), s, after, [COLON] + Print(value), rest);
  }

  lemma {:induction false} FieldsShortest(s: Text, w: Json)
    requires ParseFields(s).Some? && forall i :: 0 <= i < |ParseFields(s).value.0| ==> ParseFields(s).value.0[i].1 < w
    ensures Beats(PrintFields(w, ParseFields(s).value.0) + [125], s, ParseFields(s).value.1)
    decreases |s|, 3
  {
    var (fields, rest) := ParseFields(s).value;
    var (field, after) := ParseField(s).value;
    FieldShortest(s);
    FieldsHead(w, fields);
    if after[0] == 125 {
      Closed(PrintField(field), s, after, 125);
      assert PrintFields(w, fields) == PrintField(field) + [] == PrintField(field);
    } else {
      var (others, end) := ParseFields(after[1..]).value;
      assert fields[1..] == others;
      forall i | 0 <= i < |others| ensures others[i].1 < w { assert others[i] == fields[i + 1]; }
      FieldsShortest(after[1..], w);
      FieldsAreSome(after[1..]);
      Joined(PrintField(field), s, after, PrintFields(w, others), 125, rest);
    }
  }

  lemma FieldsHead(w: Json, fields: seq<Field>)
    requires fields != [] && forall i :: 0 <= i < |fields| ==> fields[i].1 < w
    ensures PrintFields(w, fields)
         == PrintField(fields[0]) + (if |fields| == 1 then [] else [COMMA] + PrintFields(w, fields[1..]))
  {
  }

  lemma FieldsAreSome(s: Text)
    requires ParseFields(s).Some?
    ensures ParseFields(s).value.0 != []
  {
  }

  /** The canonical text of a document is the shortest text of its value, and the only one of its length. */
  lemma CanonicalIsShortest(r: Rules, v: Json, s: Text)
    requires Laws(r) && Canonicalize(r, v).Some? && Parse(s) == Parse(Canonicalize(r, v).value)
    ensures |Canonicalize(r, v).value| <= |s|
    ensures |Canonicalize(r, v).value| == |s| ==> s == Canonicalize(r, v).value
  {
    ParseRecoversNormalized(r, v);
    RenderPrintsOrdered(Normalize(r, v).value);
    ValueShortest(s);
  }
}
