/** What normalization makes of a JSON value, and exactly which values it refuses. */
module JsonNormalization {

  import opened Options
  import opened Timestamps
  import opened CanonicalJson

  // ---------------------------------------------------------------- texts

  /** Every high surrogate is followed by a low one, and every low one preceded by a high one. */
  predicate Paired(s: Text) {
    && (forall i :: 0 <= i < |s| && High(s[i]) ==> i + 1 < |s| && Low(s[i + 1]))
    && (forall i :: 0 <= i < |s| && Low(s[i]) ==> 0 < i && High(s[i - 1]))
  }

  lemma {:induction false} ScalarExactly(s: Text)
    ensures Scalar(s) <==> Paired(s)
    decreases |s|
  {
    if s == [] {
    } else if High(s[0]) {
      if |s| >= 2 && Low(s[1]) {
        ScalarExactly(s[2..]);
        PairBefore(s);
      }
    } else if !Low(s[0]) {
      ScalarExactly(s[1..]);
      OneBefore(s);
    }
  }

  lemma PairBefore(s: Text)
    requires |s| >= 2 && High(s[0]) && Low(s[1])
    ensures Paired(s) <==> Paired(s[2..])
  {
    var rest := s[2..];
    forall i | 0 <= i < |rest| ensures rest[i] == s[i + 2] { }
    if Paired(rest) {
      forall i | 0 <= i < |s| && High(s[i]) ensures i + 1 < |s| && Low(s[i + 1]) {
        if i >= 2 { assert High(rest[i - 2]); }
      }
      forall i | 0 <= i < |s| && Low(s[i]) ensures 0 < i && High(s[i - 1]) {
        if i >= 2 { assert Low(rest[i - 2]); }
      }
    }
    if Paired(s) {
      forall i | 0 <= i < |rest| && High(rest[i]) ensures i + 1 < |rest| && Low(rest[i + 1]) { assert High(s[i + 2]); }
      forall i | 0 <= i < |rest| && Low(rest[i]) ensures 0 < i && High(rest[i - 1]) {
        assert Low(s[i + 2]) && High(s[i + 1]);
      }
    }
  }

  lemma OneBefore(s: Text)
    requires s != [] && !High(s[0]) && !Low(s[0])
    ensures Paired(s) <==> Paired(s[1..])
  {
    var rest := s[1..];
    forall i | 0 <= i < |rest| ensures rest[i] == s[i + 1] { }
    if Paired(rest) {
      forall i | 0 <= i < |s| && High(s[i]) ensures i + 1 < |s| && Low(s[i + 1]) { assert High(rest[i - 1]); }
      forall i | 0 <= i < |s| && Low(s[i]) ensures 0 < i && High(s[i - 1]) { assert Low(rest[i - 1]); }
    }
    if Paired(s) {
      forall i | 0 <= i < |rest| && High(rest[i]) ensures i + 1 < |rest| && Low(rest[i + 1]) { assert High(s[i + 1]); }
      forall i | 0 <= i < |rest| && Low(rest[i]) ensures 0 < i && High(rest[i - 1]) {
        assert Low(s[i + 1]) && High(s[i]);
      }
    }
  }

  /** NFC, without unpaired surrogates; a text with a `T` in it goes through the timestamp rule too. */
  predicate TextBecomes(r: Rules, s: Text, t: Text) {
    Paired(r.nfc(s)) && (if TEE in r.nfc(s) then r.stamp(r.nfc(s)) == Some(t) else t == r.nfc(s))
  }

  lemma TextExactly(r: Rules, s: Text, t: Text)
    ensures NormalizeText(r, s) == Some(t) <==> TextBecomes(r, s, t)
  {
    ScalarExactly(r.nfc(s));
  }

  // ---------------------------------------------------------------- values

  /** The keys have no unpaired surrogates, and after NFC no two are the same but `__proto__`. */
  predicate KeysFit(r: Rules, fields: seq<(Text, Json)>) {
    && (forall i :: 0 <= i < |fields| ==> Paired(r.nfc(fields[i].0)))
    && forall i, j :: 0 <= i < j < |fields| && r.nfc(fields[i].0) == r.nfc(fields[j].0) ==> r.nfc(fields[i].0) == PROTO
  }

  /** The fields that are kept, in their order. */
  function Kept(r: Rules, fields: seq<(Text, Json)>): (kept: seq<(Text, Json)>)
    ensures forall f :: f in kept <==> f in fields && r.nfc(f.0) != PROTO
  {
    if fields == [] then []
    else
      assert fields == fields[..|fields| - 1] + [fields[|fields| - 1]];
      Kept(r, fields[..|fields| - 1])
      + if r.nfc(fields[|fields| - 1].0) == PROTO then [] else [fields[|fields| - 1]]
  }

  /** What a value becomes: numbers, constants and the order of things stay; texts and keys are normalized;
      and fields called `__proto__` are left out, once it is known that their values can be normalized. */
  ghost predicate Becomes(r: Rules, v: Json, w: Json)
    decreases v, 1
  {
    match v
    case Null => w == v
    case Bool(_) => w == v
    case Num(n) => w == v && n.Finite? && n.safe
    case Str(s) => w.Str? && TextBecomes(r, s, w.text)
    case Arr(items) => w.Arr? && |w.items| == |items| && forall i :: 0 <= i < |items| ==> Becomes(r, items[i], w.items[i])
    case Obj(fields) => w.Obj? && KeysFit(r, fields) && FieldsBecome(r, v, fields, w.fields)
  }

  ghost predicate HasResult(r: Rules, v: Json)
    decreases v, 2
  {
    exists w :: Becomes(r, v, w)
  }

  ghost predicate FieldsBecome(r: Rules, v: Json, fields: seq<(Text, Json)>, results: seq<(Text, Json)>)
    requires forall f <- fields :: f.1 < v
    decreases v, 0
  {
    && (forall f <- fields :: HasResult(r, f.1))
    && |results| == |Kept(r, fields)|
    && forall i :: 0 <= i < |results| ==>
         results[i].0 == r.nfc(Kept(r, fields)[i].0) && Becomes(r, Kept(r, fields)[i].1, results[i].1)
  }

  // ---------------------------------------------------------------- one more field

  predicate Unlike(r: Rules, fields: seq<(Text, Json)>, key: Text) {
    forall i :: 0 <= i < |fields| ==> r.nfc(fields[i].0) != key
  }

  lemma KeysFitStep(r: Rules, front: seq<(Text, Json)>, last: (Text, Json))
    ensures KeysFit(r, front + [last])
       <==> KeysFit(r, front) && Paired(r.nfc(last.0)) && (r.nfc(last.0) == PROTO || Unlike(r, front, r.nfc(last.0)))
  {
    var all, n := front + [last], |front|;
    assert all[n] == last && forall i :: 0 <= i < n ==> all[i] == front[i];
    if KeysFit(r, all) {
      forall i | 0 <= i < n ensures Paired(r.nfc(front[i].0)) { assert Paired(r.nfc(all[i].0)); }
      forall i, j | 0 <= i < j < n && r.nfc(front[i].0) == r.nfc(front[j].0) ensures r.nfc(front[i].0) == PROTO {
        assert r.nfc(all[i].0) == r.nfc(all[j].0);
      }
      if r.nfc(last.0) != PROTO {
        forall i | 0 <= i < n ensures r.nfc(front[i].0) != r.nfc(last.0) { assert all[i].0 == front[i].0; }
      }
    }
  }

  lemma KeptStep(r: Rules, front: seq<(Text, Json)>, last: (Text, Json))
    ensures Kept(r, front + [last]) == Kept(r, front) + if r.nfc(last.0) == PROTO then [] else [last]
  {
    assert (front + [last])[..|front|] == front;
  }

  lemma ResultsHaveKeys(r: Rules, v: Json, fields: seq<(Text, Json)>, results: seq<(Text, Json)>, key: Text)
    requires (forall f <- fields :: f.1 < v) && FieldsBecome(r, v, fields, results)
    ensures HasKey(results, key) <==> key != PROTO && !Unlike(r, fields, key)
  {
    var kept := Kept(r, fields);
    if HasKey(results, key) {
      var i :| 0 <= i < |results| && results[i].0 == key;
      assert kept[i] in kept;
      var j :| 0 <= j < |fields| && fields[j] == kept[i];
      assert r.nfc(fields[j].0) == key;
    }
    if key != PROTO && !Unlike(r, fields, key) {
      var j :| 0 <= j < |fields| && r.nfc(fields[j].0) == key;
      assert fields[j] in kept;
      var i :| 0 <= i < |kept| && kept[i] == fields[j];
      assert results[i].0 == key;
    }
  }

  lemma AllInside(v: Json, front: seq<(Text, Json)>, last: (Text, Json))
    requires (forall f <- front :: f.1 < v) && last.1 < v
    ensures forall f <- front + [last] :: f.1 < v
    ensures forall f :: f in front + [last] <==> f in front || f == last
  {
  }

  lemma DroppedStep(r: Rules, v: Json, front: seq<(Text, Json)>, last: (Text, Json), results: seq<(Text, Json)>)
    requires (forall f <- front :: f.1 < v) && last.1 < v && r.nfc(last.0) == PROTO
    requires forall f <- front + [last] :: f.1 < v
    ensures FieldsBecome(r, v, front + [last], results) <==> FieldsBecome(r, v, front, results) && HasResult(r, last.1)
  {
    AllInside(v, front, last);
    KeptStep(r, front, last);
    assert Kept(r, front + [last]) == Kept(r, front);
  }

  lemma AddedBefore(r: Rules, v: Json, front: seq<(Text, Json)>, last: (Text, Json), results: seq<(Text, Json)>, x: (Text, Json))
    requires (forall f <- front :: f.1 < v) && last.1 < v && r.nfc(last.0) != PROTO
    requires forall f <- front + [last] :: f.1 < v
    requires FieldsBecome(r, v, front + [last], results + [x])
    ensures FieldsBecome(r, v, front, results) && x.0 == r.nfc(last.0) && Becomes(r, last.1, x.1)
  {
    var all, kept, n := front + [last], Kept(r, front), |results|;
    AllInside(v, front, last);
    KeptStep(r, front, last);
    assert Kept(r, all)[n] == last && (results + [x])[n] == x;
    forall i | 0 <= i < n ensures results[i].0 == r.nfc(kept[i].0) && Becomes(r, kept[i].1, results[i].1) {
      assert (results + [x])[i] == results[i] && Kept(r, all)[i] == kept[i];
    }
  }

  lemma AddedAfter(r: Rules, v: Json, front: seq<(Text, Json)>, last: (Text, Json), results: seq<(Text, Json)>, x: (Text, Json))
    requires (forall f <- front :: f.1 < v) && last.1 < v && r.nfc(last.0) != PROTO
    requires forall f <- front + [last] :: f.1 < v
    requires FieldsBecome(r, v, front, results) && x.0 == r.nfc(last.0) && Becomes(r, last.1, x.1)
    ensures FieldsBecome(r, v, front + [last], results + [x])
  {
    var all, kept, n := front + [last], Kept(r, front), |results|;
    AllInside(v, front, last);
    KeptStep(r, front, last);
    forall f <- all ensures HasResult(r, f.1) {
      if f == last { assert Becomes(r, last.1, x.1); }
    }
    forall i | 0 <= i < n + 1
      ensures (results + [x])[i].0 == r.nfc(Kept(r, all)[i].0) && Becomes(r, Kept(r, all)[i].1, (results + [x])[i].1)
    {
      if i < n { assert (results + [x])[i] == results[i] && Kept(r, all)[i] == kept[i]; }
    }
  }

  /** One turn of the loop over the fields, when the field is dropped. */
  lemma DroppedExactly(r: Rules, done: Option<seq<(Text, Json)>>, raw: Text, item: Option<Json>, results: seq<(Text, Json)>)
    requires r.nfc(raw) == PROTO
    ensures AddField(r, done, raw, item) == Some(results)
       <==> Paired(PROTO) && done == Some(results) && !HasKey(results, PROTO) && item.Some?
  {
    ScalarExactly(PROTO);
  }

  /** And when it is added. */
  lemma AddedExactly(r: Rules, done: Option<seq<(Text, Json)>>, raw: Text, item: Option<Json>, results: seq<(Text, Json)>, x: (Text, Json))
    requires r.nfc(raw) != PROTO
    ensures AddField(r, done, raw, item) == Some(results + [x])
       <==> && Paired(r.nfc(raw)) && done == Some(results) && !HasKey(results, r.nfc(raw))
            && x.0 == r.nfc(raw) && item == Some(x.1)
  {
    ScalarExactly(r.nfc(raw));
    if AddField(r, done, raw, item) == Some(results + [x]) {
      assert (results + [x])[..|results + [x]| - 1] == results;
      assert (done.value + [(r.nfc(raw), item.value)])[..|done.value|] == done.value;
    }
  }

  // ---------------------------------------------------------------- the theorem

  /** Normalization returns exactly what a value becomes, and nothing if it becomes nothing. */
  lemma {:induction false} NormalizesExactly(r: Rules, v: Json, w: Json)
    ensures Normalize(r, v) == Some(w) <==> Becomes(r, v, w)
    decreases v, 1, 0
  {
    match v
    case Str(s) => if w.Str? { TextExactly(r, s, w.text); }
    case Arr(items) => if w.Arr? { ItemsExactly(r, v, items, w.items); }
    case Obj(fields) => if w.Obj? { FieldsExactly(r, v, fields, w.fields); }
    case _ =>
  }

  lemma {:induction false} ItemsExactly(r: Rules, v: Json, items: seq<Json>, results: seq<Json>)
    requires forall i :: 0 <= i < |items| ==> items[i] < v
    ensures NormalizeItems(r, v, items) == Some(results)
       <==> |results| == |items| && forall i :: 0 <= i < |items| ==> Becomes(r, items[i], results[i])
    decreases v, 0, |items|
  {
    if items == [] || results == [] {
    } else {
      var n, m := |items| - 1, |results| - 1;
      ItemsExactly(r, v, items[..n], results[..m]);
      NormalizesExactly(r, items[n], results[m]);
      assert results == results[..m] + [results[m]];
      if |results| == |items| && forall i :: 0 <= i < |items| ==> Becomes(r, items[i], results[i]) {
        forall i | 0 <= i < n ensures Becomes(r, items[..n][i], results[..m][i]) { assert Becomes(r, items[i], results[i]); }
      }
      if n == m && Becomes(r, items[n], results[m]) && forall i :: 0 <= i < n ==> Becomes(r, items[..n][i], results[..m][i]) {
        forall i | 0 <= i < |items| ensures Becomes(r, items[i], results[i]) {
          if i < n { assert items[..n][i] == items[i] && results[..m][i] == results[i]; }
        }
      }
    }
  }

  lemma {:induction false} HasResultExactly(r: Rules, v: Json)
    ensures Normalize(r, v).Some? <==> HasResult(r, v)
    decreases v, 2, 0
  {
    if Normalize(r, v).Some? { NormalizesExactly(r, v, Normalize(r, v).value); }
    if w :| Becomes(r, v, w) { NormalizesExactly(r, v, w); }
  }

  lemma {:induction false} FieldsExactly(r: Rules, v: Json, fields: seq<(Text, Json)>, results: seq<(Text, Json)>)
    requires forall f <- fields :: f.1 < v
    ensures NormalizeFields(r, v, fields) == Some(results) <==> KeysFit(r, fields) && FieldsBecome(r, v, fields, results)
    decreases v, 0, |fields|
  {
    if fields != [] {
      var front, last := fields[..|fields| - 1], fields[|fields| - 1];
      assert fields == front + [last];
      KeysFitStep(r, front, last);
      if r.nfc(last.0) == PROTO {
        FieldsExactly(r, v, front, results);
        HasResultExactly(r, last.1);
        DroppedStep(r, v, front, last, results);
        DroppedExactly(r, NormalizeFields(r, v, front), last.0, Normalize(r, last.1), results);
        if FieldsBecome(r, v, front, results) { ResultsHaveKeys(r, v, front, results, PROTO); }
      } else {
        FieldAddedExactly(r, v, fields, front, last, results);
      }
    }
  }

  lemma {:induction false} FieldAddedExactly(r: Rules, v: Json, fields: seq<(Text, Json)>, front: seq<(Text, Json)>, last: (Text, Json),
                                             results: seq<(Text, Json)>)
    requires (forall f <- fields :: f.1 < v) && fields != [] && front == fields[..|fields| - 1] && last == fields[|fields| - 1]
    requires fields == front + [last] && r.nfc(last.0) != PROTO
    ensures NormalizeFields(r, v, fields) == Some(results) <==> KeysFit(r, fields) && FieldsBecome(r, v, fields, results)
    decreases v, 0, |fields|, 0
  {
    if results == [] {
      KeptStep(r, front, last);
      assert |Kept(r, fields)| >= 1;
    } else {
      var shorter, x := results[..|results| - 1], results[|results| - 1];
      assert results == shorter + [x];
      FieldsExactly(r, v, front, shorter);
      NormalizesExactly(r, last.1, x.1);
      KeysFitStep(r, front, last);
      AddedExactly(r, NormalizeFields(r, v, front), last.0, Normalize(r, last.1), shorter, x);
      if FieldsBecome(r, v, front, shorter) { ResultsHaveKeys(r, v, front, shorter, r.nfc(last.0)); }
      if FieldsBecome(r, v, fields, results) { AddedBefore(r, v, front, last, shorter, x); }
      if FieldsBecome(r, v, front, shorter) && x.0 == r.nfc(last.0) && Becomes(r, last.1, x.1) {
        AddedAfter(r, v, front, last, shorter, x);
      }
    }
  }
}
