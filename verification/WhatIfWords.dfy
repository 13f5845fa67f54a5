/** What the preflight reads in a what-if document, said of the document itself: which field a name
    finds, what is left of a text, and where a delta item stands. */
module WhatIfWords {

  import opened Options
  import opened PreflightWalks
  import opened WhatIf

  type Fields = seq<(string, Json)>

  // ---------------------------------------------------------------- fields

  predicate IsFor(t: Text, fields: Fields, name: string, i: int)
    requires 0 <= i < |fields|
  {
    t.fold(fields[i].0) == t.fold(name)
  }

  /** The first field of that name in any case has this value; null is the same as none. */
  predicate Holds(t: Text, fields: Fields, name: string, v: Json) {
    || (exists i :: 0 <= i < |fields| && IsFor(t, fields, name, i) && fields[i].1 == v
                    && forall j :: 0 <= j < i ==> !IsFor(t, fields, name, j))
    || (v == JNull && forall i :: 0 <= i < |fields| ==> !IsFor(t, fields, name, i))
  }

  lemma {:induction false} GetHolds(t: Text, fields: Fields, name: string)
    ensures Holds(t, fields, name, Get(t, fields, name))
  {
    if fields != [] && !IsFor(t, fields, name, 0) {
      var rest := fields[1..];
      GetHolds(t, rest, name);
      forall i | 0 <= i < |rest| ensures IsFor(t, rest, name, i) <==> IsFor(t, fields, name, i + 1) { }
      if exists i :: 0 <= i < |rest| && IsFor(t, rest, name, i) {
        var i :| 0 <= i < |rest| && IsFor(t, rest, name, i) && forall j :: 0 <= j < i ==> !IsFor(t, rest, name, j);
        OthersAreNotFor(t, fields, name, i);
      } else {
        forall i | 0 <= i < |fields| ensures !IsFor(t, fields, name, i) {
          if i > 0 { assert !IsFor(t, rest, name, i - 1); }
        }
      }
    }
  }

  lemma OthersAreNotFor(t: Text, fields: Fields, name: string, i: nat)
    requires i + 1 < |fields| && !IsFor(t, fields, name, 0)
    requires forall j :: 0 <= j < i ==> !IsFor(t, fields[1..], name, j)
    ensures forall j :: 0 <= j < i + 1 ==> !IsFor(t, fields, name, j)
  {
    forall j | 0 <= j < i + 1 ensures !IsFor(t, fields, name, j) {
      if j > 0 { assert !IsFor(t, fields[1..], name, j - 1); }
    }
  }

  lemma HoldsOnce(t: Text, fields: Fields, name: string, v: Json, w: Json)
    requires Holds(t, fields, name, v) && Holds(t, fields, name, w)
    ensures v == w
  {
  }

  lemma GetExactly(t: Text, fields: Fields, name: string, v: Json)
    ensures Get(t, fields, name) == v <==> Holds(t, fields, name, v)
  {
    GetHolds(t, fields, name);
    if Holds(t, fields, name, v) { HoldsOnce(t, fields, name, v, Get(t, fields, name)); }
  }

  // ---------------------------------------------------------------- texts

  predicate Blank(t: Text, s: string) { forall k :: 0 <= k < |s| ==> t.space(s[k]) }

  /** No white space at either end. */
  predicate Tight(t: Text, s: string) { s == "" || (!t.space(s[0]) && !t.space(s[|s| - 1])) }

  /** What is left of a text without the white space around it. */
  predicate Trimmed(t: Text, raw: string, text: string) {
    Tight(t, text) && exists i, j :: 0 <= i <= j <= |raw| && text == raw[i..j] && Blank(t, raw[..i]) && Blank(t, raw[j..])
  }

  lemma {:induction false} TrimsLeft(t: Text, s: string) returns (i: nat)
    ensures i <= |s| && t.TrimLeft(s) == s[i..] && Blank(t, s[..i]) && (i < |s| ==> !t.space(s[i]))
  {
    if s != "" && t.space(s[0]) {
      var k := TrimsLeft(t, s[1..]);
      i := k + 1;
      assert s[..i] == [s[0]] + s[1..][..k];
    } else {
      i := 0;
    }
  }

  lemma {:induction false} TrimsRight(t: Text, s: string) returns (j: nat)
    ensures j <= |s| && t.TrimRight(s) == s[..j] && Blank(t, s[j..]) && (j > 0 ==> !t.space(s[j - 1]))
  {
    if s != "" && t.space(s[|s| - 1]) {
      j := TrimsRight(t, s[..|s| - 1]);
      assert s[j..] == s[..|s| - 1][j..] + [s[|s| - 1]];
    } else {
      j := |s|;
    }
  }

  lemma StripTrims(t: Text, raw: string)
    ensures Trimmed(t, raw, t.Strip(raw))
  {
    var i := TrimsLeft(t, raw);
    var j := TrimsRight(t, raw[i..]);
    assert raw[i..][..j] == raw[i..i + j] && raw[i..][j..] == raw[i + j..];
  }

  lemma TrimmedOnce(t: Text, raw: string, one: string, other: string)
    requires Trimmed(t, raw, one) && Trimmed(t, raw, other)
    ensures one == other
  {
    var i, j :| 0 <= i <= j <= |raw| && one == raw[i..j] && Blank(t, raw[..i]) && Blank(t, raw[j..]);
    var k, l :| 0 <= k <= l <= |raw| && other == raw[k..l] && Blank(t, raw[..k]) && Blank(t, raw[l..]);
    WithinBlank(t, raw, i, j, k, l);
    WithinBlank(t, raw, k, l, i, j);
  }

  lemma BlankOutside(t: Text, raw: string, k: nat, l: nat, i: nat)
    requires k <= l <= |raw| && Blank(t, raw[..k]) && Blank(t, raw[l..]) && i < |raw|
    ensures i < k || l <= i ==> t.space(raw[i])
  {
    if i < k { assert raw[..k][i] == raw[i]; }
    if l <= i { assert raw[l..][i - l] == raw[i]; }
  }

  /** What is tight cannot reach into white space. */
  lemma WithinBlank(t: Text, raw: string, i: nat, j: nat, k: nat, l: nat)
    requires i <= j <= |raw| && k <= l <= |raw| && Tight(t, raw[i..j]) && Blank(t, raw[..k]) && Blank(t, raw[l..])
    ensures i == j || k <= i <= j <= l
  {
    if i < j {
      assert raw[i..j][0] == raw[i] && raw[i..j][j - i - 1] == raw[j - 1];
      BlankOutside(t, raw, k, l, i);
      BlankOutside(t, raw, k, l, j - 1);
    }
  }

  lemma StripExactly(t: Text, raw: string, text: string)
    ensures t.Strip(raw) == text <==> Trimmed(t, raw, text)
  {
    StripTrims(t, raw);
    if Trimmed(t, raw, text) { TrimmedOnce(t, raw, text, t.Strip(raw)); }
  }

  /** The field of that name is a text, not too long, and this is left of it. */
  predicate TextAt(t: Text, fields: Fields, name: string, maximum: nat, text: string) {
    text != "" && exists i :: 0 <= i < |fields| && StringIn(t, fields, name, maximum, text, i)
  }

  predicate StringIn(t: Text, fields: Fields, name: string, maximum: nat, text: string, i: int)
    requires 0 <= i < |fields|
  {
    && fields[i].1.JString? && Holds(t, fields, name, fields[i].1)
    && |fields[i].1.text| <= maximum && Trimmed(t, fields[i].1.text, text)
  }

  lemma RequireExactly(t: Text, fields: Fields, name: string, maximum: nat, text: string)
    ensures RequireString(t, Get(t, fields, name), maximum) == Some(text) <==> TextAt(t, fields, name, maximum, text)
  {
    var v := Get(t, fields, name);
    GetHolds(t, fields, name);
    if v.JString? { StripExactly(t, v.text, text); }
    if TextAt(t, fields, name, maximum, text) {
      var i :| 0 <= i < |fields| && StringIn(t, fields, name, maximum, text, i);
      HoldsOnce(t, fields, name, v, fields[i].1);
    }
    if RequireString(t, v, maximum) == Some(text) {
      var i :| 0 <= i < |fields| && fields[i].1 == v;
      assert StringIn(t, fields, name, maximum, text, i);
    }
  }

  /** Normalizing what has been trimmed only folds its case. */
  lemma TrimmedNormalizes(t: Text, raw: string, text: string)
    requires Trimmed(t, raw, text)
    ensures t.Normalized(text) == t.fold(text) == t.Normalized(raw)
  {
    assert text[0..|text|] == text && text[|text|..] == "";
    assert Trimmed(t, text, text);
    StripExactly(t, text, text);
    StripExactly(t, raw, text);
  }
}
