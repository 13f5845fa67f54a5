/** The text that the digests of a manifest are the SHA-256 of, and exactly when the order of the manifest's
    elements reaches it. Normalization identifies texts that differ in NFC form or in the spelling of an
    instant, so this is not exactly when it reaches the canonical manifest. */
module ManifestHashing {

  import opened Options
  import Timestamps
  import opened StableSort
  import opened ManifestSelectors
  import opened ManifestDigests
  import opened ManifestStability
  import opened ManifestViews
  import opened ManifestOrder
  import opened ManifestDisorder
  import opened ManifestPayloads
  import opened ManifestRefusal
  import opened ManifestTexts
  import J = CanonicalJson

  type Text = Timestamps.Text

  /** `canonicalizeJson(digestPayload(manifest, semantic))`; nothing where it throws. */
  ghost function DigestText(r: J.Rules, s: Spelling, x: Texts, m: Object, semantic: bool): Option<Text> {
    TextView(r, s)(Obj(DigestPayload(x, m, semantic)))
  }

  /** The order of a manifest reaches neither digest exactly when, wherever elements are sorted, those with
      equal case-folded keys have canonical forms with one canonical text, or the manifest has no digest;
      then it has none in any order. */
  lemma DigestsForgetOrderExactly(r: J.Rules, s: Spelling, x: Texts, m: Object, semantic: bool)
    requires J.Laws(r) && SpellsProto(r, s) && HasProfiles(m)
    ensures (forall b :: ManifestRearranged(m, b) ==> DigestText(r, s, x, m, semantic) == DigestText(r, s, x, b, semantic))
       <==> (DigestText(r, s, x, m, semantic).Some? ==> AlikeManifest(TextView(r, s), x, m))
  {
    var view := TextView(r, s);
    TextsAreLawful(r, s);
    if DigestText(r, s, x, m, semantic).None? {
      forall b | ManifestRearranged(m, b) ensures DigestText(r, s, x, b, semantic).None? {
        if DigestText(r, s, x, b, semantic).Some? { HashedStaysSeen(view, x, m, b, semantic); }
      }
    } else if AlikeManifest(view, x, m) {
      forall b | ManifestRearranged(m, b) ensures DigestText(r, s, x, m, semantic) == DigestText(r, s, x, b, semantic) {
        OrderIsNotHashed(view, x, m, b, semantic);
      }
    } else {
      var b := SomeOrderIsHashed(view, x, m, semantic);
    }
  }

  /** Exchange two elements with equal keys in a collection of the manifest itself: both digests change
      exactly if the canonical texts of their canonical forms differ. */
  lemma ExchangeIsDigested(r: J.Rules, s: Spelling, x: Texts, m: Object, name: Name, items: seq<Node>, i: nat, j: nat,
                           ys: seq<Node>, b: Object, semantic: bool)
    requires J.Laws(r) && SpellsProto(r, s) && HasProfiles(m) && DigestText(r, s, x, m, semantic).Some?
    requires name in m && Collection(name) && m[name] == List(items) && i < j < |items|
    requires CollectionKey(x, name)(items[i]) == CollectionKey(x, name)(items[j])
    requires ys == Exchanged(items, i, j) && b == m[name := List(ys)]
    ensures DigestText(r, s, x, m, semantic) != DigestText(r, s, x, b, semantic)
       <==> TextView(r, s)(CanonicalItem(x, name)(items[i])) != TextView(r, s)(CanonicalItem(x, name)(items[j]))
  {
    TextsAreLawful(r, s);
    ExchangeIsHashed(TextView(r, s), x, m, name, items, i, j, ys, b, semantic);
  }

  /** The same in a profile; one called `__proto__` reaches no digest. */
  lemma ProfileExchangeIsDigested(r: J.Rules, s: Spelling, x: Texts, m: Object, p: Name, was: Object, name: Name,
                                  items: seq<Node>, i: nat, j: nat, ys: seq<Node>, fields: Object, b: Object, semantic: bool)
    requires J.Laws(r) && SpellsProto(r, s) && HasProfiles(m) && DigestText(r, s, x, m, semantic).Some?
    requires p in m[Profiles].fields && m[Profiles].fields[p] == Obj(was)
    requires name in was && Collection(name) && was[name] == List(items) && i < j < |items|
    requires CollectionKey(x, name)(items[i]) == CollectionKey(x, name)(items[j])
    requires ys == Exchanged(items, i, j) && fields == was[name := List(ys)] && b == WithProfile(m, p, fields)
    ensures DigestText(r, s, x, m, semantic) != DigestText(r, s, x, b, semantic)
       <==> p != Proto
            && TextView(r, s)(CanonicalItem(x, name)(items[i])) != TextView(r, s)(CanonicalItem(x, name)(items[j]))
  {
    TextsAreLawful(r, s);
    ProfileExchangeIsHashed(TextView(r, s), x, m, p, was, name, items, i, j, ys, fields, b, semantic);
  }

  // ---------------------------------------------------------------- two spellings

  /** Two spellings of one normalized text look the same, wherever they stand. */
  lemma SpellingsLookTheSame(r: J.Rules, s: Spelling, o: Object, field: Name, raw: Text, other: Text)
    requires J.Laws(r) && SpellsProto(r, s) && J.NormalizeText(r, raw) == J.NormalizeText(r, other)
    ensures TextView(r, s)(Obj(o[field := Str(raw)])) == TextView(r, s)(Obj(o[field := Str(other)]))
  {
    var view := TextView(r, s);
    TextsAreLawful(r, s);
    assert view(Str(raw)) == view(Str(other));
    SameSeenBeside(view, o, o, field, Str(raw), Str(other));
    assert ObjectsTell(view, o[field := Str(raw)], o[field := Str(other)]);
  }

  lemma ConstraintItem(x: Texts, name: Name, n: Node)
    requires name == Constraints
    ensures CanonicalItem(x, name)(n) == FillConstraint(n)
  {
    var m := FillConstraint(n);
    FilledItem(name, n, m);
    SortedItem(x, name, m);
    assert CanonicalItem(x, name)(n) == SortingItem(x, name)(m);
  }

  lemma FilledItem(name: Name, n: Node, m: Node)
    requires name == Constraints && m == FillConstraint(n)
    ensures Filling(name)(n) == m
  {
  }

  lemma SortedItem(x: Texts, name: Name, n: Node)
    requires name != Roles
    ensures SortingItem(x, name)(n) == n
  {
  }

  lemma FilledConstraint(o: Object, field: Name, v: Node, n: Node, f: Object)
    requires n == Obj(o[field := v]) && field != Protected && f == Fill(o, Protected, Flag(false))
    ensures FillConstraint(n) == Obj(f[field := v])
  {
    assert Fill(o[field := v], Protected, Flag(false)) == f[field := v];
  }

  lemma ConstraintsShareKey(x: Texts, name: Name, o: Object, field: Name, v: Node, w: Node, a: Node, b: Node)
    requires name == Constraints && field != ConstraintId && a == Obj(o[field := v]) && b == Obj(o[field := w])
    ensures CollectionKey(x, name)(a) == CollectionKey(x, name)(b)
  {
    SameKeysOf(x, KeyFields(name), a, b);
  }

  lemma ExchangeIsCanonical(x: Texts, m: Object, name: Name, items: seq<Node>, ys: seq<Node>, b: Object)
    requires HasProfiles(m) && name in m && Collection(name) && m[name] == List(items) && 1 < |items|
    requires CollectionKey(x, name)(items[0]) == CollectionKey(x, name)(items[1])
    requires CanonicalItem(x, name)(items[0]) != CanonicalItem(x, name)(items[1])
    requires ys == Exchanged(items, 0, 1) && b == m[name := List(ys)]
    ensures Canonical(x, m) != Canonical(x, b)
  {
    WholeIsLawful();
    ExchangeIsHashed(Whole(), x, m, name, items, 0, 1, ys, b, false);
  }

  lemma SpellingsInForm(r: J.Rules, s: Spelling, x: Texts, name: Name, o: Object, field: Name, raw: Text, other: Text,
                        a: Node, b: Node)
    requires J.Laws(r) && SpellsProto(r, s) && J.NormalizeText(r, raw) == J.NormalizeText(r, other) && raw != other
    requires name == Constraints && field != Protected && a == Obj(o[field := Str(raw)]) && b == Obj(o[field := Str(other)])
    ensures TextView(r, s)(CanonicalItem(x, name)(a)) == TextView(r, s)(CanonicalItem(x, name)(b))
    ensures CanonicalItem(x, name)(a) != CanonicalItem(x, name)(b)
  {
    var f := Fill(o, Protected, Flag(false));
    ConstraintItem(x, name, a);
    ConstraintItem(x, name, b);
    FilledConstraint(o, field, Str(raw), a, f);
    FilledConstraint(o, field, Str(other), b, f);
    SpellingsLookTheSame(r, s, f, field, raw, other);
    assert f[field := Str(raw)][field] != f[field := Str(other)][field];
  }

  /** Two constraints under one key that differ only in the spelling of a text, say of an instant: they have
      different canonical forms, so their order shows in the canonical manifest, but it reaches no digest. */
  lemma SpellingsReachNoDigest(r: J.Rules, s: Spelling, x: Texts, m: Object, name: Name, o: Object, field: Name,
                               raw: Text, other: Text, items: seq<Node>, ys: seq<Node>, b: Object, semantic: bool)
    requires J.Laws(r) && SpellsProto(r, s) && HasProfiles(m) && DigestText(r, s, x, m, semantic).Some?
    requires J.NormalizeText(r, raw) == J.NormalizeText(r, other) && raw != other
    requires name == Constraints && field != ConstraintId && field != Protected
    requires |items| == 2 && items[0] == Obj(o[field := Str(raw)]) && items[1] == Obj(o[field := Str(other)])
    requires name in m && m[name] == List(items) && ys == Exchanged(items, 0, 1) && b == m[name := List(ys)]
    ensures DigestText(r, s, x, m, semantic) == DigestText(r, s, x, b, semantic) && Canonical(x, m) != Canonical(x, b)
  {
    ConstraintsShareKey(x, name, o, field, Str(raw), Str(other), items[0], items[1]);
    SpellingsInForm(r, s, x, name, o, field, raw, other, items[0], items[1]);
    SpellingsExchanged(r, s, x, m, name, items, ys, b, semantic);
  }

  lemma SpellingsExchanged(r: J.Rules, s: Spelling, x: Texts, m: Object, name: Name, items: seq<Node>, ys: seq<Node>, b: Object,
                           semantic: bool)
    requires J.Laws(r) && SpellsProto(r, s) && HasProfiles(m) && DigestText(r, s, x, m, semantic).Some?
    requires name in m && Collection(name) && m[name] == List(items) && 1 < |items|
    requires CollectionKey(x, name)(items[0]) == CollectionKey(x, name)(items[1])
    requires TextView(r, s)(CanonicalItem(x, name)(items[0])) == TextView(r, s)(CanonicalItem(x, name)(items[1]))
    requires CanonicalItem(x, name)(items[0]) != CanonicalItem(x, name)(items[1])
    requires ys == Exchanged(items, 0, 1) && b == m[name := List(ys)]
    ensures DigestText(r, s, x, m, semantic) == DigestText(r, s, x, b, semantic) && Canonical(x, m) != Canonical(x, b)
  {
    ExchangeIsDigested(r, s, x, m, name, items, 0, 1, ys, b, semantic);
    ExchangeIsCanonical(x, m, name, items, ys, b);
  }
}
