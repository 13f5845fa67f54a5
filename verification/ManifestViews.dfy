/** Telling manifest values apart through a view of them, such as the canonical text, and what sorting
    leaves of the order of a list under a view. Keys are read before the view is taken. */
module ManifestViews {

  import opened Options
  import opened StableSort
  import opened ManifestSelectors

  /** What is told apart; nothing for a value that is refused. */
  type View<A> = Node -> Option<A>

  /** A list is known by its elements, and refused if one of them is. */
  ghost predicate ListsTell<A>(view: View<A>, xs: seq<Node>, ys: seq<Node>) {
    && (Map(view, xs) == Map(view, ys) ==> view(List(xs)) == view(List(ys)))
    && (view(List(xs)).Some? && view(List(xs)) == view(List(ys)) ==> Map(view, xs) == Map(view, ys))
    && (view(List(xs)).Some? <==> None !in Map(view, xs))
  }

  ghost predicate SameSeen<A>(view: View<A>, f: Object, g: Object) {
    f.Keys == g.Keys && forall k :: k in f ==> view(f[k]) == view(g[k])
  }

  ghost predicate AllSeen<A>(view: View<A>, f: Object) { forall k :: k in f ==> view(f[k]).Some? }

  /** An object is known by its properties, except one called `__proto__`, and refused if one of them is. */
  ghost predicate ObjectsTell<A>(view: View<A>, f: Object, g: Object) {
    && (SameSeen(view, f, g) ==> view(Obj(f)) == view(Obj(g)))
    && (view(Obj(f)).Some? && view(Obj(f)) == view(Obj(g)) ==>
          forall k :: k in f && k in g && k != Proto ==> view(f[k]) == view(g[k]))
    && (view(Obj(f)).Some? ==> AllSeen(view, f))
    && (view(Obj(f)).Some? && f.Keys == g.Keys && AllSeen(view, g) ==> view(Obj(g)).Some?)
  }

  ghost predicate Lawful<A(!new)>(view: View<A>) {
    && (forall xs: seq<Node>, ys: seq<Node> :: ListsTell(view, xs, ys))
    && (forall f: Object, g: Object :: ObjectsTell(view, f, g))
  }

  /** The view of what `f` makes of a value. */
  function Seen<A>(view: View<A>, f: Node -> Node): View<A> { n => view(f(n)) }

  lemma SeenMapped<A(!new)>(view: View<A>, f: Node -> Node, items: seq<Node>)
    ensures Map(view, Map(f, items)) == Map(Seen(view, f), items)
  {
    MapTwice(f, view, Seen(view, f), items);
  }

  // ---------------------------------------------------------------- a list in an object

  ghost predicate SameBeside(name: Name, a: Object, b: Object) {
    forall n: Name :: n != name ==> (n in a <==> n in b) && (n in a ==> a[n] == b[n])
  }

  function Framed(o: Object, name: Name, items: seq<Node>): Node { Obj(o[name := List(items)]) }

  lemma SameSeenBeside<A(!new)>(view: View<A>, a: Object, b: Object, name: Name, v: Node, w: Node)
    requires SameBeside(name, a, b) && view(v) == view(w)
    ensures SameSeen(view, a[name := v], b[name := w])
  {
    var f, g := a[name := v], b[name := w];
    forall k | k in f ensures view(f[k]) == view(g[k]) { if k != name { assert k in a && a[k] == b[k]; } }
  }

  lemma FramedAgree<A(!new)>(view: View<A>, a: Object, b: Object, name: Name, xs: seq<Node>, ys: seq<Node>)
    requires Lawful(view) && SameBeside(name, a, b) && Map(view, xs) == Map(view, ys)
    ensures view(Framed(a, name, xs)) == view(Framed(b, name, ys))
  {
    assert ListsTell(view, xs, ys);
    SameSeenBeside(view, a, b, name, List(xs), List(ys));
    assert ObjectsTell(view, a[name := List(xs)], b[name := List(ys)]);
  }

  lemma FramedApart<A(!new)>(view: View<A>, a: Object, b: Object, name: Name, xs: seq<Node>, ys: seq<Node>)
    requires Lawful(view) && name != Proto && view(Framed(a, name, xs)).Some? && Map(view, xs) != Map(view, ys)
    ensures view(Framed(a, name, xs)) != view(Framed(b, name, ys))
  {
    var f, g := a[name := List(xs)], b[name := List(ys)];
    assert ObjectsTell(view, f, g) && ListsTell(view, xs, ys);
    assert f[name] == List(xs) && g[name] == List(ys);
  }

  lemma FramedInside<A(!new)>(view: View<A>, a: Object, name: Name, xs: seq<Node>)
    requires Lawful(view) && view(Framed(a, name, xs)).Some?
    ensures None !in Map(view, xs)
  {
    var f := a[name := List(xs)];
    assert ObjectsTell(view, f, f) && ListsTell(view, xs, xs);
    assert f[name] == List(xs);
  }

  lemma AllSeenBeside<A(!new)>(view: View<A>, a: Object, b: Object, name: Name, v: Node, w: Node)
    requires SameBeside(name, a, b) && AllSeen(view, b[name := w]) && view(v).Some?
    ensures a[name := v].Keys == b[name := w].Keys && AllSeen(view, a[name := v])
  {
    var f, g := a[name := v], b[name := w];
    forall k | k in f ensures view(f[k]).Some? { if k != name { assert k in g && g[k] == f[k]; } }
  }

  lemma FramedSeen<A(!new)>(view: View<A>, a: Object, b: Object, name: Name, xs: seq<Node>, ys: seq<Node>)
    requires Lawful(view) && SameBeside(name, a, b) && view(Framed(b, name, ys)).Some? && None !in Map(view, xs)
    ensures view(Framed(a, name, xs)).Some?
  {
    var f, g := a[name := List(xs)], b[name := List(ys)];
    assert ListsTell(view, xs, xs);
    assert ObjectsTell(view, g, f);
    AllSeenBeside(view, a, b, name, List(xs), List(ys));
  }

  lemma {:induction false} NoneInside<A(!new)>(g: View<A>, items: seq<Node>)
    ensures None !in Map(g, items) <==> forall n :: n in items ==> g(n).Some?
  {
    if items != [] { NoneInside(g, items[1..]); }
  }

  /** Nothing is refused in a sorted list exactly if nothing is in the list. */
  lemma SortedSeen<A(!new)>(key: Key, g: View<A>, items: seq<Node>)
    ensures None !in Map(g, SortBy(key, items)) <==> forall n :: n in items ==> g(n).Some?
  {
    SortByInside(key, items);
    NoneInside(g, SortBy(key, items));
  }

  // ---------------------------------------------------------------- sorted alike

  /** Elements with the same case-folded keys look the same. */
  ghost predicate AlikeKeys<A>(key: Key, g: View<A>, items: seq<Node>) {
    forall i, j :: 0 <= i < j < |items| && key(items[i]) == key(items[j]) ==> g(items[i]) == g(items[j])
  }

  /** What an element is sorted by, and how it looks. */
  function Pairing<A>(key: Key, g: View<A>): Node -> (seq<seq<int>>, Option<A>) { n => (key(n), g(n)) }

  function ByFirst<A>(): ((seq<seq<int>>, Option<A>), (seq<seq<int>>, Option<A>)) -> bool {
    (p: (seq<seq<int>>, Option<A>), q: (seq<seq<int>>, Option<A>)) => KeysLeq(p.0, q.0)
  }

  lemma ByFirstIsOrder<A(!new)>()
    ensures Order(ByFirst<A>())
  {
    var leq := ByFirst<A>();
    forall p, q ensures leq(p, q) || leq(q, p) { KeysTotal(p.0, q.0); }
    forall p, q, r | leq(p, q) && leq(q, r) ensures leq(p, r) { KeysTransitive(p.0, q.0, r.0); }
  }

  lemma SortPairs<A(!new)>(key: Key, g: View<A>, items: seq<Node>)
    ensures Map(Pairing(key, g), SortBy(key, items)) == Sort(ByFirst<A>(), Map(Pairing(key, g), items))
  {
    ByIsOrder(key);
    SortMap(Pairing(key, g), By(key), ByFirst<A>(), items);
  }

  lemma {:induction false} PairsTell<A(!new)>(key: Key, g: View<A>, s: seq<Node>, t: seq<Node>)
    requires Map(Pairing(key, g), s) == Map(Pairing(key, g), t)
    ensures Map(g, s) == Map(g, t)
    decreases |s|
  {
    if s != [] && t != [] {
      assert Map(Pairing(key, g), s)[0] == Map(Pairing(key, g), t)[0];
      assert Map(Pairing(key, g), s)[1..] == Map(Pairing(key, g), s[1..]);
      assert Map(Pairing(key, g), t)[1..] == Map(Pairing(key, g), t[1..]);
      PairsTell(key, g, s[1..], t[1..]);
    }
  }

  lemma {:induction false} SamePairs<A(!new)>(key: Key, g: View<A>, s: seq<Node>, t: seq<Node>)
    requires |s| == |t| && forall i :: 0 <= i < |s| ==> key(s[i]) == key(t[i]) && g(s[i]) == g(t[i])
    ensures Map(Pairing(key, g), s) == Map(Pairing(key, g), t)
    decreases |s|
  {
    if s != [] { SamePairs(key, g, s[1..], t[1..]); }
  }

  lemma AlikePairs<A(!new)>(key: Key, g: View<A>, items: seq<Node>)
    requires AlikeKeys(key, g, items)
    ensures Antisymmetric(ByFirst<A>(), Map(Pairing(key, g), items))
  {
    var mapped := Map(Pairing(key, g), items);
    MapLength(Pairing(key, g), items);
    forall p, q | p in mapped && q in mapped && ByFirst<A>()(p, q) && ByFirst<A>()(q, p) ensures p == q {
      KeysAntisymmetric(p.0, q.0);
      var i :| 0 <= i < |mapped| && mapped[i] == p;
      var j :| 0 <= j < |mapped| && mapped[j] == q;
      MapAt(Pairing(key, g), items, i);
      MapAt(Pairing(key, g), items, j);
    }
  }

  /** Element by element the same keys and looks: the sorted lists look the same. */
  lemma SameListsSortAlike<A(!new)>(key: Key, g: View<A>, s: seq<Node>, t: seq<Node>)
    requires |s| == |t| && forall i :: 0 <= i < |s| ==> key(s[i]) == key(t[i]) && g(s[i]) == g(t[i])
    ensures Map(g, SortBy(key, s)) == Map(g, SortBy(key, t))
  {
    SamePairs(key, g, s, t);
    SortPairs(key, g, s);
    SortPairs(key, g, t);
    PairsTell(key, g, SortBy(key, s), SortBy(key, t));
  }

  /** So do lists that are the same up to their order, if elements with equal keys look the same. */
  lemma ListsSortAlike<A(!new)>(key: Key, g: View<A>, xs: seq<Node>, middle: seq<Node>, ys: seq<Node>)
    requires AlikeKeys(key, g, xs) && |middle| == |xs| && multiset(middle) == multiset(ys)
    requires forall i :: 0 <= i < |xs| ==> key(xs[i]) == key(middle[i]) && g(xs[i]) == g(middle[i])
    ensures Map(g, SortBy(key, xs)) == Map(g, SortBy(key, ys))
  {
    var p := Pairing(key, g);
    SamePairs(key, g, xs, middle);
    MapRearranged(p, middle, ys);
    AlikePairs(key, g, xs);
    ByFirstIsOrder<A>();
    SortForgetsOrder(ByFirst<A>(), Map(p, xs), Map(p, ys));
    SortPairs(key, g, xs);
    SortPairs(key, g, ys);
    PairsTell(key, g, SortBy(key, xs), SortBy(key, ys));
  }

  // ---------------------------------------------------------------- what sorting leaves in order

  /** The elements with the key `k`, in their order. */
  function WithKey(key: Key, k: seq<seq<int>>, items: seq<Node>): seq<Node> {
    if items == [] then [] else (if key(items[0]) == k then [items[0]] else []) + WithKey(key, k, items[1..])
  }

  lemma {:induction false} WithKeyOf(key: Key, k: seq<seq<int>>, a: seq<Node>, b: seq<Node>)
    ensures WithKey(key, k, a + b) == WithKey(key, k, a) + WithKey(key, k, b)
  {
    if a == [] {
      assert a + b == b;
    } else {
      var head := if key(a[0]) == k then [a[0]] else [];
      WithKeyOf(key, k, a[1..], b);
      assert (a + b)[0] == a[0] && (a + b)[1..] == a[1..] + b;
      assert head + (WithKey(key, k, a[1..]) + WithKey(key, k, b)) == (head + WithKey(key, k, a[1..])) + WithKey(key, k, b);
    }
  }

  lemma {:induction false} InsertIsStable(key: Key, k: seq<seq<int>>, n: Node, s: seq<Node>)
    ensures WithKey(key, k, Insert(By(key), n, s)) == WithKey(key, k, [n] + s)
  {
    if s != [] && !By(key)(n, s[0]) {
      InsertIsStable(key, k, n, s[1..]);
      KeysTotal(key(n), key(n));
      var rest := Insert(By(key), n, s[1..]);
      assert ([s[0]] + rest)[1..] == rest;
      assert ([n] + s)[1..] == s && ([n] + s[1..])[1..] == s[1..];
    }
  }

  /** Sorting keeps elements with the same key in their order. */
  lemma {:induction false} SortIsStable(key: Key, k: seq<seq<int>>, s: seq<Node>)
    ensures WithKey(key, k, SortBy(key, s)) == WithKey(key, k, s)
  {
    if s != [] {
      SortIsStable(key, k, s[1..]);
      InsertIsStable(key, k, s[0], SortBy(key, s[1..]));
      assert s == [s[0]] + s[1..];
      WithKeyOf(key, k, [s[0]], s[1..]);
      WithKeyOf(key, k, [s[0]], SortBy(key, s[1..]));
    }
  }

  /** Lists with the same keys at the same places, and the same looks, look the same at each key. */
  lemma {:induction false} LooksWithKey<A(!new)>(key: Key, g: View<A>, k: seq<seq<int>>, u: seq<Node>, v: seq<Node>)
    requires Map(key, u) == Map(key, v) && Map(g, u) == Map(g, v)
    ensures Map(g, WithKey(key, k, u)) == Map(g, WithKey(key, k, v))
    decreases |u|
  {
    if u != [] && v != [] {
      assert Map(key, u)[0] == Map(key, v)[0] && Map(g, u)[0] == Map(g, v)[0];
      assert Map(key, u)[1..] == Map(key, u[1..]) && Map(key, v)[1..] == Map(key, v[1..]);
      assert Map(g, u)[1..] == Map(g, u[1..]) && Map(g, v)[1..] == Map(g, v[1..]);
      LooksWithKey(key, g, k, u[1..], v[1..]);
      MapOntoHead(g, if key(u[0]) == k then [u[0]] else [], WithKey(key, k, u[1..]));
      MapOntoHead(g, if key(v[0]) == k then [v[0]] else [], WithKey(key, k, v[1..]));
    }
  }

  lemma MapOntoHead<A(!new)>(g: View<A>, head: seq<Node>, rest: seq<Node>)
    requires |head| <= 1
    ensures Map(g, head + rest) == (if head == [] then [] else [g(head[0])]) + Map(g, rest)
  {
    if head == [] { assert head + rest == rest; } else { assert (head + rest)[1..] == rest; }
  }

  lemma KeysLeqIsOrder()
    ensures Order(KeysLeq)
  {
    forall a, b ensures KeysLeq(a, b) || KeysLeq(b, a) { KeysTotal(a, b); }
    forall a, b, c | KeysLeq(a, b) && KeysLeq(b, c) ensures KeysLeq(a, c) { KeysTransitive(a, b, c); }
  }

  /** Lists with the same keys have them at the same places when sorted. */
  lemma SortedKeysAlign(key: Key, s: seq<Node>, t: seq<Node>)
    requires multiset(Map(key, s)) == multiset(Map(key, t))
    ensures Map(key, SortBy(key, s)) == Map(key, SortBy(key, t))
  {
    KeysLeqIsOrder();
    ByIsOrder(key);
    SortMap(key, By(key), KeysLeq, s);
    SortMap(key, By(key), KeysLeq, t);
    forall a, b | KeysLeq(a, b) && KeysLeq(b, a) ensures a == b { KeysAntisymmetric(a, b); }
    SortForgetsOrder(KeysLeq, Map(key, s), Map(key, t));
  }

  lemma FirstDifferenceShows<A(!new)>(key: Key, g: View<A>, k: seq<seq<int>>, before: seq<Node>, a: Node, b: Node,
                                      xs: seq<Node>, ys: seq<Node>)
    requires key(a) == k == key(b) && g(a) != g(b)
    ensures Map(g, WithKey(key, k, before + ([a] + xs))) != Map(g, WithKey(key, k, before + ([b] + ys)))
  {
    WithKeyOf(key, k, before, [a] + xs);
    WithKeyOf(key, k, before, [b] + ys);
    assert ([a] + xs)[1..] == xs && ([b] + ys)[1..] == ys;
    var u, v := WithKey(key, k, before + ([a] + xs)), WithKey(key, k, before + ([b] + ys));
    var w := |WithKey(key, k, before)|;
    assert u[w] == a && v[w] == b;
    MapAt(g, u, w);
    MapAt(g, v, w);
  }

  lemma DifferenceWithKey<A(!new)>(key: Key, g: View<A>, s: seq<Node>, t: seq<Node>, i: nat)
    requires i < |s| && i < |t| && s[..i] == t[..i] && key(s[i]) == key(t[i]) && g(s[i]) != g(t[i])
    ensures Map(g, WithKey(key, key(s[i]), s)) != Map(g, WithKey(key, key(s[i]), t))
  {
    Around(s, i);
    Around(t, i);
    FirstDifferenceShows(key, g, key(s[i]), s[..i], s[i], t[i], s[i + 1..], t[i + 1..]);
  }

  lemma Around(s: seq<Node>, i: nat)
    requires i < |s|
    ensures s[..i] + ([s[i]] + s[i + 1..]) == s
  {
  }

  lemma SortedLooksWithKey<A(!new)>(key: Key, g: View<A>, k: seq<seq<int>>, s: seq<Node>, t: seq<Node>)
    requires multiset(Map(key, s)) == multiset(Map(key, t))
    requires Map(g, SortBy(key, s)) == Map(g, SortBy(key, t))
    ensures Map(g, WithKey(key, k, s)) == Map(g, WithKey(key, k, t))
  {
    SortIsStable(key, k, s);
    SortIsStable(key, k, t);
    SortedKeysAlign(key, s, t);
    LooksWithKey(key, g, k, SortBy(key, s), SortBy(key, t));
  }

  /** Let two lists have the same keys, and at the first place where they differ elements of one key that
      look different: then they look different when sorted. */
  lemma ChangeShows<A(!new)>(key: Key, g: View<A>, s: seq<Node>, t: seq<Node>, i: nat)
    requires i < |s| && i < |t| && s[..i] == t[..i] && key(s[i]) == key(t[i]) && g(s[i]) != g(t[i])
    requires multiset(Map(key, s)) == multiset(Map(key, t))
    ensures Map(g, SortBy(key, s)) != Map(g, SortBy(key, t))
  {
    DifferenceWithKey(key, g, s, t, i);
    if Map(g, SortBy(key, s)) == Map(g, SortBy(key, t)) { SortedLooksWithKey(key, g, key(s[i]), s, t); }
  }

  function Exchanged(s: seq<Node>, i: nat, j: nat): (t: seq<Node>)
    requires i < j < |s|
    ensures multiset(t) == multiset(s) && |t| == |s|
  {
    var t := s[i := s[j]][j := s[i]];
    ExchangeKeeps(s, i, j);
    t
  }

  lemma ExchangeKeeps(s: seq<Node>, i: nat, j: nat)
    requires i < j < |s|
    ensures multiset(s[i := s[j]][j := s[i]]) == multiset(s)
  {
    assert s == s[..i] + [s[i]] + s[i + 1..j] + [s[j]] + s[j + 1..];
    assert s[i := s[j]][j := s[i]] == s[..i] + [s[j]] + s[i + 1..j] + [s[i]] + s[j + 1..];
  }

  /** Exchanging two elements with equal keys shows exactly if they look different. */
  lemma ExchangeShows<A(!new)>(key: Key, g: View<A>, s: seq<Node>, i: nat, j: nat)
    requires i < j < |s| && key(s[i]) == key(s[j])
    ensures Map(g, SortBy(key, s)) != Map(g, SortBy(key, Exchanged(s, i, j))) <==> g(s[i]) != g(s[j])
  {
    var t := Exchanged(s, i, j);
    if g(s[i]) == g(s[j]) {
      SameListsSortAlike(key, g, s, t);
    } else {
      MapRearranged(key, s, t);
      ChangeShows(key, g, s, t, i);
    }
  }

  /** An element that looks different under the same key shows too. */
  lemma ReplacedShows<A(!new)>(key: Key, g: View<A>, s: seq<Node>, i: nat, n: Node)
    requires i < |s| && key(s[i]) == key(n) && g(s[i]) != g(n)
    ensures Map(g, SortBy(key, s)) != Map(g, SortBy(key, s[i := n]))
  {
    var t := s[i := n];
    SameKeysAlign(key, s, t);
    ChangeShows(key, g, s, t, i);
  }

  lemma {:induction false} SameKeysAlign(key: Key, s: seq<Node>, t: seq<Node>)
    requires |s| == |t| && forall i :: 0 <= i < |s| ==> key(s[i]) == key(t[i])
    ensures Map(key, s) == Map(key, t)
    decreases |s|
  {
    if s != [] { SameKeysAlign(key, s[1..], t[1..]); }
  }

  lemma UnlikePair<A>(key: Key, g: View<A>, items: seq<Node>) returns (i: nat, j: nat)
    requires !AlikeKeys(key, g, items)
    ensures i < j < |items| && key(items[i]) == key(items[j]) && g(items[i]) != g(items[j])
  {
    i, j :| 0 <= i < j < |items| && key(items[i]) == key(items[j]) && g(items[i]) != g(items[j]);
  }
}
