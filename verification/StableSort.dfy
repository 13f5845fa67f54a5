/** Stable sorting by a comparison, and the lexicographic order of number sequences. */
module StableSort {

  ghost predicate Order<A(!new)>(leq: (A, A) -> bool) {
    && (forall a, b :: leq(a, b) || leq(b, a))
    && (forall a, b, c :: leq(a, b) && leq(b, c) ==> leq(a, c))
  }

  function Insert<A>(leq: (A, A) -> bool, x: A, s: seq<A>): seq<A> {
    if s == [] || leq(x, s[0]) then [x] + s else [s[0]] + Insert(leq, x, s[1..])
  }

  /** The sorted rearrangement that keeps equal elements in their order. */
  function Sort<A>(leq: (A, A) -> bool, s: seq<A>): seq<A> {
    if s == [] then [] else Insert(leq, s[0], Sort(leq, s[1..]))
  }

  predicate Sorted<A>(leq: (A, A) -> bool, s: seq<A>) {
    forall i, j :: 0 <= i < j < |s| ==> leq(s[i], s[j])
  }

  lemma {:induction false} InsertAdds<A>(leq: (A, A) -> bool, x: A, s: seq<A>)
    ensures multiset(Insert(leq, x, s)) == multiset(s) + multiset{x}
  {
    if s != [] && !leq(x, s[0]) {
      InsertAdds(leq, x, s[1..]);
      assert s == [s[0]] + s[1..];
    }
  }

  lemma {:induction false} InsertKeepsOrder<A(!new)>(leq: (A, A) -> bool, x: A, s: seq<A>)
    requires Order(leq) && Sorted(leq, s)
    ensures Sorted(leq, Insert(leq, x, s))
  {
    if s != [] && !leq(x, s[0]) {
      var rest := Insert(leq, x, s[1..]);
      InsertKeepsOrder(leq, x, s[1..]);
      InsertAdds(leq, x, s[1..]);
      forall j | 0 <= j < |rest| ensures leq(s[0], rest[j]) {
        assert rest[j] in multiset(rest);
        assert rest[j] == x || rest[j] in s[1..];
      }
    } else if s != [] {
      forall j | 0 <= j < |s| ensures leq(x, s[j]) { assert j == 0 || leq(s[0], s[j]); }
    }
  }

  lemma {:induction false} SortSorts<A(!new)>(leq: (A, A) -> bool, s: seq<A>)
    requires Order(leq)
    ensures Sorted(leq, Sort(leq, s)) && multiset(Sort(leq, s)) == multiset(s) && |Sort(leq, s)| == |s|
  {
    if s != [] {
      SortSorts(leq, s[1..]);
      InsertKeepsOrder(leq, s[0], Sort(leq, s[1..]));
      InsertAdds(leq, s[0], Sort(leq, s[1..]));
      assert s == [s[0]] + s[1..];
      assert |multiset(Sort(leq, s))| == |multiset(s)|;
    }
  }

  /** What is sorted stays as it is. */
  lemma {:induction false} SortedStays<A(!new)>(leq: (A, A) -> bool, s: seq<A>)
    requires Sorted(leq, s)
    ensures Sort(leq, s) == s
  {
    if s != [] {
      SortedStays(leq, s[1..]);
      assert s == [s[0]] + s[1..];
      if |s| > 1 { assert leq(s[0], s[1]); }
    }
  }

  ghost predicate Antisymmetric<A(!new)>(leq: (A, A) -> bool, s: seq<A>) {
    forall x, y :: x in s && y in s && leq(x, y) && leq(y, x) ==> x == y
  }

  lemma RemoveFirst<A>(s: seq<A>)
    requires s != []
    ensures multiset(s[1..]) == multiset(s) - multiset{s[0]}
  {
    assert s == [s[0]] + s[1..];
  }

  /** Distinct keys leave one sorted arrangement. */
  lemma {:induction false} OneArrangement<A(!new)>(leq: (A, A) -> bool, s: seq<A>, t: seq<A>)
    requires Sorted(leq, s) && Sorted(leq, t) && multiset(s) == multiset(t) && Antisymmetric(leq, s)
    requires Order(leq)
    ensures s == t
  {
    assert |multiset(s)| == |multiset(t)|;
    if s != [] {
      SameFirst(leq, s, t);
      TailsArrange(leq, s, t);
      OneArrangement(leq, s[1..], t[1..]);
      assert s == [s[0]] + s[1..] && t == [t[0]] + t[1..];
    }
  }

  lemma TailsArrange<A(!new)>(leq: (A, A) -> bool, s: seq<A>, t: seq<A>)
    requires Sorted(leq, s) && Sorted(leq, t) && multiset(s) == multiset(t) && Antisymmetric(leq, s)
    requires s != [] && t != [] && s[0] == t[0]
    ensures Sorted(leq, s[1..]) && Sorted(leq, t[1..]) && multiset(s[1..]) == multiset(t[1..])
    ensures Antisymmetric(leq, s[1..])
  {
    RemoveFirst(s);
    RemoveFirst(t);
  }

  lemma SameFirst<A(!new)>(leq: (A, A) -> bool, s: seq<A>, t: seq<A>)
    requires Sorted(leq, s) && Sorted(leq, t) && multiset(s) == multiset(t) && Antisymmetric(leq, s)
    requires Order(leq) && s != [] && t != []
    ensures s[0] == t[0]
  {
    assert s[0] in multiset(t) && t[0] in multiset(s);
    var i :| 0 <= i < |t| && t[i] == s[0];
    var j :| 0 <= j < |s| && s[j] == t[0];
    assert i == 0 || leq(t[0], t[i]);
    assert j == 0 || leq(s[0], s[j]);
    assert leq(s[0], s[0]);
  }

  /** Rearranging a sequence with distinct keys does not change what it sorts to. */
  lemma SortForgetsOrder<A(!new)>(leq: (A, A) -> bool, s: seq<A>, t: seq<A>)
    requires Order(leq) && multiset(s) == multiset(t) && Antisymmetric(leq, s)
    ensures Sort(leq, s) == Sort(leq, t)
  {
    SortSorts(leq, s);
    SortSorts(leq, t);
    forall x | x in Sort(leq, s) ensures x in s { assert x in multiset(Sort(leq, s)); }
    OneArrangement(leq, Sort(leq, s), Sort(leq, t));
  }

  function Map<A, B>(f: A -> B, s: seq<A>): seq<B> {
    if s == [] then [] else [f(s[0])] + Map(f, s[1..])
  }

  lemma {:induction false} MapAt<A, B>(f: A -> B, s: seq<A>, i: nat)
    requires i < |s|
    ensures |Map(f, s)| == |s| && Map(f, s)[i] == f(s[i])
  {
    if i > 0 { MapAt(f, s[1..], i - 1); } else if |s| > 1 { MapAt(f, s[1..], 0); }
  }

  lemma {:induction false} MapLength<A, B>(f: A -> B, s: seq<A>)
    ensures |Map(f, s)| == |s|
  {
    if s != [] { MapLength(f, s[1..]); }
  }

  lemma {:induction false} MapSame<A(!new), B>(f: A -> B, g: A -> B, s: seq<A>)
    requires forall x :: x in s ==> f(x) == g(x)
    ensures Map(f, s) == Map(g, s)
  {
    if s != [] {
      assert s[0] in s;
      MapSame(f, g, s[1..]);
    }
  }

  lemma {:induction false} MapTwice<A(!new), B, C>(f: A -> B, g: B -> C, h: A -> C, s: seq<A>)
    requires forall x :: x in s ==> g(f(x)) == h(x)
    ensures Map(g, Map(f, s)) == Map(h, s)
  {
    if s != [] {
      assert s[0] in s;
      assert Map(f, s)[1..] == Map(f, s[1..]);
      MapTwice(f, g, h, s[1..]);
    }
  }

  lemma {:induction false} MapConcat<A, B>(f: A -> B, s: seq<A>, t: seq<A>)
    ensures Map(f, s + t) == Map(f, s) + Map(f, t)
  {
    if s == [] {
      assert s + t == t;
    } else {
      assert (s + t)[1..] == s[1..] + t;
      MapConcat(f, s[1..], t);
    }
  }

  lemma MiddleOut<B>(left: seq<B>, x: B, right: seq<B>)
    ensures multiset(left + ([x] + right)) == multiset(left + right) + multiset{x}
  {
    assert multiset(left + ([x] + right)) == multiset(left) + multiset{x} + multiset(right);
  }

  lemma MapMiddle<A, B>(f: A -> B, left: seq<A>, x: A, right: seq<A>)
    ensures multiset(Map(f, left + ([x] + right))) == multiset(Map(f, left + right)) + multiset{f(x)}
  {
    MapConcat(f, left, [x] + right);
    MapConcat(f, [x], right);
    MapConcat(f, left, right);
    MiddleOut(Map(f, left), f(x), Map(f, right));
  }

  lemma Occurs<A>(x: A, t: seq<A>) returns (left: seq<A>, right: seq<A>)
    requires x in t
    ensures t == left + ([x] + right)
  {
    var i :| 0 <= i < |t| && t[i] == x;
    left, right := t[..i], t[i + 1..];
  }

  lemma FirstOccurs<A>(s: seq<A>, t: seq<A>)
    requires multiset(s) == multiset(t) && s != []
    ensures s[0] in t
  {
    assert s[0] in multiset(t);
  }

  lemma WithoutFirst<A>(s: seq<A>, t: seq<A>) returns (left: seq<A>, right: seq<A>)
    requires multiset(s) == multiset(t) && s != []
    ensures t == left + ([s[0]] + right) && multiset(left + right) == multiset(s[1..])
  {
    FirstOccurs(s, t);
    left, right := Occurs(s[0], t);
    MiddleOut(left, s[0], right);
    RemoveFirst(s);
  }

  /** Rearranged sequences map to rearranged sequences. */
  lemma {:induction false} MapRearranged<A(!new), B>(f: A -> B, s: seq<A>, t: seq<A>)
    requires multiset(s) == multiset(t)
    ensures multiset(Map(f, s)) == multiset(Map(f, t))
    decreases |s|
  {
    if s == [] {
      assert |multiset(t)| == 0;
    } else {
      var left, right := WithoutFirst(s, t);
      MapRearranged(f, s[1..], left + right);
      MapMiddle(f, left, s[0], right);
      assert Map(f, s) == [f(s[0])] + Map(f, s[1..]);
    }
  }

  lemma {:induction false} InsertMap<A, B>(f: A -> B, p: (A, A) -> bool, q: (B, B) -> bool, x: A, s: seq<A>)
    requires forall y :: y in s ==> (q(f(x), f(y)) <==> p(x, y))
    ensures Map(f, Insert(p, x, s)) == Insert(q, f(x), Map(f, s))
  {
    if s != [] {
      assert s[0] in s;
      if !p(x, s[0]) { InsertMap(f, p, q, x, s[1..]); }
    }
  }

  /** Sorting commutes with a change that leaves the keys alone. */
  lemma {:induction false} SortMap<A(!new), B>(f: A -> B, p: (A, A) -> bool, q: (B, B) -> bool, s: seq<A>)
    requires Order(p) && forall x, y :: x in s && y in s ==> (q(f(x), f(y)) <==> p(x, y))
    ensures Map(f, Sort(p, s)) == Sort(q, Map(f, s))
  {
    if s != [] {
      SortMap(f, p, q, s[1..]);
      SortSorts(p, s[1..]);
      forall y | y in Sort(p, s[1..]) ensures q(f(s[0]), f(y)) <==> p(s[0], y) {
        assert y in multiset(Sort(p, s[1..]));
        assert y in s && s[0] in s;
      }
      InsertMap(f, p, q, s[0], Sort(p, s[1..]));
    }
  }

  // ---------------------------------------------------------------- lexicographic order

  predicate LexLeq(a: seq<int>, b: seq<int>) {
    a == [] || (b != [] && (a[0] < b[0] || (a[0] == b[0] && LexLeq(a[1..], b[1..]))))
  }

  lemma {:induction false} LexTotal(a: seq<int>, b: seq<int>)
    ensures LexLeq(a, b) || LexLeq(b, a)
  {
    if a != [] && b != [] { LexTotal(a[1..], b[1..]); }
  }

  lemma {:induction false} LexTransitive(a: seq<int>, b: seq<int>, c: seq<int>)
    requires LexLeq(a, b) && LexLeq(b, c)
    ensures LexLeq(a, c)
  {
    if a != [] && b != [] && c != [] && a[0] == b[0] == c[0] { LexTransitive(a[1..], b[1..], c[1..]); }
  }

  lemma {:induction false} LexAntisymmetric(a: seq<int>, b: seq<int>)
    requires LexLeq(a, b) && LexLeq(b, a)
    ensures a == b
  {
    if a != [] {
      LexAntisymmetric(a[1..], b[1..]);
      assert a == [a[0]] + a[1..] && b == [b[0]] + b[1..];
    }
  }

  /** Up to place `n` the two are equal, and there the first has the smaller number. */
  predicate SmallerAt(a: seq<int>, b: seq<int>, n: int) {
    0 <= n < |a| && n < |b| && a[..n] == b[..n] && a[n] < b[n]
  }

  /** A proper prefix, or smaller at the first place where the two differ. */
  ghost predicate Precedes(a: seq<int>, b: seq<int>) {
    a < b || exists n :: SmallerAt(a, b, n)
  }

  lemma PrecedesByTail(a: seq<int>, b: seq<int>)
    requires a != [] && b != [] && a[0] == b[0]
    ensures Precedes(a, b) <==> Precedes(a[1..], b[1..])
  {
    assert a == [a[0]] + a[1..] && b == [b[0]] + b[1..];
    if exists n :: SmallerAt(a, b, n) {
      var n :| SmallerAt(a, b, n);
      assert a[1..][..n - 1] == a[..n][1..] && b[1..][..n - 1] == b[..n][1..];
      assert SmallerAt(a[1..], b[1..], n - 1);
    }
    if exists n :: SmallerAt(a[1..], b[1..], n) {
      var n :| SmallerAt(a[1..], b[1..], n);
      assert a[..n + 1] == [a[0]] + a[1..][..n] && b[..n + 1] == [b[0]] + b[1..][..n];
      assert SmallerAt(a, b, n + 1);
    }
  }

  lemma FirstOfPrefix(a: seq<int>, b: seq<int>, n: int)
    requires SmallerAt(a, b, n)
    ensures n > 0 ==> a[0] == b[0]
  {
    if n > 0 { assert a[0] == a[..n][0] && b[0] == b[..n][0]; }
  }

  /** Lexicographic order is that of the first difference. */
  lemma {:induction false} LexLeqExactly(a: seq<int>, b: seq<int>)
    ensures LexLeq(a, b) <==> a == b || Precedes(a, b)
  {
    if a == [] || b == [] {
    } else if a[0] == b[0] {
      LexLeqExactly(a[1..], b[1..]);
      PrecedesByTail(a, b);
      assert a == [a[0]] + a[1..] && b == [b[0]] + b[1..];
    } else {
      assert a[..0] == b[..0];
      if a[0] < b[0] { assert SmallerAt(a, b, 0); }
      forall n | SmallerAt(a, b, n) ensures n == 0 { FirstOfPrefix(a, b, n); }
    }
  }
}
