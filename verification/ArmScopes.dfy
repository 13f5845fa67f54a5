/** Azure resource identifiers and scopes as the preflight reads them: the resource type of an
    identifier, and the order of scopes that separation rules are tested with. */
module ArmScopes {

  import opened Options

  // ---------------------------------------------------------------- segments

  function Split(s: string): (r: seq<string>)
    ensures |r| >= 1
  {
    if s == "" then [""]
    else if s[0] == '/' then [""] + Split(s[1..])
    else
      var rest := Split(s[1..]);
      [[s[0]] + rest[0]] + rest[1..]
  }

  function Join(segments: seq<string>): string {
    if segments == [] then "" else if |segments| == 1 then segments[0] else segments[0] + "/" + Join(segments[1..])
  }

  predicate Plain(s: string) { '/' !in s }

  lemma {:induction false} JoinSplit(s: string)
    ensures Join(Split(s)) == s
  {
    if s != "" {
      JoinSplit(s[1..]);
      var rest := Split(s[1..]);
      if s[0] == '/' {
        assert ([""] + rest)[1..] == rest;
        assert Join(Split(s)) == "" + "/" + s[1..];
      } else {
        var all := [[s[0]] + rest[0]] + rest[1..];
        assert all[1..] == rest[1..];
        assert s == [s[0]] + s[1..];
      }
    }
  }

  lemma {:induction false} SplitPlain(s: string)
    requires Plain(s)
    ensures Split(s) == [s]
  {
    if s != "" {
      SplitPlain(s[1..]);
      assert s == [s[0]] + s[1..];
    }
  }

  /** Put `c` in front of the first segment. */
  function Onto(c: char, segments: seq<string>): seq<string>
    requires segments != []
  {
    [[c] + segments[0]] + segments[1..]
  }

  lemma SplitCons(c: char, tail: string)
    ensures Split([c] + tail) == if c == '/' then [""] + Split(tail) else Onto(c, Split(tail))
  {
    assert ([c] + tail)[1..] == tail;
  }

  lemma OntoFirst(c: char, a: seq<string>, b: seq<string>)
    requires a != []
    ensures Onto(c, a + b) == Onto(c, a) + b
  {
  }

  /** A slash between two texts separates their segments. */
  lemma {:induction false} SplitAround(a: string, b: string)
    ensures Split(a + "/" + b) == Split(a) + Split(b)
  {
    if a == "" {
      SplitCons('/', b);
      assert a + "/" + b == ['/'] + b;
    } else {
      SplitAround(a[1..], b);
      assert a == [a[0]] + a[1..] && a + "/" + b == [a[0]] + (a[1..] + "/" + b);
      SplitOneMore(a[0], a[1..], a[1..] + "/" + b, b);
    }
  }

  lemma SplitOneMore(c: char, tail: string, rest: string, b: string)
    requires Split(rest) == Split(tail) + Split(b)
    ensures Split([c] + rest) == Split([c] + tail) + Split(b)
  {
    SplitCons(c, tail);
    SplitCons(c, rest);
    if c == '/' {
      InFront([""], Split(tail), Split(b));
    } else {
      OntoFirst(c, Split(tail), Split(b));
    }
  }

  lemma InFront(head: seq<string>, a: seq<string>, b: seq<string>)
    ensures head + (a + b) == (head + a) + b
  {
  }

  lemma {:induction false} JoinAround(a: seq<string>, b: seq<string>)
    requires a != [] && b != []
    ensures Join(a + b) == Join(a) + "/" + Join(b)
  {
    if |a| == 1 {
      assert (a + b)[1..] == b;
    } else {
      JoinAround(a[1..], b);
      assert (a + b)[1..] == a[1..] + b;
      assert a[0] + "/" + (Join(a[1..]) + "/" + Join(b)) == a[0] + "/" + Join(a[1..]) + "/" + Join(b);
    }
  }

  lemma {:induction false} SplitJoin(segments: seq<string>)
    requires segments != [] && forall i :: 0 <= i < |segments| ==> Plain(segments[i])
    ensures Split(Join(segments)) == segments
  {
    SplitPlain(segments[0]);
    if |segments| > 1 {
      SplitJoin(segments[1..]);
      SplitAround(segments[0], Join(segments[1..]));
    } else {
      assert segments == [segments[0]];
    }
  }

  // ---------------------------------------------------------------- the order of scopes

  /** `rstrip("/") or "/"`. */
  function TrimEnd(s: string): string {
    if s != "" && s[|s| - 1] == '/' then TrimEnd(s[..|s| - 1]) else s
  }

  function Normal(scope: string): string {
    var s := TrimEnd(scope);
    if s == "" then "/" else s
  }

  /** `_scope_contains`. */
  predicate ScopeContains(ancestor: string, descendant: string) {
    var a, d := Normal(ancestor), Normal(descendant);
    a == "/" || d == a || a + "/" <= d
  }

  lemma {:induction false} TrimEndEnds(s: string)
    ensures TrimEnd(s) == "" || TrimEnd(s)[|TrimEnd(s)| - 1] != '/'
    ensures TrimEnd(s) <= s
  {
    if s != "" && s[|s| - 1] == '/' {
      TrimEndEnds(s[..|s| - 1]);
    }
  }

  /** Text prefixes at a slash are exactly prefixes of segment lists. */
  lemma PrefixIsSegmentPrefix(a: string, d: string)
    ensures (d == a || a + "/" <= d) <==> Split(a) <= Split(d)
  {
    if a + "/" <= d {
      var rest := d[|a| + 1..];
      assert d == a + "/" + rest;
      SplitAround(a, rest);
    }
    if Split(a) <= Split(d) { SegmentPrefixIsPrefix(a, d); }
  }

  lemma SegmentPrefixIsPrefix(a: string, d: string)
    requires Split(a) <= Split(d)
    ensures d == a || a + "/" <= d
  {
    JoinSplit(a);
    JoinSplit(d);
    var rest := Split(d)[|Split(a)|..];
    assert Split(d) == Split(a) + rest;
    if rest == [] {
      assert Split(d) == Split(a);
    } else {
      JoinAround(Split(a), rest);
      assert d == a + "/" + Join(rest);
    }
  }

  /** A scope contains another exactly when it is the root or its segments begin the other's. */
  lemma ContainsIsSegmentPrefix(ancestor: string, descendant: string)
    ensures ScopeContains(ancestor, descendant)
       <==> Normal(ancestor) == "/" || Split(Normal(ancestor)) <= Split(Normal(descendant))
  {
    PrefixIsSegmentPrefix(Normal(ancestor), Normal(descendant));
  }

  lemma ContainsReflexive(a: string)
    ensures ScopeContains(a, a)
  {
  }

  lemma ContainsTransitive(a: string, b: string, c: string)
    requires ScopeContains(a, b) && ScopeContains(b, c)
    ensures ScopeContains(a, c)
  {
    ContainsIsSegmentPrefix(a, b);
    ContainsIsSegmentPrefix(b, c);
    ContainsIsSegmentPrefix(a, c);
    if Normal(a) != "/" && Normal(b) == "/" { OnlyRootContainsRoot(a, b); }
  }

  lemma OnlyRootContainsRoot(a: string, b: string)
    requires ScopeContains(a, b) && Normal(b) == "/"
    ensures Normal(a) == "/"
  {
    TrimEndEnds(a);
  }

  /** Scopes that contain each other are the same scope, spelled perhaps with other trailing slashes. */
  lemma ContainsAntisymmetric(a: string, b: string)
    requires ScopeContains(a, b) && ScopeContains(b, a)
    ensures Normal(a) == Normal(b)
  {
    if Normal(a) == "/" { OnlyRootContainsRoot(b, a); }
    if Normal(b) == "/" { OnlyRootContainsRoot(a, b); }
    ContainsIsSegmentPrefix(a, b);
    ContainsIsSegmentPrefix(b, a);
    JoinSplit(Normal(a));
    JoinSplit(Normal(b));
  }

  predicate Comparable(a: string, b: string) { ScopeContains(a, b) || ScopeContains(b, a) }

  /** Two scopes are comparable exactly when something lies in both. */
  lemma ComparableIffOverlapping(a: string, b: string)
    ensures Comparable(a, b) <==> exists x :: ScopeContains(a, x) && ScopeContains(b, x)
  {
    ContainsReflexive(a);
    ContainsReflexive(b);
    if x :| ScopeContains(a, x) && ScopeContains(b, x) {
      ContainsIsSegmentPrefix(a, x);
      ContainsIsSegmentPrefix(b, x);
      ContainsIsSegmentPrefix(a, b);
      ContainsIsSegmentPrefix(b, a);
      ShorterPrefix(Split(Normal(a)), Split(Normal(b)), Split(Normal(x)));
    }
  }

  lemma ShorterPrefix(p: seq<string>, q: seq<string>, s: seq<string>)
    ensures p <= s && q <= s ==> p <= q || q <= p
  {
    if p <= s && q <= s {
      if |p| <= |q| {
        assert p == s[..|p|] && q == s[..|q|] && q[..|p|] == s[..|p|];
      } else {
        assert p == s[..|p|] && q == s[..|q|] && p[..|q|] == s[..|q|];
      }
    }
  }

  // ---------------------------------------------------------------- resource types

  const PROVIDERS := "providers"

  function Scan(segments: seq<string>, i: nat, last: nat): nat
    decreases |segments| - i
  {
    if i >= |segments| then last
    else Scan(segments, i + 2, if segments[i] == PROVIDERS then i else last)
  }

  /** `s[::2]`. */
  function EverySecond(s: seq<string>): seq<string> {
    if s == [] then [] else [s[0]] + (if |s| == 1 then [] else EverySecond(s[2..]))
  }

  /** Where the first provider block must begin. */
  function FirstProvider(segments: seq<string>): Option<nat> {
    if |segments| >= 5 && segments[0] == "subscriptions" then Some(if segments[2] == "resourcegroups" then 4 else 2)
    else if segments != [] && segments[0] == PROVIDERS then Some(0)
    else None
  }

  /** Namespace and types, before they are joined. */
  function TypeOfSegments(segments: seq<string>): Option<seq<string>> {
    var first := FirstProvider(segments);
    if first.None? || first.value >= |segments| || segments[first.value] != PROVIDERS then None
    else
      var p := Scan(segments, first.value + 4, first.value);
      if p + 1 >= |segments| then None
      else
        var types := EverySecond(if p + 2 <= |segments| then segments[p + 2..] else []);
        var names := EverySecond(if p + 3 <= |segments| then segments[p + 3..] else []);
        if types == [] || |types| != |names| then None else Some([segments[p + 1]] + types)
  }

  /** Case folding works character by character, and neither makes nor removes slashes. */
  ghost predicate Folding(fold: string -> string) {
    && fold("/") == "/"
    && (forall a: string, b: string :: fold(a + b) == fold(a) + fold(b))
    && (forall s: string :: fold(s) == "" <==> s == "")
    && forall s: string :: Plain(s) ==> Plain(fold(s))
  }

  function TrimStart(s: string): string {
    if s != "" && s[0] == '/' then TrimStart(s[1..]) else s
  }

  function NonEmpty(segments: seq<string>): seq<string> {
    if segments == [] then [] else (if segments[0] == "" then [] else [segments[0]]) + NonEmpty(segments[1..])
  }

  /** `_resource_type`. */
  function ResourceType(fold: string -> string, id: string): Option<string> {
    var found := TypeOfSegments(NonEmpty(Split(fold(TrimEnd(TrimStart(id))))));
    if found.None? then None else Some(Join(found.value))
  }

  // ---------------------------------------------------------------- rendered identifiers

  datatype Block = Block(namespace: string, kinds: seq<(string, string)>)

  function FlatPairs(pairs: seq<(string, string)>): seq<string> {
    if pairs == [] then [] else [pairs[0].0, pairs[0].1] + FlatPairs(pairs[1..])
  }

  function Flat(b: Block): seq<string> { [PROVIDERS, b.namespace] + FlatPairs(b.kinds) }

  function Chain(blocks: seq<Block>): seq<string> {
    if blocks == [] then [] else Flat(blocks[0]) + Chain(blocks[1..])
  }

  function Types(pairs: seq<(string, string)>): seq<string> {
    if pairs == [] then [] else [pairs[0].0] + Types(pairs[1..])
  }

  function Names(pairs: seq<(string, string)>): seq<string> {
    if pairs == [] then [] else [pairs[0].1] + Names(pairs[1..])
  }

  predicate AllKinded(blocks: seq<Block>) {
    forall i :: 0 <= i < |blocks| ==> blocks[i].kinds != []
  }

  /** The last type called "providers", from the given place on. */
  function LastProvidersType(pairs: seq<(string, string)>, from: nat): (k: Option<nat>)
    ensures k.None? <==> forall i :: from <= i < |pairs| ==> pairs[i].0 != PROVIDERS
    ensures k.Some? ==> from <= k.value < |pairs| && pairs[k.value].0 == PROVIDERS
    ensures k.Some? ==> forall i :: k.value < i < |pairs| ==> pairs[i].0 != PROVIDERS
  {
    if |pairs| <= from then None
    else if pairs[|pairs| - 1].0 == PROVIDERS then Some(|pairs| - 1)
    else LastProvidersType(pairs[..|pairs| - 1], from)
  }

  /** The scan starts behind the first type of the identifier, so it sees that type only if a further
      block follows. */
  function FirstSeen(blocks: seq<Block>): nat { if |blocks| == 1 then 1 else 0 }

  /** No type of the last block that the scan sees is called "providers". */
  predicate ReadAsWritten(blocks: seq<Block>)
    requires blocks != []
  {
    var last := blocks[|blocks| - 1];
    forall i :: FirstSeen(blocks) <= i < |last.kinds| ==> last.kinds[i].0 != PROVIDERS
  }

  /** The block the scan settles on: the last one, or what follows a type it takes for a new block. */
  function Settled(blocks: seq<Block>): Block
    requires blocks != []
  {
    SettledIn(blocks[|blocks| - 1], FirstSeen(blocks))
  }

  function SettledIn(last: Block, seen: nat): Block {
    var k := LastProvidersType(last.kinds, seen);
    if k.None? then last else Block(last.kinds[k.value].1, last.kinds[k.value + 1..])
  }

  function TypeOfBlock(b: Block): Option<seq<string>> {
    if b.kinds == [] then None else Some([b.namespace] + Types(b.kinds))
  }

  lemma {:induction false} PairsSplit(pairs: seq<(string, string)>)
    ensures |FlatPairs(pairs)| == 2 * |pairs|
    ensures EverySecond(FlatPairs(pairs)) == Types(pairs)
    ensures pairs != [] ==> EverySecond(FlatPairs(pairs)[1..]) == Names(pairs)
    ensures |Types(pairs)| == |Names(pairs)| == |pairs|
  {
    if pairs != [] {
      var flat, rest := FlatPairs(pairs), FlatPairs(pairs[1..]);
      PairsSplit(pairs[1..]);
      assert flat == [pairs[0].0, pairs[0].1] + rest;
      assert flat[2..] == rest;
      assert flat[1..] == [pairs[0].1] + rest;
      if pairs[1..] != [] {
        assert flat[1..][2..] == rest[1..];
      } else {
        assert rest == [] && flat[1..] == [pairs[0].1];
      }
    }
  }

  /** The scan ends at the last provider segment it can see. */
  lemma {:induction false} ScanFinds(s: seq<string>, i: nat, last: nat, p: nat)
    requires i <= p < |s| && (p - i) % 2 == 0 && s[p] == PROVIDERS
    requires forall q :: p < q < |s| && (q - p) % 2 == 0 ==> s[q] != PROVIDERS
    ensures Scan(s, i, last) == p
    decreases p - i
  {
    if i == p { ScanPasses(s, p + 2, p); } else { ScanFinds(s, i + 2, if s[i] == PROVIDERS then i else last, p); }
  }

  lemma {:induction false} ScanPasses(s: seq<string>, i: nat, last: nat)
    requires forall q :: i <= q < |s| && (q - i) % 2 == 0 ==> s[q] != PROVIDERS
    ensures Scan(s, i, last) == last
    decreases |s| - i
  {
    if i < |s| {
      assert (i - i) % 2 == 0;
      ScanPasses(s, i + 2, last);
    }
  }

  lemma {:induction false} PairAt(pairs: seq<(string, string)>, k: nat)
    requires k < |pairs|
    ensures |FlatPairs(pairs)| == 2 * |pairs|
    ensures FlatPairs(pairs)[2 * k] == pairs[k].0 && FlatPairs(pairs)[2 * k..] == FlatPairs(pairs[k..])
  {
    PairsSplit(pairs);
    if k > 0 {
      PairAt(pairs[1..], k - 1);
      assert FlatPairs(pairs) == [pairs[0].0, pairs[0].1] + FlatPairs(pairs[1..]);
      assert pairs[1..][k - 1..] == pairs[k..];
    }
  }

  /** From a type called "providers" on, a block reads as another block. */
  lemma BlockInside(b: Block, k: nat)
    requires k < |b.kinds| && b.kinds[k].0 == PROVIDERS
    ensures 2 + 2 * k <= |Flat(b)|
    ensures Flat(b)[2 + 2 * k..] == Flat(Block(b.kinds[k].1, b.kinds[k + 1..]))
  {
    PairAt(b.kinds, k);
    var flat, rest := FlatPairs(b.kinds), b.kinds[k..];
    assert Flat(b) == [PROVIDERS, b.namespace] + flat;
    assert Flat(b)[2 + 2 * k..] == flat[2 * k..];
    assert rest[1..] == b.kinds[k + 1..];
    assert [rest[0].0, rest[0].1] + FlatPairs(rest[1..]) == Flat(Block(b.kinds[k].1, b.kinds[k + 1..]));
  }

  /** Behind its head a block without a type called "providers" gives the scan nothing to stop at. */
  lemma NothingBehind(b: Block, from: nat, q: nat)
    requires forall i :: from <= i < |b.kinds| ==> b.kinds[i].0 != PROVIDERS
    requires 2 + 2 * from <= q < |Flat(b)| && q % 2 == 0
    ensures Flat(b)[q] != PROVIDERS
  {
    PairsSplit(b.kinds);
    PairAt(b.kinds, (q - 2) / 2);
    assert Flat(b)[q] == FlatPairs(b.kinds)[q - 2];
  }

  function LastStart(start: nat, blocks: seq<Block>): nat
    requires blocks != []
    decreases |blocks|
  {
    if |blocks| == 1 then start else LastStart(start + |Flat(blocks[0])|, blocks[1..])
  }

  lemma {:induction false} LastStartPlace(start: nat, blocks: seq<Block>)
    requires blocks != [] && AllKinded(blocks)
    ensures var p := LastStart(start, blocks);
            start <= p && (p - start) % 2 == 0 && (if |blocks| == 1 then p == start else p >= start + 4)
    decreases |blocks|
  {
    if |blocks| > 1 {
      PairsSplit(blocks[0].kinds);
      LastStartPlace(start + |Flat(blocks[0])|, blocks[1..]);
    }
  }

  lemma {:induction false} LastStartSegments(all: seq<string>, start: nat, blocks: seq<Block>)
    requires blocks != [] && start <= |all| && all[start..] == Chain(blocks)
    ensures start <= LastStart(start, blocks) <= |all|
    ensures all[LastStart(start, blocks)..] == Flat(blocks[|blocks| - 1])
    decreases |blocks|
  {
    var flat, rest := Flat(blocks[0]), Chain(blocks[1..]);
    if |blocks| == 1 {
      assert flat + rest == flat;
    } else {
      FollowedBy(all, start, flat, rest);
      LastStartSegments(all, start + |flat|, blocks[1..]);
    }
  }

  lemma FollowedBy(all: seq<string>, start: nat, flat: seq<string>, rest: seq<string>)
    requires start <= |all| && all[start..] == flat + rest
    ensures start + |flat| <= |all| && all[start + |flat|..] == rest
  {
    assert all[start + |flat|..] == all[start..][|flat|..];
  }

  predicate ScopeSegments(s: seq<string>) {
    || s == []
    || (|s| == 2 && s[0] == "subscriptions")
    || (|s| == 4 && s[0] == "subscriptions" && s[2] == "resourcegroups")
  }

  /** Where the scan settles, and what stands from there on. */
  lemma ScanSettles(all: seq<string>, first: nat, blocks: seq<Block>) returns (p: nat)
    requires blocks != [] && AllKinded(blocks) && first <= |all| && all[first..] == Chain(blocks)
    ensures p == Scan(all, first + 4, first) <= |all| && all[p..] == Flat(Settled(blocks))
  {
    LastStartPlace(first, blocks);
    LastStartSegments(all, first, blocks);
    p := SettlesWithin(all, first, LastStart(first, blocks), blocks[|blocks| - 1], FirstSeen(blocks));
  }

  lemma Behind(scope: seq<string>, chain: seq<string>)
    ensures (scope + chain)[|scope|..] == chain
  {
  }

  lemma SettlesWithin(all: seq<string>, first: nat, start: nat, last: Block, seen: nat) returns (p: nat)
    requires start <= |all| && all[start..] == Flat(last) && seen <= 1
    requires if seen == 1 then start == first else first + 4 <= start && (start - first) % 2 == 0
    ensures p == Scan(all, first + 4, first) <= |all| && all[p..] == Flat(SettledIn(last, seen))
  {
    var k := LastProvidersType(last.kinds, seen);
    if k.Some? {
      p := SettlesInside(all, first + 4, first, start, last, k.value);
    } else {
      p := start;
      assert all[start..][0] == PROVIDERS;
      if seen == 1 { SettlesNowhere(all, start, last); } else { SettlesAt(all, first + 4, first, start, last, p, 0); }
    }
  }

  lemma SettlesInside(all: seq<string>, i: nat, first: nat, start: nat, last: Block, k: nat) returns (p: nat)
    requires start <= |all| && all[start..] == Flat(last) && k < |last.kinds| && last.kinds[k].0 == PROVIDERS
    requires forall j :: k < j < |last.kinds| ==> last.kinds[j].0 != PROVIDERS
    requires i <= start + 2 + 2 * k && (start - i) % 2 == 0
    ensures p == Scan(all, i, first) <= |all| && all[p..] == Flat(Block(last.kinds[k].1, last.kinds[k + 1..]))
  {
    BlockInside(last, k);
    p := start + 2 + 2 * k;
    assert all[p..] == all[start..][2 + 2 * k..];
    assert all[p] == all[p..][0] == PROVIDERS;
    SettlesAt(all, i, first, start, last, p, k + 1);
  }

  lemma SettlesNowhere(all: seq<string>, start: nat, last: Block)
    requires start <= |all| && all[start..] == Flat(last)
    requires forall j :: 1 <= j < |last.kinds| ==> last.kinds[j].0 != PROVIDERS
    ensures Scan(all, start + 4, start) == start
  {
    forall q | start + 4 <= q < |all| && (q - (start + 4)) % 2 == 0 ensures all[q] != PROVIDERS {
      assert all[q] == all[start..][q - start];
      NothingBehind(last, 1, q - start);
    }
    ScanPasses(all, start + 4, start);
  }

  lemma SettlesAt(all: seq<string>, i: nat, first: nat, start: nat, last: Block, p: nat, from: nat)
    requires start <= p <= |all| && all[start..] == Flat(last) && i <= p && (p - i) % 2 == 0
    requires p == (if from == 0 then start else start + 2 * from) && p < |all| && all[p] == PROVIDERS
    requires forall j :: from <= j < |last.kinds| ==> last.kinds[j].0 != PROVIDERS
    ensures Scan(all, i, first) == p
  {
    forall q | p < q < |all| && (q - p) % 2 == 0 ensures all[q] != PROVIDERS {
      assert all[q] == all[start..][q - start];
      NothingBehind(last, from, q - start);
    }
    ScanFinds(all, i, first, p);
  }

  /** What the scan reads of any chain of blocks: the type of the block it settles on. */
  lemma TypeOfChainIsSettled(scope: seq<string>, blocks: seq<Block>)
    requires ScopeSegments(scope) && blocks != [] && AllKinded(blocks)
    ensures TypeOfSegments(scope + Chain(blocks)) == TypeOfBlock(Settled(blocks))
  {
    FirstBlock(scope, blocks);
    Behind(scope, Chain(blocks));
    var p := ScanSettles(scope + Chain(blocks), |scope|, blocks);
    TypeOfLast(scope + Chain(blocks), |scope|, p, Settled(blocks));
  }

  /** The type read is that of the last block, whatever resources are called and whatever the blocks
      before it hold, exactly when no type of it that the scan sees is called "providers". */
  lemma {:induction false} TypeOfChain(scope: seq<string>, blocks: seq<Block>)
    requires ScopeSegments(scope) && blocks != [] && AllKinded(blocks)
    ensures var last := blocks[|blocks| - 1];
            TypeOfSegments(scope + Chain(blocks)) == Some([last.namespace] + Types(last.kinds)) <==> ReadAsWritten(blocks)
  {
    TypeOfChainIsSettled(scope, blocks);
    if !ReadAsWritten(blocks) { ShorterTypes(blocks[|blocks| - 1], Settled(blocks)); }
  }

  lemma ShorterTypes(b: Block, c: Block)
    requires |c.kinds| < |b.kinds|
    ensures TypeOfBlock(c) != Some([b.namespace] + Types(b.kinds))
  {
    PairsSplit(b.kinds);
    PairsSplit(c.kinds);
    assert |[b.namespace] + Types(b.kinds)| == 1 + |b.kinds| && |[c.namespace] + Types(c.kinds)| == 1 + |c.kinds|;
  }

  lemma TypeOfLast(all: seq<string>, first: nat, p: nat, last: Block)
    requires FirstProvider(all) == Some(first) && first < |all| && all[first] == PROVIDERS
    requires Scan(all, first + 4, first) == p <= |all| && all[p..] == Flat(last)
    ensures TypeOfSegments(all) == TypeOfBlock(last)
  {
    if last.kinds == [] {
      assert all[p..] == [PROVIDERS, last.namespace];
    } else {
      LastBlock(all, p, last);
    }
  }

  lemma {:induction false} FirstBlock(scope: seq<string>, blocks: seq<Block>)
    requires ScopeSegments(scope) && blocks != [] && blocks[0].kinds != []
    ensures FirstProvider(scope + Chain(blocks)) == Some(|scope|)
    ensures |scope| < |scope + Chain(blocks)| && (scope + Chain(blocks))[|scope|] == PROVIDERS
  {
    PairsSplit(blocks[0].kinds);
    var chain := Chain(blocks);
    assert chain == [PROVIDERS, blocks[0].namespace] + FlatPairs(blocks[0].kinds) + Chain(blocks[1..]);
    assert |chain| >= 4 && chain[0] == PROVIDERS;
  }

  lemma LastBlock(all: seq<string>, p: nat, last: Block)
    requires p <= |all| && all[p..] == Flat(last) && last.kinds != []
    ensures p + 3 <= |all| && all[p + 1] == last.namespace
    ensures EverySecond(all[p + 2..]) == Types(last.kinds) && EverySecond(all[p + 3..]) == Names(last.kinds)
    ensures Types(last.kinds) != [] && |Types(last.kinds)| == |Names(last.kinds)|
  {
    PairsSplit(last.kinds);
    assert all[p..][1] == last.namespace;
    assert all[p + 2..] == all[p..][2..] == FlatPairs(last.kinds);
    assert all[p + 3..] == FlatPairs(last.kinds)[1..];
  }

  // ---------------------------------------------------------------- from text

  function FoldAll(fold: string -> string, segments: seq<string>): seq<string> {
    seq(|segments|, i requires 0 <= i < |segments| => fold(segments[i]))
  }

  lemma {:induction false} FoldJoin(fold: string -> string, segments: seq<string>)
    requires Folding(fold)
    ensures fold(Join(segments)) == Join(FoldAll(fold, segments))
  {
    var folded := FoldAll(fold, segments);
    if |segments| > 1 {
      FoldJoin(fold, segments[1..]);
      assert fold(segments[0] + "/" + Join(segments[1..])) == fold(segments[0] + "/") + fold(Join(segments[1..]));
      assert fold(segments[0] + "/") == fold(segments[0]) + fold("/");
      assert folded[1..] == FoldAll(fold, segments[1..]);
    }
  }

  lemma {:induction false} NonEmptyKeeps(segments: seq<string>)
    requires forall i :: 0 <= i < |segments| ==> segments[i] != ""
    ensures NonEmpty(segments) == segments
  {
    if segments != [] { NonEmptyKeeps(segments[1..]); }
  }

  predicate SegmentText(s: string) { s != "" && Plain(s) }

  predicate AllSegments(segments: seq<string>) {
    forall i :: 0 <= i < |segments| ==> SegmentText(segments[i])
  }

  lemma {:induction false} JoinEnds(segments: seq<string>)
    requires segments != [] && AllSegments(segments)
    ensures var t := Join(segments); t != "" && t[0] != '/' && t[|t| - 1] != '/'
  {
    assert SegmentText(segments[0]);
    if |segments| > 1 { JoinEnds(segments[1..]); }
  }

  lemma TrimRendered(t: string)
    requires t != "" && t[0] != '/' && t[|t| - 1] != '/'
    ensures TrimEnd(TrimStart("/" + t)) == t
  {
    assert ("/" + t)[1..] == t;
  }

  /** An identifier written out segment by segment, in any case. */
  lemma ResourceTypeOfSegments(fold: string -> string, segments: seq<string>)
    requires Folding(fold) && segments != [] && AllSegments(segments)
    ensures var found := TypeOfSegments(FoldAll(fold, segments));
            ResourceType(fold, "/" + Join(segments)) == if found.None? then None else Some(Join(found.value))
  {
    JoinEnds(segments);
    TrimRendered(Join(segments));
    FoldJoin(fold, segments);
    var folded := FoldAll(fold, segments);
    forall i | 0 <= i < |folded| ensures SegmentText(folded[i]) {
      assert SegmentText(segments[i]);
    }
    SplitJoin(folded);
    NonEmptyKeeps(folded);
  }

  lemma {:induction false} EverySecondInside(s: seq<string>, x: string)
    requires x in EverySecond(s)
    ensures x in s
  {
    if |s| > 1 && x != s[0] {
      assert x in EverySecond(s[2..]);
      EverySecondInside(s[2..], x);
    }
  }

  lemma TypeIsInside(b: Block, x: string)
    requires x in [b.namespace] + Types(b.kinds)
    ensures x in Flat(b)
  {
    PairsSplit(b.kinds);
    if x != b.namespace { EverySecondInside(FlatPairs(b.kinds), x); }
  }

  /** Lists of non-empty plain segments are determined by what they join to. */
  lemma JoinDetermines(a: seq<string>, b: seq<string>)
    requires a != [] && b != [] && AllSegments(a) && AllSegments(b) && Join(a) == Join(b)
    ensures a == b
  {
    SplitJoin(a);
    SplitJoin(b);
  }

  lemma TypeSegmentsArePlain(all: seq<string>, p: nat, b: Block)
    requires AllSegments(all) && p <= |all| && all[p..] == Flat(b)
    ensures AllSegments([b.namespace] + Types(b.kinds))
  {
    var t := [b.namespace] + Types(b.kinds);
    forall i | 0 <= i < |t| ensures SegmentText(t[i]) {
      TypeIsInside(b, t[i]);
      assert t[i] in all[p..];
      var j :| 0 <= j < |all| && all[j] == t[i];
    }
  }

  /** `_resource_type` of a rendered identifier, whatever its case and whatever its resources are called:
      the namespace and types of the last provider block, exactly when none of the types that the scan
      sees there is called "providers". */
  lemma ResourceTypeOfRendered(fold: string -> string, segments: seq<string>, scope: seq<string>, blocks: seq<Block>)
    requires Folding(fold) && AllSegments(segments)
    requires FoldAll(fold, segments) == scope + Chain(blocks)
    requires ScopeSegments(scope) && blocks != [] && AllKinded(blocks)
    ensures var last := blocks[|blocks| - 1];
            ResourceType(fold, "/" + Join(segments)) == Some(Join([last.namespace] + Types(last.kinds)))
            <==> ReadAsWritten(blocks)
  {
    var all, last, read := FoldAll(fold, segments), blocks[|blocks| - 1], Settled(blocks);
    FirstBlock(scope, blocks);
    ResourceTypeOfSegments(fold, segments);
    TypeOfChainIsSettled(scope, blocks);
    TypeOfChain(scope, blocks);
    forall i | 0 <= i < |all| ensures SegmentText(all[i]) { assert SegmentText(segments[i]); }
    Behind(scope, Chain(blocks));
    LastStartSegments(all, |scope|, blocks);
    TypeSegmentsArePlain(all, LastStart(|scope|, blocks), last);
    var p := ScanSettles(all, |scope|, blocks);
    TypeSegmentsArePlain(all, p, read);
    if read.kinds != [] && Join([read.namespace] + Types(read.kinds)) == Join([last.namespace] + Types(last.kinds)) {
      JoinDetermines([read.namespace] + Types(read.kinds), [last.namespace] + Types(last.kinds));
    }
  }

  /** A later type of a single block called "providers" is taken for a new block. */
  lemma TypeCalledProvidersMisleads(scope: seq<string>, ns: string, a: string, x: string, y: string, b: string, z: string)
    requires ScopeSegments(scope) && b != PROVIDERS
    ensures TypeOfSegments(scope + Chain([Block(ns, [(a, x), (PROVIDERS, y), (b, z)])])) == Some([y, b])
  {
    var kinds, rest := [(a, x), (PROVIDERS, y), (b, z)], [(b, z)];
    assert LastProvidersType(kinds, 1) == Some(1) by { assert kinds[..2][1] == kinds[1]; }
    assert kinds[2..] == rest && rest[1..] == [] && Types(rest) == [b] && [y] + [b] == [y, b];
    var blocks := [Block(ns, kinds)];
    assert Settled(blocks) == Block(y, rest);
    TypeOfChainIsSettled(scope, blocks);
  }

  /** In a block that another one follows it does no harm. */
  lemma EarlierBlocksDoNoHarm(scope: seq<string>, ns: string, kinds: seq<(string, string)>, m: string, b: string, z: string)
    requires ScopeSegments(scope) && b != PROVIDERS && kinds != []
    ensures TypeOfSegments(scope + Chain([Block(ns, kinds), Block(m, [(b, z)])])) == Some([m, b])
  {
    var rest := [(b, z)];
    assert LastProvidersType(rest, 0).None? && rest[1..] == [] && Types(rest) == [b] && [m] + [b] == [m, b];
    var blocks := [Block(ns, kinds), Block(m, rest)];
    assert Settled(blocks) == Block(m, rest);
    TypeOfChainIsSettled(scope, blocks);
  }
}
