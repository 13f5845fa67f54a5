/** Where everything in an emitted presentation comes from, and exactly which sources are accepted. */
module PresentationSource {
  import opened Options
  import opened StableSort
  import opened PresentationContract
  import opened PresentationProjection

  // ---------------------------------------------------------------- the cited machines

  /** The reference is one of the snapshot's, and this is the only machine recorded with its digest. */
  predicate Cites(host: Host, snapshot: Snapshot, ref: Reference, m: Resource, k: int) {
    && ref.Item? && ref in snapshot.refs && 0 <= k < |snapshot.records|
    && snapshot.records[k] == ResourceEvidence(m) && m.digest == ref.digest
    && (forall j :: 0 <= j < |snapshot.records| && j != k ==> !Records(snapshot.records[j], ref.digest))
    && host.fold(m.kind) == "microsoft.compute/virtualmachines"
  }

  predicate Records(e: Evidence, digest: nat) { e.ResourceEvidence? && e.resource.digest == digest }

  predicate CitesMachine(host: Host, snapshot: Snapshot, ref: Reference, m: Resource) {
    exists k :: 0 <= k < |snapshot.records| && Cites(host, snapshot, ref, m, k)
  }

  lemma {:induction false} NoneWithDigest(records: seq<Evidence>, digest: nat)
    ensures WithDigest(records, digest) == [] <==> forall j :: 0 <= j < |records| ==> !Records(records[j], digest)
  {
    if records != [] {
      var front := records[..|records| - 1];
      NoneWithDigest(front, digest);
      if forall j :: 0 <= j < |records| ==> !Records(records[j], digest) {
        forall j | 0 <= j < |front| ensures !Records(front[j], digest) { assert front[j] == records[j]; }
      }
      if WithDigest(records, digest) == [] {
        forall j | 0 <= j < |records| ensures !Records(records[j], digest) {
          if j < |front| { assert records[j] == front[j]; }
        }
      }
    }
  }

  predicate OnlyAt(records: seq<Evidence>, digest: nat, m: Resource, k: int) {
    && 0 <= k < |records| && records[k] == ResourceEvidence(m) && m.digest == digest
    && forall j :: 0 <= j < |records| && j != k ==> !Records(records[j], digest)
  }

  predicate Single(records: seq<Evidence>, digest: nat, m: Resource) {
    exists k :: 0 <= k < |records| && OnlyAt(records, digest, m, k)
  }

  lemma OnlyLast(front: seq<Evidence>, last: Evidence, digest: nat, m: Resource)
    requires Records(last, digest)
    ensures Single(front + [last], digest, m) <==> WithDigest(front, digest) == [] && last.resource == m
  {
    var records, n := front + [last], |front|;
    NoneWithDigest(front, digest);
    assert records[n] == last;
    forall j | 0 <= j < n ensures records[j] == front[j] { }
    if Single(records, digest, m) {
      var k :| 0 <= k < |records| && OnlyAt(records, digest, m, k);
      assert k == n;
      forall j | 0 <= j < n ensures !Records(front[j], digest) { assert !Records(records[j], digest); }
    }
    if WithDigest(front, digest) == [] && last.resource == m { assert OnlyAt(records, digest, m, n); }
  }

  lemma OnlyEarlier(front: seq<Evidence>, last: Evidence, digest: nat, m: Resource)
    requires !Records(last, digest)
    ensures Single(front + [last], digest, m) <==> Single(front, digest, m)
  {
    var records := front + [last];
    forall j | 0 <= j < |front| ensures records[j] == front[j] { }
    if Single(front, digest, m) {
      var k :| 0 <= k < |front| && OnlyAt(front, digest, m, k);
      assert OnlyAt(records, digest, m, k);
    }
    if Single(records, digest, m) {
      var k :| 0 <= k < |records| && OnlyAt(records, digest, m, k);
      forall j | 0 <= j < |front| && j != k ensures !Records(front[j], digest) { assert !Records(records[j], digest); }
      assert OnlyAt(front, digest, m, k);
    }
  }

  lemma LastAlone(found: seq<Resource>, last: Resource, m: Resource)
    ensures found + [last] == [m] <==> found == [] && last == m
  {
    if found + [last] == [m] { assert |found| == 0 && (found + [last])[0] == m; }
  }

  lemma {:induction false} OneWithDigest(records: seq<Evidence>, digest: nat, m: Resource)
    ensures WithDigest(records, digest) == [m] <==> Single(records, digest, m)
  {
    if records != [] {
      var front, last := records[..|records| - 1], records[|records| - 1];
      assert records == front + [last];
      if Records(last, digest) {
        OnlyLast(front, last, digest, m);
        LastAlone(WithDigest(front, digest), last.resource, m);
      } else {
        OneWithDigest(front, digest, m);
        OnlyEarlier(front, last, digest, m);
        assert WithDigest(records, digest) == WithDigest(front, digest) + [];
      }
    }
  }

  lemma CiteExactly(host: Host, snapshot: Snapshot, ref: Reference, m: Resource)
    ensures Cite(host, snapshot, ref) == Some(m) <==> CitesMachine(host, snapshot, ref, m)
  {
    if ref.Item? {
      OneWithDigest(snapshot.records, ref.digest, m);
      if Single(snapshot.records, ref.digest, m) && host.fold(m.kind) == WEB_TYPE && ref in snapshot.refs {
        var k :| 0 <= k < |snapshot.records| && OnlyAt(snapshot.records, ref.digest, m, k);
        assert Cites(host, snapshot, ref, m, k);
      }
      if CitesMachine(host, snapshot, ref, m) {
        var k :| 0 <= k < |snapshot.records| && Cites(host, snapshot, ref, m, k);
        assert OnlyAt(snapshot.records, ref.digest, m, k);
      }
      if Cite(host, snapshot, ref) == Some(m) {
        assert WithDigest(snapshot.records, ref.digest) == [m];
      }
    }
  }

  predicate AllCited(host: Host, snapshot: Snapshot, refs: seq<Reference>, ms: seq<Resource>) {
    |ms| == |refs| && forall i :: 0 <= i < |refs| ==> CitesMachine(host, snapshot, refs[i], ms[i])
  }

  lemma {:induction false} CitedExactly(host: Host, snapshot: Snapshot, refs: seq<Reference>, ms: seq<Resource>)
    ensures Cited(host, snapshot, refs) == Some(ms) <==> AllCited(host, snapshot, refs, ms)
  {
    if refs == [] {
    } else if ms == [] {
      CitesSome(host, snapshot, refs);
    } else {
      var n, k := |refs| - 1, |ms| - 1;
      CitedExactly(host, snapshot, refs[..n], ms[..k]);
      CiteExactly(host, snapshot, refs[n], ms[k]);
      CitedParts(host, snapshot, refs, ms);
      if AllCited(host, snapshot, refs, ms) {
        forall i | 0 <= i < n ensures CitesMachine(host, snapshot, refs[..n][i], ms[..k][i]) { }
      }
      if AllCited(host, snapshot, refs[..n], ms[..k]) && CitesMachine(host, snapshot, refs[n], ms[k]) {
        forall i | 0 <= i < |refs| ensures CitesMachine(host, snapshot, refs[i], ms[i]) {
          if i < n { assert refs[i] == refs[..n][i] && ms[i] == ms[..k][i]; }
        }
      }
    }
  }

  lemma CitedParts(host: Host, snapshot: Snapshot, refs: seq<Reference>, ms: seq<Resource>)
    requires refs != [] && ms != []
    ensures Cited(host, snapshot, refs) == Some(ms)
       <==> Cited(host, snapshot, refs[..|refs| - 1]) == Some(ms[..|ms| - 1])
            && Cite(host, snapshot, refs[|refs| - 1]) == Some(ms[|ms| - 1])
  {
    assert ms == ms[..|ms| - 1] + [ms[|ms| - 1]];
  }

  lemma CitesSome(host: Host, snapshot: Snapshot, refs: seq<Reference>)
    requires refs != []
    ensures Cited(host, snapshot, refs) != Some([])
  {
  }

  // ---------------------------------------------------------------- the operational finding

  predicate OnlyOperational(fs: seq<SourceFinding>, f: SourceFinding, i: int) {
    && 0 <= i < |fs| && fs[i] == f && f.operational
    && forall j :: 0 <= j < |fs| && j != i ==> !fs[j].operational
  }

  lemma {:induction false} NoneOperational(fs: seq<SourceFinding>)
    ensures Operationals(fs) == [] <==> forall j :: 0 <= j < |fs| ==> !fs[j].operational
  {
    if fs != [] {
      var front := fs[..|fs| - 1];
      NoneOperational(front);
      if forall j :: 0 <= j < |fs| ==> !fs[j].operational {
        forall j | 0 <= j < |front| ensures !front[j].operational { assert front[j] == fs[j]; }
      }
      if Operationals(fs) == [] {
        forall j | 0 <= j < |fs| ensures !fs[j].operational {
          if j < |front| { assert fs[j] == front[j]; }
        }
      }
    }
  }

  lemma {:induction false} OneOperational(fs: seq<SourceFinding>, f: SourceFinding)
    ensures Operationals(fs) == [f] <==> exists i :: OnlyOperational(fs, f, i)
  {
    if fs != [] {
      var n := |fs| - 1;
      var front, last := fs[..n], fs[n];
      OneOperational(front, f);
      NoneOperational(front);
      forall j | 0 <= j < n ensures front[j] == fs[j] { }
      if last.operational {
        assert Operationals(fs) == Operationals(front) + [last];
        if i :| OnlyOperational(fs, f, i) {
          assert i == n;
          forall j | 0 <= j < n ensures !front[j].operational { assert !fs[j].operational; }
        }
        if Operationals(fs) == [f] {
          assert |Operationals(front)| == 0 && [last] == [f];
          assert OnlyOperational(fs, f, n);
        }
      } else {
        assert Operationals(fs) == Operationals(front) + [];
        if i :| OnlyOperational(front, f, i) { assert OnlyOperational(fs, f, i); }
        if i :| OnlyOperational(fs, f, i) { assert OnlyOperational(front, f, i); }
      }
    }
  }

  /** The finding is about the web service's operational state, in the scope of its own manifest and
      profile, without an accepted risk, and cites two or more references, none of them twice. */
  predicate ProperFinding(f: SourceFinding) {
    && f.clause == "web-service-operational-state" && !f.riskAccepted
    && f.scopeManifest == f.manifestId && f.scopeProfile == f.profileId
    && f.scopePath == "/constraints/web-service-operational-state"
    && |f.refs| >= 2 && forall i, j :: 0 <= i < j < |f.refs| ==> f.refs[i] != f.refs[j]
  }

  /** It is the only operational finding, it is proper, and each reference cites one machine. */
  predicate IsSource(host: Host, findings: seq<SourceFinding>, snapshot: Snapshot, f: SourceFinding, ms: seq<Resource>) {
    && (exists i :: 0 <= i < |findings| && OnlyOperational(findings, f, i))
    && ProperFinding(f) && AllCited(host, snapshot, f.refs, ms)
  }

  /** The same machines, the folded identifiers ascending. */
  ghost predicate Ordered(host: Host, ms: seq<Resource>, rs: seq<Resource>) {
    && multiset(rs) == multiset(ms)
    && forall i, j :: 0 <= i < j < |rs| ==>
         host.fold(rs[i].id) == host.fold(rs[j].id) || Precedes(Codes(host.fold(rs[i].id)), Codes(host.fold(rs[j].id)))
  }

  lemma CodesDetermine(a: string, b: string)
    requires Codes(a) == Codes(b)
    ensures a == b
  {
    assert |a| == |Codes(a)| == |b|;
    forall i | 0 <= i < |a| ensures a[i] == b[i] { assert Codes(a)[i] == Codes(b)[i]; }
  }

  lemma ByIdOrders(host: Host, ms: seq<Resource>)
    ensures Ordered(host, ms, Sort(ById(host), ms))
  {
    var leq := ById(host);
    TextOrder();
    forall a: Resource, b: Resource ensures leq(a, b) || leq(b, a) {
      assert TextLeq(host.fold(a.id), host.fold(b.id)) || TextLeq(host.fold(b.id), host.fold(a.id));
    }
    forall a: Resource, b: Resource, c: Resource | leq(a, b) && leq(b, c) ensures leq(a, c) {
      assert TextLeq(host.fold(a.id), host.fold(b.id)) && TextLeq(host.fold(b.id), host.fold(c.id));
    }
    SortSorts(leq, ms);
    var rs := Sort(leq, ms);
    forall i, j | 0 <= i < j < |rs|
      ensures host.fold(rs[i].id) == host.fold(rs[j].id) || Precedes(Codes(host.fold(rs[i].id)), Codes(host.fold(rs[j].id)))
    {
      var a, b := host.fold(rs[i].id), host.fold(rs[j].id);
      assert leq(rs[i], rs[j]);
      LexLeqExactly(Codes(a), Codes(b));
      if Codes(a) == Codes(b) { CodesDetermine(a, b); }
    }
  }

  /** A proper finding is found, with its machines in order of their identifiers. */
  lemma SourceIsFound(host: Host, findings: seq<SourceFinding>, snapshot: Snapshot, f: SourceFinding, ms: seq<Resource>)
    requires IsSource(host, findings, snapshot, f, ms)
    ensures Operational(host, findings, snapshot).Some? && Operational(host, findings, snapshot).value.0 == f
    ensures Ordered(host, ms, Operational(host, findings, snapshot).value.1)
  {
    ByIdOrders(host, ms);
    OneOperational(findings, f);
    CitedExactly(host, snapshot, f.refs, ms);
    assert Operationals(findings) == [f];
  }

  /** And nothing else is. */
  lemma FoundIsSource(host: Host, findings: seq<SourceFinding>, snapshot: Snapshot) returns (f: SourceFinding, ms: seq<Resource>)
    requires Operational(host, findings, snapshot).Some?
    ensures IsSource(host, findings, snapshot, f, ms)
  {
    f := Operationals(findings)[0];
    ms := Cited(host, snapshot, f.refs).value;
    assert Operationals(findings) == [f];
    OneOperational(findings, f);
    CitedExactly(host, snapshot, f.refs, ms);
  }

  lemma OperationalExactly(host: Host, findings: seq<SourceFinding>, snapshot: Snapshot)
    ensures Operational(host, findings, snapshot).Some? <==> exists f, ms :: IsSource(host, findings, snapshot, f, ms)
  {
    if Operational(host, findings, snapshot).Some? { var f, ms := FoundIsSource(host, findings, snapshot); }
    forall f, ms | IsSource(host, findings, snapshot, f, ms) ensures Operational(host, findings, snapshot).Some? {
      SourceIsFound(host, findings, snapshot, f, ms);
    }
  }

  // ---------------------------------------------------------------- receipt and phase

  predicate HasPlaces(host: Host, rs: seq<Resource>) { forall i :: 0 <= i < |rs| ==> host.place(rs[i].id).Some? }

  function NameOf(host: Host, m: Resource): string
    requires host.place(m.id).Some?
  {
    host.fold(host.place(m.id).value.1)
  }

  function GroupOf(host: Host, m: Resource): string
    requires host.place(m.id).Some?
  {
    host.fold(host.place(m.id).value.0)
  }

  predicate NamesDiffer(host: Host, rs: seq<Resource>)
    requires HasPlaces(host, rs)
  {
    forall i, j :: 0 <= i < j < |rs| ==> NameOf(host, rs[i]) != NameOf(host, rs[j])
  }

  /** The table holds each machine under its folded name. */
  predicate TabulatesNames(host: Host, rs: seq<Resource>, names: map<string, Resource>)
    requires HasPlaces(host, rs)
  {
    && (forall i :: 0 <= i < |rs| ==> NameOf(host, rs[i]) in names && names[NameOf(host, rs[i])] == rs[i])
    && forall name <- names :: NamedAmong(host, rs, name)
  }

  predicate NamedAmong(host: Host, rs: seq<Resource>, name: string)
    requires HasPlaces(host, rs)
  {
    exists i :: 0 <= i < |rs| && NameOf(host, rs[i]) == name
  }

  predicate GroupedAmong(host: Host, rs: seq<Resource>, group: string)
    requires HasPlaces(host, rs)
  {
    exists i :: 0 <= i < |rs| && GroupOf(host, rs[i]) == group
  }

  ghost predicate TabulatesGroups(host: Host, rs: seq<Resource>, groups: set<string>)
    requires HasPlaces(host, rs)
  {
    forall group :: group in groups <==> GroupedAmong(host, rs, group)
  }

  lemma OneMore(front: seq<Resource>, last: Resource)
    ensures (front + [last])[|front|] == last && forall i :: 0 <= i < |front| ==> (front + [last])[i] == front[i]
  {
  }

  lemma AmongOneMore(host: Host, front: seq<Resource>, last: Resource, text: string)
    requires HasPlaces(host, front) && host.place(last.id).Some?
    ensures HasPlaces(host, front + [last])
    ensures NamedAmong(host, front + [last], text) <==> NamedAmong(host, front, text) || NameOf(host, last) == text
    ensures GroupedAmong(host, front + [last], text) <==> GroupedAmong(host, front, text) || GroupOf(host, last) == text
  {
    OneMore(front, last);
    var rs, n := front + [last], |front|;
    if i :| 0 <= i < n && NameOf(host, front[i]) == text { assert NameOf(host, rs[i]) == text; }
    if NameOf(host, last) == text { assert NameOf(host, rs[n]) == text; }
    if i :| 0 <= i < n && GroupOf(host, front[i]) == text { assert GroupOf(host, rs[i]) == text; }
    if GroupOf(host, last) == text { assert GroupOf(host, rs[n]) == text; }
  }

  lemma NamesOneMore(host: Host, front: seq<Resource>, last: Resource, names: map<string, Resource>)
    requires HasPlaces(host, front) && NamesDiffer(host, front) && TabulatesNames(host, front, names)
    requires host.place(last.id).Some? && HasPlaces(host, front + [last])
    ensures NamesDiffer(host, front + [last]) <==> NameOf(host, last) !in names
    ensures NameOf(host, last) !in names ==> TabulatesNames(host, front + [last], names[NameOf(host, last) := last])
  {
    var rs, n, name := front + [last], |front|, NameOf(host, last);
    OneMore(front, last);
    if name in names {
      assert NamedAmong(host, front, name);
      var i :| 0 <= i < n && NameOf(host, front[i]) == name;
      assert NameOf(host, rs[i]) == NameOf(host, rs[n]);
    } else {
      forall other <- names[name := last] ensures NamedAmong(host, rs, other) { AmongOneMore(host, front, last, other); }
    }
  }

  lemma GroupsOneMore(host: Host, front: seq<Resource>, last: Resource, groups: set<string>)
    requires HasPlaces(host, front) && TabulatesGroups(host, front, groups)
    requires host.place(last.id).Some? && HasPlaces(host, front + [last])
    ensures TabulatesGroups(host, front + [last], groups + {GroupOf(host, last)})
  {
    forall group ensures group in groups + {GroupOf(host, last)} <==> GroupedAmong(host, front + [last], group) {
      AmongOneMore(host, front, last, group);
    }
  }

  lemma PlacedParts(host: Host, rs: seq<Resource>)
    requires rs != [] && HasPlaces(host, rs)
    ensures HasPlaces(host, rs[..|rs| - 1])
    ensures NamesDiffer(host, rs) ==> NamesDiffer(host, rs[..|rs| - 1])
  {
    var front := rs[..|rs| - 1];
    forall i | 0 <= i < |front| ensures front[i] == rs[i] { }
  }

  lemma {:induction false} PlacedExactly(host: Host, rs: seq<Resource>)
    ensures Placed(host, rs).Some? <==> HasPlaces(host, rs) && NamesDiffer(host, rs)
    ensures Placed(host, rs).Some? ==>
              TabulatesNames(host, rs, Placed(host, rs).value.0) && TabulatesGroups(host, rs, Placed(host, rs).value.1)
  {
    if rs != [] {
      var n := |rs| - 1;
      var front, last := rs[..n], rs[n];
      PlacedExactly(host, front);
      assert rs == front + [last];
      if HasPlaces(host, rs) { PlacedParts(host, rs); }
      if Placed(host, front).Some? && host.place(last.id).Some? {
        var (names, groups) := Placed(host, front).value;
        AmongOneMore(host, front, last, "");
        NamesOneMore(host, front, last, names);
        GroupsOneMore(host, front, last, groups);
      }
    }
  }

  predicate EligibleName(host: Host, eligible: seq<string>, text: string) {
    exists name <- eligible :: host.fold(name) == text
  }

  /** The names of the machines are the eligible ones. */
  predicate EligibleAre(host: Host, rs: seq<Resource>, eligible: seq<string>)
    requires HasPlaces(host, rs)
  {
    && (forall i :: 0 <= i < |rs| ==> EligibleName(host, eligible, NameOf(host, rs[i])))
    && forall name <- eligible :: NamedAmong(host, rs, host.fold(name))
  }

  /** The machine a receipt was taken for: the receipt's target, by name and by identifier, among machines
      of one group whose names are the eligible ones. */
  predicate TargetAt(host: Host, receipt: Receipt, rs: seq<Resource>, k: int) {
    && HasPlaces(host, rs) && NamesDiffer(host, rs)
    && (forall i :: 0 <= i < |rs| ==> GroupOf(host, rs[i]) == host.fold(receipt.group))
    && EligibleAre(host, rs, receipt.eligible)
    && 0 <= k < |rs| && NameOf(host, rs[k]) == host.fold(receipt.target) && host.fold(rs[k].id) == host.fold(receipt.targetId)
  }

  lemma OneGroup(host: Host, rs: seq<Resource>, groups: set<string>, group: string)
    requires HasPlaces(host, rs) && TabulatesGroups(host, rs, groups) && rs != []
    ensures groups == {group} <==> forall i :: 0 <= i < |rs| ==> GroupOf(host, rs[i]) == group
  {
    if groups == {group} {
      forall i | 0 <= i < |rs| ensures GroupOf(host, rs[i]) == group { assert GroupedAmong(host, rs, GroupOf(host, rs[i])); }
    }
    if forall i :: 0 <= i < |rs| ==> GroupOf(host, rs[i]) == group {
      assert GroupedAmong(host, rs, group) by { assert GroupOf(host, rs[0]) == group; }
    }
  }

  lemma NamesAreKeys(host: Host, rs: seq<Resource>, names: map<string, Resource>, text: string)
    requires HasPlaces(host, rs) && TabulatesNames(host, rs, names)
    ensures text in names <==> NamedAmong(host, rs, text)
  {
    if NamedAmong(host, rs, text) { var i :| 0 <= i < |rs| && NameOf(host, rs[i]) == text; }
  }

  lemma EligibleNames(host: Host, rs: seq<Resource>, names: map<string, Resource>, eligible: seq<string>)
    requires HasPlaces(host, rs) && TabulatesNames(host, rs, names)
    ensures names.Keys == (set n | n in eligible :: host.fold(n)) <==> EligibleAre(host, rs, eligible)
  {
    var folded := set n | n in eligible :: host.fold(n);
    forall text ensures text in names <==> NamedAmong(host, rs, text) { NamesAreKeys(host, rs, names, text); }
    forall text ensures text in folded <==> EligibleName(host, eligible, text) { }
    if names.Keys == folded {
      forall i | 0 <= i < |rs| ensures EligibleName(host, eligible, NameOf(host, rs[i])) {
        assert NamedAmong(host, rs, NameOf(host, rs[i]));
        assert NameOf(host, rs[i]) in folded;
      }
      forall name <- eligible ensures NamedAmong(host, rs, host.fold(name)) { assert host.fold(name) in folded; }
    }
    if EligibleAre(host, rs, eligible) {
      forall text ensures text in names.Keys <==> text in folded {
        if NamedAmong(host, rs, text) {
          var i :| 0 <= i < |rs| && NameOf(host, rs[i]) == text;
          assert EligibleName(host, eligible, NameOf(host, rs[i]));
        }
        if EligibleName(host, eligible, text) {
          var name :| name in eligible && host.fold(name) == text;
          assert NamedAmong(host, rs, host.fold(name));
        }
      }
    }
  }

  lemma TargetExactly(host: Host, receipt: Receipt, rs: seq<Resource>, m: Resource)
    requires rs != []
    ensures Target(host, receipt, Placed(host, rs)) == Some(m) <==> exists k :: TargetAt(host, receipt, rs, k) && rs[k] == m
  {
    PlacedExactly(host, rs);
    var placed := Placed(host, rs);
    if placed.Some? {
      OneGroup(host, rs, placed.value.1, host.fold(receipt.group));
      EligibleNames(host, rs, placed.value.0, receipt.eligible);
      var name := host.fold(receipt.target);
      if name in placed.value.0 { assert NamedAmong(host, rs, name); }
      if Target(host, receipt, placed) == Some(m) {
        var k :| 0 <= k < |rs| && NameOf(host, rs[k]) == name;
        assert TargetAt(host, receipt, rs, k) && rs[k] == m;
      }
    }
  }

  // ---------------------------------------------------------------- counts

  predicate RunningBut(rs: seq<Resource>, k: int) { forall i :: 0 <= i < |rs| && i != k ==> rs[i].state == Running }

  lemma {:induction false} CountsAll(rs: seq<Resource>)
    ensures Count(Up(), rs) == |rs| <==> RunningBut(rs, -1)
    ensures RunningBut(rs, -1) ==> Count(Down, rs) == 0
    ensures Count(Up(), rs) <= |rs|
  {
    if rs != [] {
      var front := rs[..|rs| - 1];
      CountsAll(front);
      forall i | 0 <= i < |front| ensures front[i] == rs[i] { }
    }
  }

  lemma {:induction false} CountsAllBut(rs: seq<Resource>, k: nat)
    requires k < |rs| && Down(rs[k].state) && RunningBut(rs, k)
    ensures Count(Up(), rs) == |rs| - 1 && Count(Down, rs) == 1
  {
    var front := rs[..|rs| - 1];
    if k == |rs| - 1 {
      CountsAll(front);
    } else {
      CountsAllBut(front, k);
    }
  }

  /** What the machines, the receipt and the verdict must say in a phase, `k` being the target. */
  predicate PhaseShows(receipt: Receipt, phase: Phase, verdict: SourceVerdict, rs: seq<Resource>, k: nat)
    requires k < |rs|
  {
    match phase
    case Baseline => receipt.action == Status && receipt.after == Running && RunningBut(rs, -1) && verdict == Pass
    case Faulted =>
      && receipt.action == Inject && Down(rs[k].state) && receipt.after == rs[k].state && RunningBut(rs, k) && |rs| >= 2
      && verdict == Observation
    case Recovered => receipt.action == Reset && receipt.after == Running && RunningBut(rs, -1) && verdict == Pass
  }

  /** The receipt ended before the snapshot was collected and began no longer before than it is valid. */
  predicate InTime(snapshot: Snapshot, receipt: Receipt) {
    && receipt.completedAt <= snapshot.collectedAt
    && snapshot.collectedAt - receipt.startedAt <= snapshot.expiresAt - snapshot.collectedAt
  }

  predicate Supported(host: Host, input: Input, finding: SourceFinding, rs: seq<Resource>, k: int) {
    && InTime(input.snapshot, input.receipt) && TargetAt(host, input.receipt, rs, k)
    && PhaseShows(input.receipt, input.phase, finding.verdict, rs, k)
  }

  lemma OthersRun(rs: seq<Resource>, k: nat)
    requires k < |rs| && Count(Up(), rs) + Count(Down, rs) == |rs| && Count(Down, rs) == 1 && Down(rs[k].state)
    ensures RunningBut(rs, k)
  {
    AllCount(rs);
    forall i | 0 <= i < |rs| && i != k ensures rs[i].state == Running {
      assert rs[i] in rs;
      if Down(rs[i].state) {
        if i < k { OnlyOneCounts(Down, rs, i, k); } else { OnlyOneCounts(Down, rs, k, i); }
      }
    }
  }

  lemma ShownExactly(receipt: Receipt, phase: Phase, verdict: SourceVerdict, rs: seq<Resource>, k: nat)
    requires k < |rs|
    ensures PhaseShows(receipt, phase, verdict, rs, k)
       <==> && Count(Up(), rs) + Count(Down, rs) == |rs|
            && PhaseAgrees(receipt, phase, verdict, rs[k], Count(Up(), rs), Count(Down, rs), |rs|)
  {
    CountsAll(rs);
    if phase == Faulted {
      if Down(rs[k].state) && RunningBut(rs, k) { CountsAllBut(rs, k); }
      if Count(Up(), rs) + Count(Down, rs) == |rs| && Count(Down, rs) == 1 && Down(rs[k].state) { OthersRun(rs, k); }
    }
  }

  lemma SupportedAgrees(host: Host, input: Input, finding: SourceFinding, rs: seq<Resource>, k: int)
    requires Supported(host, input, finding, rs, k)
    ensures Agreed(host, input, finding, rs)
         == Some(if input.phase == Faulted then (|rs| - 1, 1) else (|rs|, 0))
  {
    TargetExactly(host, input.receipt, rs, rs[k]);
    ShownExactly(input.receipt, input.phase, finding.verdict, rs, k);
    CountsAll(rs);
    if input.phase == Faulted { CountsAllBut(rs, k); }
  }

  lemma AgreedSupports(host: Host, input: Input, finding: SourceFinding, rs: seq<Resource>) returns (k: nat)
    requires rs != [] && Agreed(host, input, finding, rs).Some?
    ensures Supported(host, input, finding, rs, k)
  {
    var target := Target(host, input.receipt, Placed(host, rs)).value;
    TargetExactly(host, input.receipt, rs, target);
    k :| TargetAt(host, input.receipt, rs, k) && rs[k] == target;
    ShownExactly(input.receipt, input.phase, finding.verdict, rs, k);
  }

  /** Receipt, phase and machines agree exactly when there is such a target; and the counts are then those
      of the phase: all machines run, or all but the target. */
  lemma AgreedExactly(host: Host, input: Input, finding: SourceFinding, rs: seq<Resource>)
    requires rs != []
    ensures Agreed(host, input, finding, rs).Some? <==> exists k :: Supported(host, input, finding, rs, k)
    ensures forall k :: Supported(host, input, finding, rs, k) ==>
              Agreed(host, input, finding, rs) == Some(if input.phase == Faulted then (|rs| - 1, 1) else (|rs|, 0))
  {
    if Agreed(host, input, finding, rs).Some? { var k := AgreedSupports(host, input, finding, rs); }
    forall k | Supported(host, input, finding, rs, k)
      ensures Agreed(host, input, finding, rs) == Some(if input.phase == Faulted then (|rs| - 1, 1) else (|rs|, 0))
    {
      SupportedAgrees(host, input, finding, rs, k);
    }
  }

  // ---------------------------------------------------------------- what the payload says

  /** The synthetic identifier of a text, as something of that kind. */
  predicate Stands(host: Host, kind: string, value: string, id: string) {
    id == "synthetic-" + kind + "-" + host.hex(kind, value)
  }

  lemma IdentifierStands(host: Host, kind: IdKind, name: string, value: string)
    requires name == KindText(kind)
    ensures Stands(host, name, value, Identifier(host, kind, value))
  {
  }

  ghost predicate StrictlyAscending(ids: seq<string>) {
    forall i, j :: 0 <= i < j < |ids| ==> Precedes(Codes(ids[i]), Codes(ids[j]))
  }

  lemma SortedSetAscends(s: seq<string>)
    ensures StrictlyAscending(SortedSet(s)) && forall x :: x in SortedSet(s) <==> x in s
  {
    var ids := SortedSet(s);
    TextOrder();
    DedupKeeps(s);
    DistinctSorted(Dedup(s));
    SortSorts(TextLeq, Dedup(s));
    SortKeepsElements(Dedup(s));
    forall i, j | 0 <= i < j < |ids| ensures Precedes(Codes(ids[i]), Codes(ids[j])) {
      assert TextLeq(ids[i], ids[j]);
      LexLeqExactly(Codes(ids[i]), Codes(ids[j]));
      if Codes(ids[i]) == Codes(ids[j]) { CodesDetermine(ids[i], ids[j]); }
    }
  }

  /** The evidence of the finding: its references and, except in the baseline, the receipt. */
  predicate IsEvidence(host: Host, phase: Phase, refs: seq<Reference>, receipt: Receipt, id: string) {
    || (exists i :: 0 <= i < |refs| && Stands(host, "evidence", refs[i].text, id))
    || (phase != Baseline && Stands(host, "evidence", receipt.text, id))
  }

  lemma EvidenceIdsExactly(host: Host, phase: Phase, refs: seq<Reference>, receipt: Receipt, id: string)
    ensures id in EvidenceIds(host, phase, refs, receipt) <==> IsEvidence(host, phase, refs, receipt, id)
    ensures StrictlyAscending(EvidenceIds(host, phase, refs, receipt))
  {
    var own := if phase == Baseline then [] else [Identifier(host, EvidenceId, receipt.text)];
    SortedSetAscends(RefIds(host, refs) + own);
    IdentifierStands(host, EvidenceId, "evidence", receipt.text);
    forall i | 0 <= i < |refs| ensures RefIds(host, refs)[i] == id <==> Stands(host, "evidence", refs[i].text, id) {
      IdentifierStands(host, EvidenceId, "evidence", refs[i].text);
    }
  }

  predicate WorkloadSays(host: Host, input: Input, w: Workload) {
    && Stands(host, "manifest", input.publication.manifestId, w.manifestId) && w.version == input.publication.version
    && Stands(host, "profile", input.publication.profileId, w.profileId)
    && Stands(host, "rg", host.fold(input.receipt.group), w.group)
  }

  predicate FaultRunSays(host: Host, receipt: Receipt, f: FaultRun) {
    Stands(host, "fault-run", receipt.runId, f.runId) && Stands(host, "vm", host.fold(receipt.targetId), f.target)
  }

  predicate AthenaSays(r: Rules, host: Host, input: Input, p: Payload) {
    && Stands(host, "snapshot", input.snapshot.id, p.athena.snapshotId)
    && p.athena.artifact == input.snapshot.artifact && p.athena.semantic == input.snapshot.semantic
    && p.athena.keyId == input.keyId && p.athena.result == host.hash(Preimage(r, p))
  }

  ghost predicate FindingSays(host: Host, input: Input, finding: SourceFinding, f: Finding) {
    && Stands(host, "clause", finding.clause, f.clause) && StrictlyAscending(f.refs)
    && forall id :: id in f.refs <==> IsEvidence(host, input.phase, finding.refs, input.receipt, id)
  }

  predicate TierSays(phase: Phase, t: Tier, machines: nat) {
    t.expected == machines && t.faulted == (if phase == Faulted then 1 else 0) && t.running == machines - t.faulted
  }

  lemma DraftSays(r: Rules, host: Host, input: Input, finding: SourceFinding, up: nat, down: nat, all: nat, p: Payload)
    requires p == Draft(r, host, input, finding, up, down, all)
    ensures p.phase == input.phase && WorkloadSays(host, input, p.workload) && p.tier == Tier(all, up, down, p.tier.service)
    ensures if input.phase == Baseline then p.faultRun.None?
            else p.faultRun.Some? && FaultRunSays(host, input.receipt, p.faultRun.value)
    ensures Stands(host, "snapshot", input.snapshot.id, p.athena.snapshotId) && p.athena.artifact == input.snapshot.artifact
    ensures p.athena.semantic == input.snapshot.semantic && p.athena.keyId == input.keyId
    ensures |p.findings| == 1 && FindingSays(host, input, finding, p.findings[0])
  {
    IdentifierStands(host, ManifestKind, "manifest", input.publication.manifestId);
    IdentifierStands(host, ProfileKind, "profile", input.publication.profileId);
    IdentifierStands(host, GroupId, "rg", host.fold(input.receipt.group));
    IdentifierStands(host, RunId, "fault-run", input.receipt.runId);
    IdentifierStands(host, VmId, "vm", host.fold(input.receipt.targetId));
    IdentifierStands(host, SnapshotKind, "snapshot", input.snapshot.id);
    IdentifierStands(host, ClauseKind, "clause", finding.clause);
    forall id
      ensures id in p.findings[0].refs <==> IsEvidence(host, input.phase, finding.refs, input.receipt, id)
    {
      EvidenceIdsExactly(host, input.phase, finding.refs, input.receipt, id);
    }
    EvidenceIdsExactly(host, input.phase, finding.refs, input.receipt, "");
  }

  /** An emitted payload says of each part of its source what it must, and conforms to the contract. */
  lemma PayloadSays(r: Rules, host: Host, input: Input, p: Payload, f: SourceFinding, ms: seq<Resource>)
    requires Project(r, host, input) == Some(p) && IsSource(host, input.findings, input.snapshot, f, ms)
    ensures Conforms(r, p) && p.phase == input.phase
    ensures WorkloadSays(host, input, p.workload) && AthenaSays(r, host, input, p) && TierSays(p.phase, p.tier, |f.refs|)
    ensures p.phase != Baseline ==> p.faultRun.Some? && FaultRunSays(host, input.receipt, p.faultRun.value)
    ensures |p.findings| == 1 && FindingSays(host, input, f, p.findings[0])
  {
    SourceIsFound(host, input.findings, input.snapshot, f, ms);
    OperationalSize(host, input.findings, input.snapshot);
    var rs := Operational(host, input.findings, input.snapshot).value.1;
    var agreed := Agreed(host, input, f, rs).value;
    AgreedCounts(host, input, f, rs);
    DraftSays(r, host, input, f, agreed.0, agreed.1, |rs|, Draft(r, host, input, f, agreed.0, agreed.1, |rs|));
  }
}
