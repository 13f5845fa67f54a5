/** The preflight's policy as a table, and that the evaluation reports exactly what the table says. */
module WhatIfPolicy {

  import opened Options
  import opened PreflightWalks
  import opened WhatIf
  import opened WhatIfWords

  // ---------------------------------------------------------------- values and paths

  /** A text that says this word, in any case and with white space around it. */
  ghost predicate SaysWord(t: Text, v: Json, word: string) {
    v.JString? && exists said :: Trimmed(t, v.text, said) && t.fold(said) == word
  }

  ghost predicate Opened(t: Text, v: Json) {
    v == JBool(true) || SaysWord(t, v, "allow") || SaysWord(t, v, "enabled") || SaysWord(t, v, "true")
  }

  lemma SaysExactly(t: Text, v: Json, word: string)
    ensures SaysWord(t, v, word) <==> v.JString? && t.Normalized(v.text) == word
  {
    if v.JString? {
      StripTrims(t, v.text);
      TrimmedNormalizes(t, v.text, t.Strip(v.text));
      if SaysWord(t, v, word) {
        var said :| Trimmed(t, v.text, said) && t.fold(said) == word;
        TrimmedOnce(t, v.text, said, t.Strip(v.text));
      }
    }
  }

  lemma OpenedExactly(t: Text, v: Json)
    ensures Opened(t, v) <==> Enabled(t, v)
  {
    SaysExactly(t, v, "allow");
    SaysExactly(t, v, "enabled");
    SaysExactly(t, v, "true");
  }

  const ROOT := "<resource>."

  /** A folded path, without the root it may start with. */
  predicate PathIs(t: Text, raw: string, path: string) {
    t.fold(raw) == ROOT + path || (t.fold(raw) == path && !(ROOT <= path))
  }

  lemma PathExactly(t: Text, raw: string, path: string)
    ensures CanonicalPath(t, raw) == path <==> PathIs(t, raw, path)
  {
    CutRoot(ROOT, t.fold(raw), path);
  }

  lemma CutRoot(root: string, whole: string, path: string)
    ensures (if root <= whole then whole[|root|..] else whole) == path
       <==> whole == root + path || (whole == path && !(root <= path))
  {
  }

  predicate Mentions(path: string, part: string) {
    exists i :: 0 <= i <= |path| && part <= path[i..]
  }

  lemma {:induction false} ContainsExactly(path: string, part: string)
    ensures Contains(path, part) <==> Mentions(path, part)
  {
    assert path[0..] == path;
    if path == "" {
      assert forall i :: 0 <= i <= |path| ==> path[i..] == path;
    } else {
      var rest := path[1..];
      ContainsExactly(rest, part);
      if Mentions(rest, part) {
        var i :| 0 <= i <= |rest| && part <= rest[i..];
        assert path[i + 1..] == rest[i..];
      }
      if i :| 0 < i <= |path| && part <= path[i..] {
        assert rest[i - 1..] == path[i..];
      }
    }
  }

  // ---------------------------------------------------------------- the table

  const STORAGE := "microsoft.storage/storageaccounts"
  const CONTAINER := "microsoft.storage/storageaccounts/blobservices/containers"
  const VAULT := "microsoft.keyvault/vaults"
  const APP := "microsoft.app/containerapps"
  const APP_ENVIRONMENT := "microsoft.app/managedenvironments"

  /** The settings that no change may open or remove, and how it is reported if one does. */
  predicate Guarded(resource: string, path: string, code: Code) {
    match code
    case SharedKeyEnabled => resource == STORAGE && path == "properties.allowsharedkeyaccess"
    case PublicBlobAccess => resource == STORAGE && path == "properties.allowblobpublicaccess"
    case PublicDataPlane =>
      && (resource == STORAGE || resource == VAULT)
      && (path == "properties.publicnetworkaccess" || path == "properties.networkacls.defaultaction")
    case ContainerAppsExposure =>
      && (resource == APP || resource == APP_ENVIRONMENT)
      && (Mentions(path, "ingress.external") || Mentions(path, "publicnetworkaccess")
          || Mentions(path, "vnetconfiguration.internal"))
    case _ => false
  }

  /** What setting a property to a value, or removing it, is reported as. */
  ghost predicate Offends(t: Text, resource: string, path: string, v: Json, removed: bool, code: Code) {
    || (Guarded(resource, path, code) && (Opened(t, v) || removed))
    || (Guarded(resource, path, code) && code == ContainerAppsExposure
        && Mentions(path, "vnetconfiguration.internal") && v == JBool(false))
    || (code == ContainerPublicAccess && resource == CONTAINER && path == "properties.publicaccess"
        && (SaysWord(t, v, "blob") || SaysWord(t, v, "container") || removed))
  }

  ghost predicate OffendsBy(t: Text, resource: string, c: Candidate, code: Code) {
    exists path :: PathIs(t, c.path, path)
                   && Offends(t, resource, path, c.after, c.change == "delete" || c.change == "remove", code)
  }

  lemma MemberOfWhen(condition: bool, code: Code, one: Code)
    ensures code in When(condition, one) <==> condition && code == one
  {
  }

  lemma OneRuleEach(t: Text, resource: string, c: Candidate, code: Code, path: string)
    requires path == CanonicalPath(t, c.path)
    ensures code in CandidateViolations(t, resource, c)
       <==> || (code == ContainerAppsExposure && ExposesApp(t, resource, path, c))
            || (code == SharedKeyEnabled && OpensStorage(t, resource, path, c, "properties.allowsharedkeyaccess"))
            || (code == PublicBlobAccess && OpensStorage(t, resource, path, c, "properties.allowblobpublicaccess"))
            || (code == PublicDataPlane && OpensDataPlane(t, resource, path, c))
            || (code == ContainerPublicAccess && OpensContainer(t, resource, path, c))
  {
    MemberOfWhen(ExposesApp(t, resource, path, c), code, ContainerAppsExposure);
    MemberOfWhen(OpensDataPlane(t, resource, path, c), code, PublicDataPlane);
    MemberOfWhen(OpensContainer(t, resource, path, c), code, ContainerPublicAccess);
  }

  lemma ExposureExactly(t: Text, resource: string, path: string, c: Candidate)
    ensures ExposesApp(t, resource, path, c)
       <==> Offends(t, resource, path, c.after, Removed(c), ContainerAppsExposure)
  {
    OpenedExactly(t, c.after);
    ContainsExactly(path, "ingress.external");
    ContainsExactly(path, "publicnetworkaccess");
    ContainsExactly(path, "vnetconfiguration.internal");
  }

  lemma OpeningExactly(t: Text, resource: string, path: string, c: Candidate)
    ensures OpensStorage(t, resource, path, c, "properties.allowsharedkeyaccess")
       <==> Offends(t, resource, path, c.after, Removed(c), SharedKeyEnabled)
    ensures OpensStorage(t, resource, path, c, "properties.allowblobpublicaccess")
       <==> Offends(t, resource, path, c.after, Removed(c), PublicBlobAccess)
    ensures OpensDataPlane(t, resource, path, c) <==> Offends(t, resource, path, c.after, Removed(c), PublicDataPlane)
  {
    OpenedExactly(t, c.after);
  }

  lemma ContainerExactly(t: Text, resource: string, path: string, c: Candidate)
    ensures OpensContainer(t, resource, path, c) <==> Offends(t, resource, path, c.after, Removed(c), ContainerPublicAccess)
  {
    SaysExactly(t, c.after, "blob");
    SaysExactly(t, c.after, "container");
  }

  lemma OffenceExactly(t: Text, resource: string, c: Candidate, code: Code, path: string)
    requires path == CanonicalPath(t, c.path)
    ensures code in CandidateViolations(t, resource, c)
       <==> Offends(t, resource, path, c.after, c.change == "delete" || c.change == "remove", code)
  {
    OneRuleEach(t, resource, c, code, path);
    ExposureExactly(t, resource, path, c);
    OpeningExactly(t, resource, path, c);
    ContainerExactly(t, resource, path, c);
  }

  lemma CandidateExactly(t: Text, resource: string, c: Candidate, code: Code)
    ensures code in CandidateViolations(t, resource, c) <==> OffendsBy(t, resource, c, code)
  {
    var path := CanonicalPath(t, c.path);
    OffenceExactly(t, resource, c, code, path);
    PathExactly(t, c.path, path);
    forall other | PathIs(t, c.path, other)
      ensures other == path
    {
      PathExactly(t, c.path, other);
    }
  }

  // ---------------------------------------------------------------- what a creation must state

  /** The last candidate for a path: what is said later counts. */
  predicate LastFor(t: Text, cs: seq<Candidate>, path: string, i: int) {
    && 0 <= i < |cs| && PathIs(t, cs[i].path, path)
    && forall j :: i < j < |cs| ==> !PathIs(t, cs[j].path, path)
  }

  predicate EndsFalse(t: Text, cs: seq<Candidate>, path: string) {
    exists i :: 0 <= i < |cs| && LastFor(t, cs, path, i) && cs[i].after == JBool(false)
  }

  ghost predicate EndsSaying(t: Text, cs: seq<Candidate>, path: string, word: string) {
    exists i :: LastFor(t, cs, path, i) && SaysWord(t, cs[i].after, word)
  }

  lemma {:induction false} LastIsLast(t: Text, cs: seq<Candidate>, path: string)
    ensures if exists i :: LastFor(t, cs, path, i) then exists i :: LastFor(t, cs, path, i) && Last(t, cs, path) == cs[i].after
            else Last(t, cs, path) == JNull
  {
    if cs != [] {
      var front, n := cs[..|cs| - 1], |cs| - 1;
      PathExactly(t, cs[n].path, path);
      if PathIs(t, cs[n].path, path) {
        assert LastFor(t, cs, path, n);
      } else {
        LastIsLast(t, front, path);
        forall i | 0 <= i < n ensures LastFor(t, cs, path, i) <==> LastFor(t, front, path, i) { StillLast(t, cs, path, i); }
        forall i | LastFor(t, cs, path, i) ensures LastFor(t, front, path, i) { assert i != n; }
        forall i | LastFor(t, front, path, i) ensures LastFor(t, cs, path, i) && cs[i] == front[i] { }
      }
    }
  }

  lemma StillLast(t: Text, cs: seq<Candidate>, path: string, i: nat)
    requires i < |cs| - 1 && !PathIs(t, cs[|cs| - 1].path, path)
    ensures LastFor(t, cs, path, i) <==> LastFor(t, cs[..|cs| - 1], path, i)
  {
    var front := cs[..|cs| - 1];
    forall j | 0 <= j < |front| ensures front[j] == cs[j] { }
    if LastFor(t, front, path, i) {
      forall j | i < j < |cs| ensures !PathIs(t, cs[j].path, path) {
        if j < |front| { assert !PathIs(t, front[j].path, path); }
      }
    }
  }

  lemma LastOnce(t: Text, cs: seq<Candidate>, path: string, i: int, j: int)
    requires LastFor(t, cs, path, i) && LastFor(t, cs, path, j)
    ensures i == j
  {
  }

  lemma EndsExactly(t: Text, cs: seq<Candidate>, path: string, word: string)
    ensures EndsFalse(t, cs, path) <==> Last(t, cs, path) == JBool(false)
    ensures EndsSaying(t, cs, path, word) <==> Says(t, Last(t, cs, path), word)
  {
    LastIsLast(t, cs, path);
    if i :| LastFor(t, cs, path, i) {
      forall j | LastFor(t, cs, path, j) ensures j == i { LastOnce(t, cs, path, i, j); }
      SaysExactly(t, cs[i].after, word);
    }
  }

  ghost predicate EndsLocked(t: Text, cs: seq<Candidate>) {
    && EndsSaying(t, cs, "properties.publicnetworkaccess", "disabled")
    && EndsSaying(t, cs, "properties.networkacls.defaultaction", "deny")
  }

  /** A resource that is created must say itself that it is closed; which code reports that it does not. */
  ghost predicate Unprotected(t: Text, resource: string, cs: seq<Candidate>, code: Code) {
    match code
    case StorageProtectionMissing =>
      resource == STORAGE
      && !(&& EndsFalse(t, cs, "properties.allowsharedkeyaccess") && EndsFalse(t, cs, "properties.allowblobpublicaccess")
           && EndsLocked(t, cs))
    case KeyVaultProtectionMissing => resource == VAULT && !EndsLocked(t, cs)
    case ContainerPublicAccess => resource == CONTAINER && !EndsSaying(t, cs, "properties.publicaccess", "none")
    case _ => false
  }

  lemma ProtectionExactly(t: Text, resource: string, cs: seq<Candidate>, code: Code)
    ensures code in ProtectionViolations(t, resource, cs) <==> Unprotected(t, resource, cs, code)
  {
    LockedExactly(t, cs);
    EndsExactly(t, cs, "properties.allowsharedkeyaccess", "");
    EndsExactly(t, cs, "properties.allowblobpublicaccess", "");
    EndsExactly(t, cs, "properties.publicaccess", "none");
  }

  lemma LockedExactly(t: Text, cs: seq<Candidate>)
    ensures Locked(t, cs) <==> EndsLocked(t, cs)
  {
    EndsExactly(t, cs, "properties.publicnetworkaccess", "disabled");
    EndsExactly(t, cs, "properties.networkacls.defaultaction", "deny");
  }

  // ---------------------------------------------------------------- a create or modify

  lemma {:induction false} FlatMapMember(check: Candidate -> seq<Code>, cs: seq<Candidate>, code: Code)
    ensures code in FlatMap(check, cs) <==> exists i :: 0 <= i < |cs| && code in check(cs[i])
  {
    if cs != [] {
      var front := cs[..|cs| - 1];
      FlatMapMember(check, front, code);
      if i :| 0 <= i < |front| && code in check(front[i]) { assert code in check(cs[i]); }
      if i :| 0 <= i < |cs| && code in check(cs[i]) {
        if i < |front| { assert code in check(front[i]); }
      }
    }
  }

  predicate Protects(resource: string) { resource == STORAGE || resource == VAULT || resource == CONTAINER }

  /** What the properties of a create or modify are reported as. */
  ghost predicate Unsafe(t: Text, resource: string, creates: bool, cs: seq<Candidate>, code: Code) {
    || (creates && Unprotected(t, resource, cs, code))
    || (exists i :: 0 <= i < |cs| && OffendsBy(t, resource, cs[i], code))
    || (code == UninspectableChange && cs == [] && !(creates && Protects(resource)))
  }

  lemma NothingEnds(t: Text, resource: string)
    ensures ProtectionViolations(t, resource, []) != [] <==> Protects(resource)
  {
  }

  lemma OffendersExactly(t: Text, resource: string, cs: seq<Candidate>, code: Code)
    ensures code in AllCandidateViolations(t, resource, cs)
       <==> exists i :: 0 <= i < |cs| && OffendsBy(t, resource, cs[i], code)
  {
    var check := c => CandidateViolations(t, resource, c);
    FlatMapMember(check, cs, code);
    forall i | 0 <= i < |cs| ensures code in check(cs[i]) <==> OffendsBy(t, resource, cs[i], code) {
      CandidateExactly(t, resource, cs[i], code);
    }
  }

  lemma UnsafeExactly(t: Text, id: string, creates: bool, change: Fields, code: Code)
    requires UnsafeProperties(t, id, creates, change).Some?
    ensures code in UnsafeProperties(t, id, creates, change).value
       <==> Unsafe(t, t.ResourceType(id).value, creates, Candidates(t, change).value, code)
  {
    var resource, cs := t.ResourceType(id).value, Candidates(t, change).value;
    ProtectionExactly(t, resource, cs, code);
    OffendersExactly(t, resource, cs, code);
    NothingEnds(t, resource);
  }
}
