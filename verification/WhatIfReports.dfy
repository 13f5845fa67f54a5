/** What the what-if evaluation reports, said of the words of the document: which changes are let pass,
    and which code each of the others is reported with. */
module WhatIfReports {

  import opened Options
  import opened PreflightWalks
  import opened WhatIf
  import opened WhatIfWords
  import opened WhatIfDelta
  import opened WhatIfPolicy
  import opened WhatIfEvaluation

  // ---------------------------------------------------------------- one change

  /** The change calls its type this, in any case. */
  ghost predicate IsCalled(t: Text, change: Fields, word: string) {
    exists text :: TextAt(t, change, "changeType", 64, text) && t.fold(text) == word
  }

  predicate Concerns(t: Text, change: Fields, id: string) { TextAt(t, change, "resourceId", 4096, id) }

  ghost predicate Listed(t: Text, id: string, allowedIds: set<string>) {
    exists one, said :: one in allowedIds && Trimmed(t, one, said) && t.fold(said) == t.fold(id)
  }

  function AllowedOf(t: Text, allowedIds: set<string>): set<string> { set id <- allowedIds :: t.Normalized(id) }

  predicate KnownWord(word: string) {
    word == "nochange" || word == "ignore" || word == "delete" || word == "deploy" || word == "create" || word == "modify"
  }

  /** What the properties of a create or modify are reported as. */
  ghost predicate UnsafeChange(t: Text, id: string, creates: bool, change: Fields, code: Code)
    requires UnsafeProperties(t, id, creates, change).Some?
  {
    var resource := t.ResourceType(id).value;
    || (creates && Unprotected(t, resource, Candidates(t, change).value, code))
    || (exists c :: ChangeProposes(t, change, c) && OffendsBy(t, resource, c, code))
    || (code == UninspectableChange && !(creates && Protects(resource)) && forall c :: !ChangeProposes(t, change, c))
  }

  ghost predicate Collected(t: Text, change: Fields, cs: seq<Candidate>) {
    forall c :: c in cs <==> ChangeProposes(t, change, c)
  }

  lemma AllCollected(t: Text, change: Fields)
    requires Candidates(t, change).Some?
    ensures Collected(t, change, Candidates(t, change).value)
  {
    forall c ensures c in Candidates(t, change).value <==> ChangeProposes(t, change, c) { CandidatesExactly(t, change, c); }
  }

  lemma SameOffenders(t: Text, resource: string, change: Fields, cs: seq<Candidate>, code: Code)
    requires Collected(t, change, cs)
    ensures (exists i :: 0 <= i < |cs| && OffendsBy(t, resource, cs[i], code))
       <==> exists c :: ChangeProposes(t, change, c) && OffendsBy(t, resource, c, code)
    ensures cs == [] <==> forall c :: !ChangeProposes(t, change, c)
  {
    if i :| 0 <= i < |cs| && OffendsBy(t, resource, cs[i], code) { assert cs[i] in cs; }
    if cs != [] { assert cs[0] in cs; }
    if c :| ChangeProposes(t, change, c) && OffendsBy(t, resource, c, code) { assert c in cs; }
  }

  lemma UnsafeChangeExactly(t: Text, id: string, creates: bool, change: Fields, code: Code)
    requires UnsafeProperties(t, id, creates, change).Some?
    ensures code in UnsafeProperties(t, id, creates, change).value <==> UnsafeChange(t, id, creates, change, code)
  {
    UnsafeExactly(t, id, creates, change, code);
    AllCollected(t, change);
    SameOffenders(t, t.ResourceType(id).value, change, Candidates(t, change).value, code);
  }

  lemma ListedExactly(t: Text, id: string, allowedIds: set<string>)
    requires Trimmed(t, id, id)
    ensures t.Normalized(id) in AllowedOf(t, allowedIds) <==> Listed(t, id, allowedIds)
  {
    TrimmedNormalizes(t, id, id);
    if t.Normalized(id) in AllowedOf(t, allowedIds) {
      var one :| one in allowedIds && t.Normalized(one) == t.Normalized(id);
      StripTrims(t, one);
      TrimmedNormalizes(t, one, t.Strip(one));
      assert Trimmed(t, one, t.Strip(one)) && t.fold(t.Strip(one)) == t.fold(id);
    }
    forall one, said | one in allowedIds && Trimmed(t, one, said) && t.fold(said) == t.fold(id)
      ensures t.Normalized(id) in AllowedOf(t, allowedIds)
    {
      TrimmedNormalizes(t, one, said);
    }
  }

  lemma TextIsTight(t: Text, fields: Fields, name: string, maximum: nat, text: string)
    requires TextAt(t, fields, name, maximum, text)
    ensures Trimmed(t, text, text)
  {
    assert text[0..|text|] == text && text[..0] == "" && text[|text|..] == "";
  }

  lemma HeadingExactly(t: Text, change: Fields, id: string, text: string, word: string)
    requires Concerns(t, change, id) && TextAt(t, change, "changeType", 64, text) && word == t.fold(text)
    ensures Heading(t, change) == Some((id, KindOf(word)))
  {
    RequireExactly(t, change, "resourceId", 4096, id);
    RequireExactly(t, change, "changeType", 64, text);
    TextIsTight(t, change, "changeType", 64, text);
    TrimmedNormalizes(t, text, text);
  }

  lemma HeadingWas(t: Text, change: Fields) returns (id: string, text: string)
    requires Heading(t, change).Some?
    ensures Concerns(t, change, id) && TextAt(t, change, "changeType", 64, text)
  {
    id := RequireString(t, Get(t, change, "resourceId"), 4096).value;
    text := RequireString(t, Get(t, change, "changeType"), 64).value;
    RequireExactly(t, change, "resourceId", 4096, id);
    RequireExactly(t, change, "changeType", 64, text);
  }

  /** Each word is reported with its own code and the resource's identifier, and `nochange` not at all. */
  lemma WordsDecide(t: Text, change: Fields, allowed: set<string>, id: string, text: string, word: string)
    requires Concerns(t, change, id) && TextAt(t, change, "changeType", 64, text) && word == t.fold(text)
    ensures var r := ChangeViolations(t, JObject(change), allowed);
            && (word == "nochange" ==> r == Some([]))
            && (word == "ignore" ==> r == Some([Violation(IgnoredChange, id)]))
            && (word == "delete" ==> r == Some([Violation(Delete, id)]))
            && (word == "deploy" ==> r == Some([Violation(UnpredictableChange, id)]))
            && (!KnownWord(word) ==> r == Some([Violation(UnsupportedChangeType, id)]))
            && (word == "create" || word == "modify" ==>
                  r.Some? == UnsafeProperties(t, id, word == "create", change).Some?)
  {
    HeadingExactly(t, change, id, text, word);
  }

  lemma AboutMember(codes: seq<Code>, subject: string, v: Violation)
    ensures v in About(codes, subject) <==> v.subject == subject && v.code in codes
  {
    if i :| 0 <= i < |codes| && codes[i] == v.code && v.subject == subject { assert About(codes, subject)[i] == v; }
    if i :| 0 <= i < |codes| && About(codes, subject)[i] == v { assert codes[i] == v.code; }
  }

  lemma ReviewedMember(t: Text, change: Fields, allowedIds: set<string>, id: string, kind: Kind, creates: bool, v: Violation)
    requires Trimmed(t, id, id) && creates == (kind == Create)
    requires Reviewed(t, id, kind, change, AllowedOf(t, allowedIds)).Some?
    ensures UnsafeProperties(t, id, creates, change).Some?
    ensures v in Reviewed(t, id, kind, change, AllowedOf(t, allowedIds)).value
       <==> v.subject == id && ((v.code == UnapprovedChange && !Listed(t, id, allowedIds))
                                || UnsafeChange(t, id, creates, change, v.code))
  {
    var unapproved := When(t.Normalized(id) !in AllowedOf(t, allowedIds), UnapprovedChange);
    ListedExactly(t, id, allowedIds);
    UnsafeChangeExactly(t, id, creates, change, v.code);
    MemberOfWhen(t.Normalized(id) !in AllowedOf(t, allowedIds), v.code, UnapprovedChange);
    AboutMember(unapproved + UnsafeProperties(t, id, creates, change).value, id, v);
  }

  lemma CreateOrModify(t: Text, change: Fields, allowed: set<string>, id: string, kind: Kind)
    requires Heading(t, change) == Some((id, kind)) && (kind == Create || kind == Modify)
    ensures ChangeViolations(t, JObject(change), allowed) == Reviewed(t, id, kind, change, allowed)
  {
  }

  lemma KindOfReviewed(word: string)
    requires word == "create" || word == "modify"
    ensures KindOf(word) == if word == "create" then Create else Modify
  {
  }

  /** A create or modify is reported if it is not on the allowlist, and for what it proposes. */
  lemma ReviewDecides(t: Text, change: Fields, allowedIds: set<string>, id: string, text: string, word: string, v: Violation)
    requires Concerns(t, change, id) && TextAt(t, change, "changeType", 64, text) && word == t.fold(text)
    requires word == "create" || word == "modify"
    requires ChangeViolations(t, JObject(change), AllowedOf(t, allowedIds)).Some?
    ensures UnsafeProperties(t, id, word == "create", change).Some?
    ensures v in ChangeViolations(t, JObject(change), AllowedOf(t, allowedIds)).value
       <==> v.subject == id && ((v.code == UnapprovedChange && !Listed(t, id, allowedIds))
                                || UnsafeChange(t, id, word == "create", change, v.code))
  {
    var kind := KindOf(word);
    KindOfReviewed(word);
    HeadingExactly(t, change, id, text, word);
    CreateOrModify(t, change, AllowedOf(t, allowedIds), id, kind);
    TextIsTight(t, change, "resourceId", 4096, id);
    ReviewedMember(t, change, allowedIds, id, kind, word == "create", v);
  }

  // ---------------------------------------------------------------- which changes pass

  /** Nothing in a create or modify is reported. */
  ghost predicate Spotless(t: Text, change: Fields, allowedIds: set<string>, creates: bool) {
    exists id :: Concerns(t, change, id) && Listed(t, id, allowedIds) && Inspected(t, id, creates, change)
                 && forall code :: !UnsafeChange(t, id, creates, change, code)
  }

  predicate Inspected(t: Text, id: string, creates: bool, change: Fields) {
    UnsafeProperties(t, id, creates, change).Some?
  }

  /** A change passes if it is called `nochange`, or is an allowlisted create or modify with nothing
      unsafe in it. */
  ghost predicate Passes(t: Text, change: Json, allowedIds: set<string>) {
    && change.JObject?
    && (|| IsCalled(t, change.fields, "nochange")
        || (IsCalled(t, change.fields, "create") && Spotless(t, change.fields, allowedIds, true))
        || (IsCalled(t, change.fields, "modify") && Spotless(t, change.fields, allowedIds, false)))
  }

  lemma CalledOnce(t: Text, change: Fields, text: string, word: string, other: string)
    requires TextAt(t, change, "changeType", 64, text) && word == t.fold(text)
    ensures IsCalled(t, change, other) <==> other == word
  {
    RequireExactly(t, change, "changeType", 64, text);
    forall said | TextAt(t, change, "changeType", 64, said) ensures said == text {
      RequireExactly(t, change, "changeType", 64, said);
    }
  }

  lemma ConcernsOnce(t: Text, change: Fields, id: string, other: string)
    requires Concerns(t, change, id) && Concerns(t, change, other)
    ensures id == other
  {
    RequireExactly(t, change, "resourceId", 4096, id);
    RequireExactly(t, change, "resourceId", 4096, other);
  }

  lemma SpotlessExactly(t: Text, change: Fields, allowedIds: set<string>, id: string, text: string, word: string)
    requires Concerns(t, change, id) && TextAt(t, change, "changeType", 64, text) && word == t.fold(text)
    requires word == "create" || word == "modify"
    requires ChangeViolations(t, JObject(change), AllowedOf(t, allowedIds)).Some?
    ensures ChangeViolations(t, JObject(change), AllowedOf(t, allowedIds)).value == []
       <==> Spotless(t, change, allowedIds, word == "create")
  {
    var found, creates := ChangeViolations(t, JObject(change), AllowedOf(t, allowedIds)).value, word == "create";
    ReviewDecides(t, change, allowedIds, id, text, word, Violation(UnapprovedChange, id));
    if found == [] {
      forall code ensures !UnsafeChange(t, id, creates, change, code) {
        ReviewDecides(t, change, allowedIds, id, text, word, Violation(code, id));
      }
    } else {
      ReviewDecides(t, change, allowedIds, id, text, word, found[0]);
      forall other | Concerns(t, change, other) ensures other == id { ConcernsOnce(t, change, id, other); }
    }
  }

  lemma PassesExactly(t: Text, change: Json, allowedIds: set<string>)
    requires ChangeViolations(t, change, AllowedOf(t, allowedIds)).Some?
    ensures ChangeViolations(t, change, AllowedOf(t, allowedIds)).value == [] <==> Passes(t, change, allowedIds)
  {
    var id, text := HeadingWas(t, change.fields);
    var word := t.fold(text);
    CalledOnce(t, change.fields, text, word, "nochange");
    CalledOnce(t, change.fields, text, word, "create");
    CalledOnce(t, change.fields, text, word, "modify");
    WordsDecide(t, change.fields, AllowedOf(t, allowedIds), id, text, word);
    if word == "create" || word == "modify" { SpotlessExactly(t, change.fields, allowedIds, id, text, word); }
  }

  // ---------------------------------------------------------------- the whole document

  ghost predicate ListIn(t: Text, fields: Fields, changes: seq<Json>) {
    |changes| <= 5000 && exists k :: 0 <= k < |fields| && Holds(t, fields, "changes", fields[k].1) && fields[k].1 == JArray(changes)
  }

  /** A succeeded what-if result without an error; its changes stand under `properties` if it has any. */
  ghost predicate ChangesAre(t: Text, document: Json, changes: seq<Json>) {
    && document.JObject?
    && (exists status :: TextAt(t, document.fields, "status", 64, status) && t.fold(status) == "succeeded")
    && (Holds(t, document.fields, "error", JNull) || Holds(t, document.fields, "error", JObject([])))
    && (|| (Holds(t, document.fields, "properties", JNull) && ListIn(t, document.fields, changes))
        || exists k :: 0 <= k < |document.fields| && Holds(t, document.fields, "properties", document.fields[k].1)
                       && document.fields[k].1.JObject? && ListIn(t, document.fields[k].1.fields, changes))
  }

  lemma ListExactly(t: Text, fields: Fields, changes: seq<Json>, list: Json)
    requires list == Get(t, fields, "changes")
    ensures ListIn(t, fields, changes) <==> list == JArray(changes) && |changes| <= MAX_CHANGES
  {
    GetHolds(t, fields, "changes");
    forall k | 0 <= k < |fields| && Holds(t, fields, "changes", fields[k].1) ensures fields[k].1 == list {
      HoldsOnce(t, fields, "changes", list, fields[k].1);
    }
    if list != JNull {
      var k :| 0 <= k < |fields| && fields[k].1 == list;
      assert Holds(t, fields, "changes", fields[k].1);
    }
  }

  lemma StatusExactly(t: Text, fields: Fields)
    ensures (exists status :: TextAt(t, fields, "status", 64, status) && t.fold(status) == "succeeded")
       <==> var status := RequireString(t, Get(t, fields, "status"), 64);
            status.Some? && t.Normalized(status.value) == "succeeded"
  {
    var found := RequireString(t, Get(t, fields, "status"), 64);
    forall status ensures found == Some(status) <==> TextAt(t, fields, "status", 64, status) {
      RequireExactly(t, fields, "status", 64, status);
    }
    if found.Some? {
      TextIsTight(t, fields, "status", 64, found.value);
      TrimmedNormalizes(t, found.value, found.value);
    }
  }

  lemma HasProperties(t: Text, fields: Fields, properties: Json)
    requires properties == Get(t, fields, "properties")
    ensures forall k :: 0 <= k < |fields| && Holds(t, fields, "properties", fields[k].1) ==> fields[k].1 == properties
    ensures properties != JNull ==>
              exists k :: 0 <= k < |fields| && Holds(t, fields, "properties", fields[k].1) && fields[k].1 == properties
  {
    GetHolds(t, fields, "properties");
    forall k | 0 <= k < |fields| && Holds(t, fields, "properties", fields[k].1) ensures fields[k].1 == properties {
      HoldsOnce(t, fields, "properties", properties, fields[k].1);
    }
    if properties != JNull {
      var k :| 0 <= k < |fields| && fields[k].1 == properties;
      assert Holds(t, fields, "properties", fields[k].1);
    }
  }

  lemma ChangesExactly(t: Text, document: Json, changes: seq<Json>)
    ensures ChangesOf(t, document) == Some(changes) <==> ChangesAre(t, document, changes)
  {
    if document.JObject? {
      var fields, properties := document.fields, Get(t, document.fields, "properties");
      StatusExactly(t, fields);
      GetExactly(t, fields, "error", JNull);
      GetExactly(t, fields, "error", JObject([]));
      GetExactly(t, fields, "properties", JNull);
      HasProperties(t, fields, properties);
      ListExactly(t, fields, changes, Get(t, fields, "changes"));
      if properties.JObject? { ListExactly(t, properties.fields, changes, Get(t, properties.fields, "changes")); }
    }
  }

  /** For a document that can be evaluated, nothing is reported exactly when every change passes. */
  lemma NothingReportedByWords(t: Text, document: Json, allowedIds: set<string>, changes: seq<Json>)
    requires Evaluate(t, document, allowedIds).Some? && ChangesAre(t, document, changes)
    ensures Evaluate(t, document, allowedIds) == Some([])
       <==> forall i :: 0 <= i < |changes| ==> Passes(t, changes[i], allowedIds)
  {
    ChangesExactly(t, document, changes);
    NothingReportedExactly(t, document, allowedIds);
    var allowed := set id <- allowedIds :: t.Normalized(id);
    forall i | 0 <= i < |changes|
      ensures Permitted(t, changes[i], allowed) <==> Passes(t, changes[i], allowedIds)
    {
      ChangesAreWellFormed(t, document, allowedIds, i);
      PermittedIsUnreported(t, changes[i], allowed);
      PassesExactly(t, changes[i], allowedIds);
    }
  }

  // ---------------------------------------------------------------- every report

  ghost predicate CalledOtherwise(t: Text, change: Fields) {
    exists text :: TextAt(t, change, "changeType", 64, text) && !KnownWord(t.fold(text))
  }

  ghost predicate DeservesReviewed(t: Text, change: Fields, allowedIds: set<string>, creates: bool, v: Violation) {
    || (v.code == UnapprovedChange && !Listed(t, v.subject, allowedIds))
    || (Inspected(t, v.subject, creates, change) && UnsafeChange(t, v.subject, creates, change, v.code))
  }

  /** What a change is reported as: the word it calls itself decides. */
  ghost predicate Deserves(t: Text, change: Json, allowedIds: set<string>, v: Violation) {
    && change.JObject? && Concerns(t, change.fields, v.subject)
    && (|| (IsCalled(t, change.fields, "ignore") && v.code == IgnoredChange)
        || (IsCalled(t, change.fields, "delete") && v.code == Delete)
        || (IsCalled(t, change.fields, "deploy") && v.code == UnpredictableChange)
        || (CalledOtherwise(t, change.fields) && v.code == UnsupportedChangeType)
        || (IsCalled(t, change.fields, "create") && DeservesReviewed(t, change.fields, allowedIds, true, v))
        || (IsCalled(t, change.fields, "modify") && DeservesReviewed(t, change.fields, allowedIds, false, v)))
  }

  lemma OtherwiseExactly(t: Text, change: Fields, text: string)
    requires TextAt(t, change, "changeType", 64, text)
    ensures CalledOtherwise(t, change) <==> !KnownWord(t.fold(text))
  {
    RequireExactly(t, change, "changeType", 64, text);
    forall said | TextAt(t, change, "changeType", 64, said) ensures said == text {
      RequireExactly(t, change, "changeType", 64, said);
    }
  }

  /** Which of the words a change is called, when it is called `word`. */
  lemma AllCalls(t: Text, change: Fields, text: string, word: string)
    requires TextAt(t, change, "changeType", 64, text) && word == t.fold(text)
    ensures (IsCalled(t, change, "ignore") <==> word == "ignore") && (IsCalled(t, change, "delete") <==> word == "delete")
    ensures (IsCalled(t, change, "deploy") <==> word == "deploy") && (IsCalled(t, change, "create") <==> word == "create")
    ensures IsCalled(t, change, "modify") <==> word == "modify"
    ensures CalledOtherwise(t, change) <==> !KnownWord(word)
  {
    CalledOnce(t, change, text, word, "ignore");
    CalledOnce(t, change, text, word, "delete");
    CalledOnce(t, change, text, word, "deploy");
    CalledOnce(t, change, text, word, "create");
    CalledOnce(t, change, text, word, "modify");
    OtherwiseExactly(t, change, text);
  }

  lemma ReviewedDeserves(t: Text, change: Fields, allowedIds: set<string>, id: string, text: string, word: string, v: Violation)
    requires Concerns(t, change, id) && TextAt(t, change, "changeType", 64, text) && word == t.fold(text)
    requires word == "create" || word == "modify"
    requires ChangeViolations(t, JObject(change), AllowedOf(t, allowedIds)).Some?
    ensures v in ChangeViolations(t, JObject(change), AllowedOf(t, allowedIds)).value
       <==> v.subject == id && DeservesReviewed(t, change, allowedIds, word == "create", v)
  {
    ReviewDecides(t, change, allowedIds, id, text, word, v);
  }

  lemma DeservesExactly(t: Text, change: Json, allowedIds: set<string>, v: Violation)
    requires ChangeViolations(t, change, AllowedOf(t, allowedIds)).Some?
    ensures v in ChangeViolations(t, change, AllowedOf(t, allowedIds)).value <==> Deserves(t, change, allowedIds, v)
  {
    var id, text := HeadingWas(t, change.fields);
    var word := t.fold(text);
    AllCalls(t, change.fields, text, word);
    WordsDecide(t, change.fields, AllowedOf(t, allowedIds), id, text, word);
    if Concerns(t, change.fields, v.subject) { ConcernsOnce(t, change.fields, id, v.subject); }
    if word == "create" || word == "modify" { ReviewedDeserves(t, change.fields, allowedIds, id, text, word, v); }
  }

  lemma {:induction false} ReportedByOne(check: Json -> Option<seq<Violation>>, changes: seq<Json>, v: Violation)
    requires AllViolations(check, changes).Some?
    ensures v in AllViolations(check, changes).value
       <==> exists i :: 0 <= i < |changes| && check(changes[i]).Some? && v in check(changes[i]).value
  {
    if changes != [] {
      var front := changes[..|changes| - 1];
      ReportedByOne(check, front, v);
      if i :| 0 <= i < |front| && check(front[i]).Some? && v in check(front[i]).value { assert v in check(changes[i]).value; }
      if i :| 0 <= i < |changes| && check(changes[i]).Some? && v in check(changes[i]).value {
        if i < |front| { assert v in check(front[i]).value; }
      }
    }
  }

  /** Exactly what the changes deserve is reported, each with its own code and resource. */
  lemma ReportedByWords(t: Text, document: Json, allowedIds: set<string>, changes: seq<Json>, v: Violation)
    requires Evaluate(t, document, allowedIds).Some? && ChangesAre(t, document, changes)
    ensures v in Evaluate(t, document, allowedIds).value
       <==> exists i :: 0 <= i < |changes| && Deserves(t, changes[i], allowedIds, v)
  {
    ChangesExactly(t, document, changes);
    var allowed := set id <- allowedIds :: t.Normalized(id);
    var check := c => ChangeViolations(t, c, allowed);
    ReportedByOne(check, changes, v);
    forall i | 0 <= i < |changes|
      ensures check(changes[i]).Some? && (v in check(changes[i]).value <==> Deserves(t, changes[i], allowedIds, v))
    {
      ChangesAreWellFormed(t, document, allowedIds, i);
      DeservesExactly(t, changes[i], allowedIds, v);
    }
  }

  // ---------------------------------------------------------------- which documents can be evaluated

  ghost predicate Readable(t: Text, change: Json) {
    && change.JObject?
    && exists id, text :: Concerns(t, change.fields, id) && TextAt(t, change.fields, "changeType", 64, text)
         && (t.fold(text) == "create" || t.fold(text) == "modify" ==>
               t.ResourceType(id).Some? && DeltaReadable(t, change.fields))
  }

  lemma ReadableWith(t: Text, change: Json, id: string, text: string, word: string)
    requires change.JObject? && Concerns(t, change.fields, id)
    requires TextAt(t, change.fields, "changeType", 64, text) && word == t.fold(text)
    ensures Readable(t, change)
       <==> (word == "create" || word == "modify" ==> t.ResourceType(id).Some? && DeltaReadable(t, change.fields))
  {
    RequireExactly(t, change.fields, "changeType", 64, text);
    forall other | Concerns(t, change.fields, other) ensures other == id { ConcernsOnce(t, change.fields, id, other); }
    forall said | TextAt(t, change.fields, "changeType", 64, said) ensures said == text {
      RequireExactly(t, change.fields, "changeType", 64, said);
    }
  }

  lemma ReadableExactly(t: Text, change: Json, allowed: set<string>)
    ensures ChangeViolations(t, change, allowed).Some? <==> Readable(t, change)
  {
    if change.JObject? && Heading(t, change.fields).Some? {
      var id, text := HeadingWas(t, change.fields);
      WordsDecide(t, change.fields, allowed, id, text, t.fold(text));
      DeltaReadableExactly(t, change.fields);
      ReadableWith(t, change, id, text, t.fold(text));
    } else if Readable(t, change) {
      var id, text :| Concerns(t, change.fields, id) && TextAt(t, change.fields, "changeType", 64, text);
      HeadingExactly(t, change.fields, id, text, t.fold(text));
    }
  }

  lemma {:induction false} AllOrNothing(check: Json -> Option<seq<Violation>>, changes: seq<Json>)
    ensures AllViolations(check, changes).Some? <==> forall i :: 0 <= i < |changes| ==> check(changes[i]).Some?
  {
    if changes != [] {
      var front := changes[..|changes| - 1];
      AllOrNothing(check, front);
      if forall i :: 0 <= i < |changes| ==> check(changes[i]).Some? {
        forall i | 0 <= i < |front| ensures check(front[i]).Some? { assert front[i] == changes[i]; }
      }
      if AllViolations(check, changes).Some? {
        forall i | 0 <= i < |changes| ensures check(changes[i]).Some? {
          if i < |front| { assert front[i] == changes[i]; }
        }
      }
    }
  }

  ghost predicate AllReadable(t: Text, changes: seq<Json>) {
    forall i :: 0 <= i < |changes| ==> Readable(t, changes[i])
  }

  lemma AllReadableExactly(t: Text, changes: seq<Json>, allowed: set<string>)
    ensures AllViolations(c => ChangeViolations(t, c, allowed), changes).Some? <==> AllReadable(t, changes)
  {
    var check := c => ChangeViolations(t, c, allowed);
    AllOrNothing(check, changes);
    forall i | 0 <= i < |changes| ensures check(changes[i]).Some? <==> Readable(t, changes[i]) {
      ReadableExactly(t, changes[i], allowed);
    }
  }

  lemma FoundExactly(t: Text, document: Json, allowed: set<string>)
    ensures ChangesOf(t, document).Some?
            && AllViolations(c => ChangeViolations(t, c, allowed), ChangesOf(t, document).value).Some?
       <==> exists changes :: ChangesAre(t, document, changes) && AllReadable(t, changes)
  {
    var found := ChangesOf(t, document);
    forall changes ensures found == Some(changes) <==> ChangesAre(t, document, changes) { ChangesExactly(t, document, changes); }
    if found.Some? { AllReadableExactly(t, found.value, allowed); }
  }

  /** Nothing deeper than 64 levels, no key longer than 4096, no text longer than 8 MiB, no infinite number. */
  predicate Moderate(v: Json, depth: nat)
    decreases v
  {
    && depth <= 64
    && match v
       case JString(text) => |text| <= 8388608
       case JFloat(finite) => finite
       case JArray(items) => forall i :: 0 <= i < |items| ==> Moderate(items[i], depth + 1)
       case JObject(fields) =>
         forall i :: 0 <= i < |fields| ==> |fields[i].0| <= 4096 && Moderate(fields[i].1, depth + 1)
       case _ => true
  }

  lemma {:induction false} ModerateExactly(v: Json, depth: nat)
    ensures Moderate(v, depth) <==> Within(v, depth)
    decreases v
  {
    forall i | 0 <= i < |Children(v)| ensures Moderate(Children(v)[i], depth + 1) <==> Within(Children(v)[i], depth + 1) {
      ModerateExactly(Children(v)[i], depth + 1);
    }
    match v
    case JObject(fields) => FieldsModerate(v, depth);
    case JArray(items) =>
      if Within(v, depth) {
        forall i | 0 <= i < |items| ensures Moderate(items[i], depth + 1) { assert Within(Children(v)[i], depth + 1); }
      }
    case _ =>
  }

  lemma FieldsModerate(v: Json, depth: nat)
    requires v.JObject?
    requires forall i :: 0 <= i < |Children(v)| ==> (Moderate(Children(v)[i], depth + 1) <==> Within(Children(v)[i], depth + 1))
    ensures Moderate(v, depth) <==> Within(v, depth)
  {
    var fields := v.fields;
    if Moderate(v, depth) {
      forall i | 0 <= i < |fields| ensures |fields[i].0| <= 4096 && Within(Children(v)[i], depth + 1) {
        assert Moderate(fields[i].1, depth + 1) && Children(v)[i] == fields[i].1;
      }
    }
    if Within(v, depth) {
      forall i | 0 <= i < |fields| ensures |fields[i].0| <= 4096 && Moderate(fields[i].1, depth + 1) {
        assert Within(Children(v)[i], depth + 1) && Children(v)[i] == fields[i].1;
      }
    }
  }

  /** A document is evaluated, and not rejected, exactly when it is shallow, small and clean enough, is a
      succeeded result with a list of changes, and each change says what has to be known of it. */
  lemma EvaluatedExactly(t: Text, document: Json, allowedIds: set<string>)
    ensures Evaluate(t, document, allowedIds).Some?
       <==> && Moderate(document, 0) && Nodes(document) <= 100000
            && exists changes :: ChangesAre(t, document, changes) && AllReadable(t, changes)
  {
    ModerateExactly(document, 0);
    WithinIsHeight(document, 0);
    FoundExactly(t, document, set id <- allowedIds :: t.Normalized(id));
  }
}
