/** What the item audit cache answers, and when: the reasons of its misses and refusals,
    the contents of the files it writes, and the text whose size it limits. */
module AuditCacheAnswers {
  import opened Text
  import opened JsonValues
  import opened CanonicalJson
  import opened JsonReader
  import opened JsonTexts
  import opened AuditCache

  // ---- The six key parts ----

  ghost predicate IsGiven(part: Option<string>) {
    part != None && part != Some("")
  }

  /** A request with all key parts: none is missing or empty. */
  ghost predicate Asks(r: Request) {
    && IsGiven(r.sourceFingerprint) && IsGiven(r.itemId) && IsGiven(r.packetSha256) && IsGiven(r.bodySha256) && IsGiven(r.promptVersion)
    && r.runtimeIdentity.Some? && r.runtimeIdentity.value.provider != "" && r.runtimeIdentity.value.modelId != ""
  }

  /** The parts are the request's own. */
  ghost predicate AreAsked(r: Request, p: Parts) {
    && r.sourceFingerprint == Some(p.sourceFingerprint) && r.itemId == Some(p.itemId) && r.packetSha256 == Some(p.packetSha256)
    && r.bodySha256 == Some(p.bodySha256) && r.promptVersion == Some(p.promptVersion) && r.runtimeIdentity == Some(p.runtimeIdentity)
  }

  lemma NormalizeIs(r: Request)
    ensures Normalize(r).Some? <==> Asks(r)
    ensures Normalize(r).Some? ==> AreAsked(r, Normalize(r).value)
  {
  }

  // ---- What a sidecar must hold ----

  lemma FieldIsJson(j: Json, key: string)
    requires WellFormed(j)
    ensures Field(j, key).Some? ==> WellFormed(Field(j, key).value)
  {
    hide Find;
  }

  /** One of the members has the key and the text. */
  lemma TextMember(j: Json, key: string, s: string)
    requires AuditCache.TextOf(Field(j, key)) == Some(s)
    ensures j.Object? && Matched(Member(key, Json.Text(s)), j.members)
  {
    var k := Find(j.members, key);
    assert Same(Json.Text(s), j.members[k].value);
  }

  /** An identity's JSON value is the one with its members, in any order, and no others. */
  lemma IdentityIff(j: Json, i: RuntimeIdentity)
    requires WellFormed(j)
    ensures Canonical(j) == Canonical(IdentityJson(i)) <==> IdentityIn(j) == Some(i)
  {
    IdentityIsJson(i);
    hide *;
    CanonicalIffSame(j, IdentityJson(i));
    CanonicalIffSame(IdentityJson(i), j);
    if Same(j, IdentityJson(i)) {
      IdentityIsRead(j, i);
    }
    if IdentityIn(j) == Some(i) {
      IdentityIsSame(j, i);
    }
  }

  lemma IdentityIsSame(j: Json, i: RuntimeIdentity)
    requires IdentityIn(j) == Some(i)
    ensures Same(IdentityJson(i), j)
  {
    hide Same, Matched, Find, Field;
    TextMember(j, "provider", i.provider);
    TextMember(j, "modelId", i.modelId);
    if i.agentProfile.Some? {
      TextMember(j, "agentProfile", i.agentProfile.value);
    }
    MembersMatch(IdentityMembers(i), j.members);
  }

  lemma MembersMatch(a: seq<Member>, b: seq<Member>)
    requires |a| == |b| && forall i :: 0 <= i < |a| ==> Matched(a[i], b)
    ensures Same(Object(a), Object(b))
  {
  }

  /** A finding belongs to a key exactly when it carries the six parts itself. */
  lemma FindingIff(finding: Json, p: Parts)
    requires WellFormed(finding)
    ensures FindingMatches(finding, p) <==> PartsIn(finding) == Some(p)
  {
    hide Find, Canonical, IdentityJson, IdentityIn, WellFormed;
    FieldIsJson(finding, "runtimeIdentity");
    if Field(finding, "runtimeIdentity").Some? {
      IdentityIff(Field(finding, "runtimeIdentity").value, p.runtimeIdentity);
    }
  }

  /** The key that a sidecar stores has the six parts, in any order, and nothing else. */
  lemma KeyIff(j: Json, p: Parts)
    requires WellFormed(j)
    ensures Canonical(j) == Canonical(PartsJson(p)) <==> PartsIn(j) == Some(p) && |j.members| == 6
  {
    PartsAreJson(p);
    CanonicalIffSame(j, PartsJson(p));
    CanonicalIffSame(PartsJson(p), j);
    hide Canonical, Find, IdentityIn, WellFormed;
    if Same(j, PartsJson(p)) {
      KeyIsRead(j, p);
    }
    if PartsIn(j) == Some(p) && |j.members| == 6 {
      KeyIsSame(j, p);
    }
  }

  lemma KeyIsRead(j: Json, p: Parts)
    requires WellFormed(j) && Same(j, PartsJson(p))
    ensures PartsIn(j) == Some(p) && |j.members| == 6
  {
    PartsAreJson(p);
    SameIsSymmetric(j, PartsJson(p));
    var members := PartsMembers(p);
    SameMembersAre(j, p, members);
    ShapeOfParts(p, members);
    hide *;
    forall k | 0 <= k < 5
      ensures Field(j, members[k].key) == Some(members[k].value)
    {
      MatchedInside(members[k], j);
    }
    IdentityField(members[5], j, p.runtimeIdentity);
    FieldsArePartsIn(j, p, members);
  }

  lemma SameMembersAre(j: Json, p: Parts, members: seq<Member>)
    requires Same(PartsJson(p), j) && members == PartsMembers(p)
    ensures j.Object? && |j.members| == |members| && forall k :: 0 <= k < |members| ==> Matched(members[k], j.members)
  {
    hide PartsMembers, Matched;
    SameObjects(PartsJson(p), j);
  }

  lemma ShapeOfParts(p: Parts, members: seq<Member>)
    requires members == PartsMembers(p)
    ensures |members| == 6 && members[5] == Member("runtimeIdentity", IdentityJson(p.runtimeIdentity))
    ensures forall k :: 0 <= k < 5 ==> members[k].value.Text?
  {
    hide IdentityJson;
  }

  lemma MatchedInside(m: Member, j: Json)
    requires WellFormed(j) && j.Object? && Matched(m, j.members) && m.value.Text?
    ensures Field(j, m.key) == Some(m.value)
  {
    hide Matched, Find;
    MatchedField(m, j.members);
  }

  lemma FieldsArePartsIn(j: Json, p: Parts, members: seq<Member>)
    requires members == PartsMembers(p) && forall k :: 0 <= k < 5 ==> Field(j, members[k].key) == Some(members[k].value)
    requires Field(j, "runtimeIdentity").Some? && IdentityIn(Field(j, "runtimeIdentity").value) == Some(p.runtimeIdentity)
    ensures PartsIn(j) == Some(p)
  {
    hide Field, IdentityIn, IdentityJson;
    assert Field(j, members[0].key).Some? && Field(j, members[1].key).Some? && Field(j, members[2].key).Some?
        && Field(j, members[3].key).Some? && Field(j, members[4].key).Some?;
  }

  lemma IdentityField(m: Member, j: Json, i: RuntimeIdentity)
    requires WellFormed(j) && j.Object? && Matched(m, j.members) && m == Member("runtimeIdentity", IdentityJson(i))
    ensures Field(j, "runtimeIdentity").Some? && IdentityIn(Field(j, "runtimeIdentity").value) == Some(i)
  {
    var others := j.members;
    var k :| 0 <= k < |others| && m.key == others[k].key && Same(m.value, others[k].value);
    FieldIs(others, k);
    IdentityIsJson(i);
    hide Same, Find;
    SameIsSymmetric(IdentityJson(i), others[k].value);
    IdentityIsRead(others[k].value, i);
  }

  lemma PartsAreFields(j: Json, p: Parts)
    requires PartsIn(j) == Some(p)
    ensures AuditCache.TextOf(Field(j, "sourceFingerprint")) == Some(p.sourceFingerprint) && AuditCache.TextOf(Field(j, "itemId")) == Some(p.itemId)
    ensures AuditCache.TextOf(Field(j, "packetSha256")) == Some(p.packetSha256) && AuditCache.TextOf(Field(j, "bodySha256")) == Some(p.bodySha256)
    ensures AuditCache.TextOf(Field(j, "promptVersion")) == Some(p.promptVersion)
    ensures Field(j, "runtimeIdentity").Some? && IdentityIn(Field(j, "runtimeIdentity").value) == Some(p.runtimeIdentity)
  {
    hide Field, IdentityIn, AuditCache.TextOf;
  }

  lemma KeyIsSame(j: Json, p: Parts)
    requires WellFormed(j) && PartsIn(j) == Some(p) && |j.members| == 6
    ensures Same(PartsJson(p), j)
  {
    hide Same, Matched, Find, IdentityIn, IdentityJson, PartsIn, WellFormed, Field, AuditCache.TextOf;
    PartsAreFields(j, p);
    TextMember(j, "sourceFingerprint", p.sourceFingerprint);
    TextMember(j, "itemId", p.itemId);
    TextMember(j, "packetSha256", p.packetSha256);
    TextMember(j, "bodySha256", p.bodySha256);
    TextMember(j, "promptVersion", p.promptVersion);
    IdentityMember(j, p.runtimeIdentity);
    MembersMatch(PartsMembers(p), j.members);
  }

  lemma IdentityMember(j: Json, i: RuntimeIdentity)
    requires WellFormed(j) && Field(j, "runtimeIdentity").Some? && IdentityIn(Field(j, "runtimeIdentity").value) == Some(i)
    ensures Matched(Member("runtimeIdentity", IdentityJson(i)), j.members)
  {
    var k := Find(j.members, "runtimeIdentity");
    FieldIsJson(j, "runtimeIdentity");
    IdentityIff(j.members[k].value, i);
    IdentityIsJson(i);
    hide Same, IdentityIn, IdentityJson, Canonical, Find;
    CanonicalIffSame(IdentityJson(i), j.members[k].value);
  }

  /** The sidecar is of the only version, names the key it lies under, stores its six
      parts, and holds a finding that carries them. */
  ghost predicate Belongs(sidecar: Json, p: Parts, cacheKey: string) {
    && Field(sidecar, "schemaVersion") == Some(Number("1")) && Field(sidecar, "cacheKey") == Some(Json.Text(cacheKey))
    && Field(sidecar, "key").Some? && PartsIn(Field(sidecar, "key").value) == Some(p) && |Field(sidecar, "key").value.members| == 6
    && Field(sidecar, "finding").Some? && PartsIn(Field(sidecar, "finding").value) == Some(p)
  }

  lemma BelongsIff(sidecar: Json, p: Parts, cacheKey: string)
    requires WellFormed(sidecar)
    ensures SidecarMatches(sidecar, p, cacheKey) <==> Belongs(sidecar, p, cacheKey)
  {
    FieldIsJson(sidecar, "key");
    FieldIsJson(sidecar, "finding");
    hide Find, Canonical, PartsJson, PartsIn, FindingMatches, WellFormed, Field;
    if Field(sidecar, "key").Some? {
      KeyIff(Field(sidecar, "key").value, p);
    }
    if Field(sidecar, "finding").Some? {
      FindingIff(Field(sidecar, "finding").value, p);
    }
  }

  // ---- Answers ----

  /** What a read answers: which part of the request, of the file or of the finding is at
      fault, in this order, or else the finding itself. */
  lemma LookupAnswers(e: Setting, files: Files, r: Request)
    ensures Lookup(e, files, r) == Miss(MissingKeyDimension) <==> !Asks(r)
    ensures Asks(r) ==>
              exists p: Parts :: AreAsked(r, p) && AnswersBy(e, files, p, CacheKey(e, p), Lookup(e, files, r))
  {
    NormalizeIs(r);
    hide Normalize, Asks, AreAsked, SidecarMatches, Belongs, CacheKey, ByteValid, FindingOf;
    if Normalize(r).Some? {
      var p := Normalize(r).value;
      var path := CacheKey(e, p);
      if path in files && files[path].Parsed? {
        var sidecar := files[path].value;
        assert WellFormed(sidecar);
        BelongsIff(sidecar, p, path);
        FindingIsThere(sidecar, p, path);
        ByteValidIs(FindingOf(sidecar));
      }
      assert AnswersBy(e, files, p, path, Lookup(e, files, r));
    }
  }

  ghost predicate AnswersBy(e: Setting, files: Files, p: Parts, path: string, answer: ReadResult) {
    if path !in files then answer == Miss(NotFound)
    else if files[path] == Malformed then answer == Miss(MalformedJson)
    else if !Belongs(files[path].value, p, path) then answer == Miss(KeyMismatch)
    else
      var finding := FindingIn(files[path].value);
      if Utf8Length(Stringify(finding)) > 12000 then answer == Miss(ByteInvalid)
      else if !e.schema(finding) then answer == Miss(SchemaInvalid)
      else answer.Hit? && answer.cacheKey == path && answer.finding == finding
  }

  ghost function FindingIn(sidecar: Json): Json {
    if Field(sidecar, "finding").Some? then Field(sidecar, "finding").value else Null
  }

  lemma FindingIsThere(sidecar: JsonValue, p: Parts, path: string)
    ensures FindingOf(sidecar) == FindingIn(sidecar)
  {
  }

  lemma ByteValidIs(finding: Json)
    ensures ByteValid(finding) <==> Utf8Length(Stringify(finding)) <= 12000
  {
  }

  /** What a write answers: the request's parts are missing, the finding is too large or
      not of the schema, or carries other parts; otherwise it is stored, and the file
      holds the version, the key, its parts, the time and the finding. */
  lemma WriteAnswers(e: Setting, files: Files, r: Request, finding: JsonValue, writtenAt: string)
    ensures WriteOutcome(e, r, finding) == Refused(MissingKeyDimension) <==> !Asks(r)
    ensures Asks(r) ==>
              exists p: Parts :: AreAsked(r, p) && WritesBy(e, files, p, finding, writtenAt, WriteOutcome(e, r, finding), After(e, files, Writing(r, finding, writtenAt)))
  {
    NormalizeIs(r);
    hide Normalize, Asks, AreAsked, FindingMatches, PartsIn, CacheKey, ByteValid, SidecarJson, Field;
    if Normalize(r).Some? {
      var p := Normalize(r).value;
      assert WellFormed(finding);
      FindingIff(finding, p);
      ByteValidIs(finding);
      if WriteOutcome(e, r, finding).Written? {
        StoredSidecar(p, CacheKey(e, p), writtenAt, finding);
        SidecarIsJson(p, CacheKey(e, p), writtenAt, finding);
      }
      assert WritesBy(e, files, p, finding, writtenAt, WriteOutcome(e, r, finding), After(e, files, Writing(r, finding, writtenAt)));
    }
  }

  ghost predicate WritesBy(e: Setting, files: Files, p: Parts, finding: Json, writtenAt: string, answer: WriteResult, after: Files) {
    if Utf8Length(Stringify(finding)) > 12000 then answer == Refused(ByteInvalid) && after == files
    else if !e.schema(finding) then answer == Refused(SchemaInvalid) && after == files
    else if PartsIn(finding) != Some(p) then answer == Refused(KeyMismatch) && after == files
    else
      var path := CacheKey(e, p);
      && answer == Written(path) && path in after && after[path].Parsed? && after == files[path := after[path]]
      && Stores(after[path].value, p, path, writtenAt, finding)
  }

  /** The members of a sidecar that was written. */
  ghost predicate Stores(sidecar: Json, p: Parts, path: string, writtenAt: string, finding: Json) {
    && sidecar.Object? && |sidecar.members| == 5
    && Field(sidecar, "schemaVersion") == Some(Number("1")) && Field(sidecar, "cacheKey") == Some(Json.Text(path))
    && Field(sidecar, "writtenAt") == Some(Json.Text(writtenAt)) && Field(sidecar, "finding") == Some(finding)
    && Field(sidecar, "key").Some? && PartsIn(Field(sidecar, "key").value) == Some(p) && |Field(sidecar, "key").value.members| == 6
  }

  lemma StoredSidecar(p: Parts, path: string, writtenAt: string, finding: Json)
    requires WellFormed(finding)
    ensures Stores(SidecarJson(p, path, writtenAt, finding), p, path, writtenAt, finding)
  {
    SidecarFields(p, path, writtenAt, finding);
    SidecarIsJson(p, path, writtenAt, finding);
    PartsAreJson(p);
    KeyIff(PartsJson(p), p);
    hide PartsJson, Find, PartsIn, Canonical, Field;
    FieldIs(SidecarMembers(p, path, writtenAt, finding), 3);
  }

  // ---- The text whose size is limited ----

  lemma ScalarStringifies(j: Json)
    requires !j.Array? && !j.Object?
    ensures Stringify(j) == Canonical(j)
  {
  }

  function ItemTexts(items: seq<Json>): (texts: seq<string>)
    ensures |texts| == |items|
  {
    seq(|items|, i requires 0 <= i < |items| => Stringify(items[i]))
  }

  function ValueTexts(members: seq<Member>): (texts: seq<string>)
    ensures |texts| == |members|
  {
    seq(|members|, i requires 0 <= i < |members| => Stringify(members[i].value))
  }

  function PartTexts(members: seq<Member>): (texts: seq<string>)
    ensures |texts| == |members|
  {
    seq(|members|, i requires 0 <= i < |members| => Quote(members[i].key) + ":" + Stringify(members[i].value))
  }

  lemma ListStringifies(items: seq<Json>)
    ensures Stringify(Array(items)) == "[" + Join(ItemTexts(items), ",") + "]"
  {
    assert ItemTexts(items) == seq(|items|, i requires 0 <= i < |items| => Stringify(items[i]));
    hide Join, Quote;
  }

  lemma ObjectStringifies(members: seq<Member>)
    ensures Stringify(Object(members)) == "{" + Join(PartTexts(members), ",") + "}"
  {
    assert PartTexts(members) == seq(|members|, i requires 0 <= i < |members| => Quote(members[i].key) + ":" + Stringify(members[i].value));
    hide Join, Quote;
  }

  /** The text that is measured is read back as the very value, its members in their order. */
  lemma {:induction false} StringifyIsRead(j: Json)
    requires WellFormed(j)
    ensures IsTextOf(Stringify(j), j)
    decreases j
  {
    hide IsTextOf, Stringify, Join, Quote;
    match j
    case Array(items) =>
      forall i | 0 <= i < |items|
        ensures IsTextOf(ItemTexts(items)[i], items[i])
      {
        StringifyIsRead(items[i]);
      }
      ListStringifies(items);
      ListText(ItemTexts(items), items);
    case Object(members) =>
      forall i | 0 <= i < |members|
        ensures IsTextOf(ValueTexts(members)[i], members[i].value)
      {
        StringifyIsRead(members[i].value);
      }
      ObjectStringifies(members);
      JsonTexts.MembersText(PartTexts(members), members, ValueTexts(members));
    case _ =>
      ScalarStringifies(j);
      ScalarText(j);
  }
}
