/** backlog-curation-item-audit-cache.ts: item audits cached under the hash of their
    canonical key. The hash is an arbitrary function, so collisions are possible. */
module AuditCache {
  import opened Text
  import opened JsonValues
  import opened CanonicalJson

  type JsonValue = j: Json | WellFormed(j) witness Null

  const FINDING_MAX_BYTES := 12000

  datatype RuntimeIdentity = RuntimeIdentity(provider: string, modelId: string, agentProfile: Option<string>)

  /** What a caller asks for; any part may be missing. */
  datatype Request = Request(
    sourceFingerprint: Option<string>, itemId: Option<string>, packetSha256: Option<string>,
    bodySha256: Option<string>, promptVersion: Option<string>, runtimeIdentity: Option<RuntimeIdentity>)

  datatype Parts = Parts(
    sourceFingerprint: string, itemId: string, packetSha256: string,
    bodySha256: string, promptVersion: string, runtimeIdentity: RuntimeIdentity)

  /** A sidecar file holds text that may or may not parse as JSON. */
  datatype File = Malformed | Parsed(value: JsonValue)

  datatype Reason = MissingKeyDimension | NotFound | MalformedJson | SchemaInvalid | ByteInvalid | KeyMismatch

  datatype ReadResult = Hit(cacheKey: string, finding: JsonValue) | Miss(reason: Reason)

  datatype WriteResult = Written(cacheKey: string) | Refused(why: Reason)

  /** The parts of the environment the cache depends on: the hash and the finding schema. */
  datatype Setting = Setting(hash: string -> string, schema: Json -> bool)

  // ---- Keys ----

  predicate Given(part: Option<string>) {
    part.Some? && part.value != ""
  }

  predicate Complete(identity: Option<RuntimeIdentity>) {
    identity.Some? && |identity.value.provider| > 0 && |identity.value.modelId| > 0
  }

  function Normalize(r: Request): Option<Parts> {
    if Given(r.sourceFingerprint) && Given(r.itemId) && Given(r.packetSha256) && Given(r.bodySha256)
       && Given(r.promptVersion) && Complete(r.runtimeIdentity)
    then Some(Parts(r.sourceFingerprint.value, r.itemId.value, r.packetSha256.value, r.bodySha256.value, r.promptVersion.value, r.runtimeIdentity.value))
    else None
  }

  function IdentityMembers(i: RuntimeIdentity): seq<Member> {
    [Member("provider", Text(i.provider)), Member("modelId", Text(i.modelId))]
    + if i.agentProfile.Some? then [Member("agentProfile", Text(i.agentProfile.value))] else []
  }

  function IdentityJson(i: RuntimeIdentity): (j: Json) {
    Object(IdentityMembers(i))
  }

  function PartsMembers(p: Parts): seq<Member> {
    [Member("sourceFingerprint", Text(p.sourceFingerprint)), Member("itemId", Text(p.itemId)),
     Member("packetSha256", Text(p.packetSha256)), Member("bodySha256", Text(p.bodySha256)),
     Member("promptVersion", Text(p.promptVersion)), Member("runtimeIdentity", IdentityJson(p.runtimeIdentity))]
  }

  function PartsJson(p: Parts): (j: Json) {
    Object(PartsMembers(p))
  }

  function CacheKey(e: Setting, p: Parts): string {
    e.hash(Canonical(PartsJson(p)))
  }

  // ---- Sidecars ----

  function Field(j: Json, key: string): Option<Json> {
    if j.Object? && Find(j.members, key) >= 0 then Some(j.members[Find(j.members, key)].value) else None
  }

  predicate TextField(j: Json, key: string, s: string) {
    Field(j, key) == Some(Text(s))
  }

  predicate PrintsAs(field: Option<Json>, j: Json) {
    field.Some? && Canonical(field.value) == Canonical(j)
  }

  predicate FindingMatches(finding: Json, p: Parts) {
    && TextField(finding, "sourceFingerprint", p.sourceFingerprint)
    && TextField(finding, "itemId", p.itemId)
    && TextField(finding, "packetSha256", p.packetSha256)
    && TextField(finding, "bodySha256", p.bodySha256)
    && TextField(finding, "promptVersion", p.promptVersion)
    && PrintsAs(Field(finding, "runtimeIdentity"), IdentityJson(p.runtimeIdentity))
  }

  predicate SidecarMatches(sidecar: Json, p: Parts, cacheKey: string) {
    && Field(sidecar, "schemaVersion") == Some(Number("1"))
    && TextField(sidecar, "cacheKey", cacheKey)
    && PrintsAs(Field(sidecar, "key"), PartsJson(p))
    && Field(sidecar, "finding").Some? && FindingMatches(Field(sidecar, "finding").value, p)
  }

  function SidecarMembers(p: Parts, cacheKey: string, writtenAt: string, finding: Json): seq<Member> {
    [Member("schemaVersion", Number("1")), Member("key", PartsJson(p)), Member("cacheKey", Text(cacheKey)),
     Member("writtenAt", Text(writtenAt)), Member("finding", finding)]
  }

  function SidecarJson(p: Parts, cacheKey: string, writtenAt: string, finding: Json): Json {
    Object(SidecarMembers(p, cacheKey, writtenAt, finding))
  }

  /** JSON.stringify: members in the object's own order. */
  function Stringify(j: Json): string
    decreases j
  {
    match j
    case Null => "null"
    case Bool(b) => if b then "true" else "false"
    case Number(text) => text
    case Text(s) => Quote(s)
    case Array(items) => "[" + Join(seq(|items|, i requires 0 <= i < |items| => Stringify(items[i])), ",") + "]"
    case Object(members) =>
      "{" + Join(seq(|members|, i requires 0 <= i < |members| => Quote(members[i].key) + ":" + Stringify(members[i].value)), ",") + "}"
  }

  predicate ByteValid(finding: Json) {
    Utf8Length(Stringify(finding)) <= FINDING_MAX_BYTES
  }

  // ---- Reading and writing ----

  type Files = map<string, File>

  function FindingOf(sidecar: JsonValue): (r: JsonValue) {
    if Field(sidecar, "finding").Some? then Field(sidecar, "finding").value else Null
  }

  function Lookup(e: Setting, files: Files, r: Request): ReadResult {
    var parts := Normalize(r);
    if parts.None? then Miss(MissingKeyDimension)
    else
      var path := CacheKey(e, parts.value);
      if path !in files then Miss(NotFound)
      else if files[path].Malformed? then Miss(MalformedJson)
      else
        var sidecar := files[path].value;
        if !SidecarMatches(sidecar, parts.value, path) then Miss(KeyMismatch)
        else if !ByteValid(FindingOf(sidecar)) then Miss(ByteInvalid)
        else if !e.schema(FindingOf(sidecar)) then Miss(SchemaInvalid)
        else Hit(path, FindingOf(sidecar))
  }

  function WriteOutcome(e: Setting, r: Request, finding: JsonValue): WriteResult {
    var parts := Normalize(r);
    if parts.None? then Refused(MissingKeyDimension)
    else if !ByteValid(finding) then Refused(ByteInvalid)
    else if !e.schema(finding) then Refused(SchemaInvalid)
    else if !FindingMatches(finding, parts.value) then Refused(KeyMismatch)
    else Written(CacheKey(e, parts.value))
  }

  /** One thing that can happen to the cache directory. Disturb is anything another
      process does to one file. */
  datatype Event =
    | Reading(request: Request)
    | Writing(request: Request, finding: JsonValue, writtenAt: string)
    | Disturb(path: string, file: Option<File>)

  function After(e: Setting, files: Files, event: Event): Files {
    match event
    case Reading(_) => files
    case Writing(r, finding, writtenAt) =>
      if WriteOutcome(e, r, finding).Written? then
        SidecarIsJson(Normalize(r).value, CacheKey(e, Normalize(r).value), writtenAt, finding);
        files[CacheKey(e, Normalize(r).value) := Parsed(SidecarJson(Normalize(r).value, CacheKey(e, Normalize(r).value), writtenAt, finding))]
      else files
    case Disturb(path, file) => if file.Some? then files[path := file.value] else files - {path}
  }

  function AfterAll(e: Setting, files: Files, events: seq<Event>): Files {
    if events == [] then files else After(e, AfterAll(e, files, events[..|events| - 1]), events[|events| - 1])
  }

  /** The event changes the file at the path. */
  predicate Touches(e: Setting, event: Event, path: string) {
    match event
    case Reading(_) => false
    case Writing(r, finding, _) => WriteOutcome(e, r, finding) == Written(path)
    case Disturb(p, _) => p == path
  }

  // ---- The members of the cache's own objects ----

  lemma IdentityIsJson(i: RuntimeIdentity)
    ensures WellFormed(IdentityJson(i))
  {
    var members := IdentityMembers(i);
    assert |members[0].key| == 8 && |members[1].key| == 7 && (|members| == 3 ==> |members[2].key| == 12);
  }

  lemma PartsAreJson(p: Parts)
    ensures WellFormed(PartsJson(p))
  {
    hide IdentityJson;
    IdentityIsJson(p.runtimeIdentity);
    var members := PartsMembers(p);
    assert |members[0].key| == 17 && |members[1].key| == 6 && |members[2].key| == 12
        && |members[3].key| == 10 && |members[4].key| == 13 && |members[5].key| == 15;
  }

  lemma SidecarIsJson(p: Parts, cacheKey: string, writtenAt: string, finding: Json)
    requires WellFormed(finding)
    ensures WellFormed(SidecarJson(p, cacheKey, writtenAt, finding))
  {
    hide PartsJson;
    PartsAreJson(p);
    var members := SidecarMembers(p, cacheKey, writtenAt, finding);
    assert |members[0].key| == 13 && |members[1].key| == 3 && |members[2].key| == 8 && |members[3].key| == 9 && |members[4].key| == 7;
    assert WellFormed(members[0].value);
  }

  lemma FieldIs(members: seq<Member>, i: nat)
    requires DistinctKeys(members) && i < |members|
    ensures Field(Object(members), members[i].key) == Some(members[i].value)
  {
    var k := Find(members, members[i].key);
    assert k == i;
  }

  lemma SidecarFields(p: Parts, cacheKey: string, writtenAt: string, finding: Json)
    requires WellFormed(finding)
    ensures var s := SidecarJson(p, cacheKey, writtenAt, finding);
            (&& Field(s, "schemaVersion") == Some(Number("1"))
             && Field(s, "key") == Some(PartsJson(p))
             && Field(s, "cacheKey") == Some(Text(cacheKey))
             && Field(s, "finding") == Some(finding))
  {
    SidecarIsJson(p, cacheKey, writtenAt, finding);
    hide PartsJson, Field, Find;
    var members := SidecarMembers(p, cacheKey, writtenAt, finding);
    FieldIs(members, 0);
    FieldIs(members, 1);
    FieldIs(members, 2);
    FieldIs(members, 4);
  }

  // ---- Equal keys ----

  lemma IdentityKeys(a: RuntimeIdentity, b: RuntimeIdentity)
    requires a.agentProfile.Some? == b.agentProfile.Some?
    ensures var ma, mb := IdentityMembers(a), IdentityMembers(b);
            (|ma| == |mb| && forall i, k :: 0 <= i < |ma| && 0 <= k < |mb| ==> (ma[i].key == mb[k].key <==> i == k))
  {
    var ma, mb := IdentityMembers(a), IdentityMembers(b);
    assert |ma[0].key| == 8 && |ma[1].key| == 7 && (|ma| == 3 ==> |ma[2].key| == 12);
    assert ma[0].key == mb[0].key && ma[1].key == mb[1].key && (|ma| == 3 ==> ma[2].key == mb[2].key);
  }

  lemma SameIdentities(a: RuntimeIdentity, b: RuntimeIdentity)
    requires Same(IdentityJson(a), IdentityJson(b))
    ensures a == b
  {
    var ma, mb := IdentityMembers(a), IdentityMembers(b);
    assert forall i :: 0 <= i < |ma| ==> Matched(ma[i], mb);
    IdentityKeys(a, b);
    hide Matched;
    MatchedAt(ma, mb);
    assert Same(ma[0].value, mb[0].value) && Same(ma[1].value, mb[1].value);
    if |ma| == 3 {
      assert Same(ma[2].value, mb[2].value);
    }
  }

  lemma SameParts(p: Parts, q: Parts)
    requires Same(PartsJson(p), PartsJson(q))
    ensures p == q
  {
    hide IdentityJson, IdentityMembers;
    var mp, mq := PartsMembers(p), PartsMembers(q);
    assert forall i :: 0 <= i < 6 ==> Matched(mp[i], mq);
    PartKeys(p, q);
    MatchedAt(mp, mq);
    assert Same(mp[5].value, mq[5].value);
    SameIdentities(p.runtimeIdentity, q.runtimeIdentity);
    assert Same(mp[0].value, mq[0].value) && Same(mp[1].value, mq[1].value) && Same(mp[2].value, mq[2].value);
    assert Same(mp[3].value, mq[3].value) && Same(mp[4].value, mq[4].value);
  }

  lemma PartKeys(p: Parts, q: Parts)
    ensures forall i, k :: 0 <= i < 6 && 0 <= k < 6 ==> (PartsMembers(p)[i].key == PartsMembers(q)[k].key <==> i == k)
  {
    hide IdentityJson;
    var mp, mq := PartsMembers(p), PartsMembers(q);
    assert |mp[0].key| == 17 && |mp[1].key| == 6 && |mp[2].key| == 12 && |mp[3].key| == 10 && |mp[4].key| == 13 && |mp[5].key| == 15;
    assert forall i :: 0 <= i < 6 ==> mp[i].key == mq[i].key;
  }

  lemma MatchedAt(ma: seq<Member>, mb: seq<Member>)
    requires |ma| == |mb| && forall i :: 0 <= i < |ma| ==> Matched(ma[i], mb)
    requires forall i, k :: 0 <= i < |ma| && 0 <= k < |mb| ==> (ma[i].key == mb[k].key <==> i == k)
    ensures forall i :: 0 <= i < |ma| ==> Same(ma[i].value, mb[i].value)
  {
    hide Same;
    forall i | 0 <= i < |ma|
      ensures Same(ma[i].value, mb[i].value)
    {
      assert Matched(ma[i], mb);
    }
  }

  // ---- What the cache promises ----

  function TextOf(field: Option<Json>): Option<string> {
    if field.Some? && field.value.Text? then Some(field.value.s) else None
  }

  /** The runtime identity that a JSON value describes: a provider, a model and possibly
      a profile, in any order, and nothing else. */
  function IdentityIn(j: Json): Option<RuntimeIdentity> {
    var provider, modelId, profile := TextOf(Field(j, "provider")), TextOf(Field(j, "modelId")), TextOf(Field(j, "agentProfile"));
    if provider.None? || modelId.None? then None
    else if |j.members| != (if profile.Some? then 3 else 2) then None
    else Some(RuntimeIdentity(provider.value, modelId.value, profile))
  }

  /** The six key parts that a finding itself carries. */
  function PartsIn(finding: Json): Option<Parts> {
    var identity := Field(finding, "runtimeIdentity");
    var fingerprint, id := TextOf(Field(finding, "sourceFingerprint")), TextOf(Field(finding, "itemId"));
    var packet, body := TextOf(Field(finding, "packetSha256")), TextOf(Field(finding, "bodySha256"));
    var prompt := TextOf(Field(finding, "promptVersion"));
    if fingerprint.None? || id.None? || packet.None? || body.None? || prompt.None? || identity.None? then None
    else if IdentityIn(identity.value).None? then None
    else Some(Parts(fingerprint.value, id.value, packet.value, body.value, prompt.value, IdentityIn(identity.value).value))
  }

  lemma SameIsSymmetric(a: Json, b: Json)
    requires WellFormed(a) && WellFormed(b) && Same(a, b)
    ensures Same(b, a)
  {
    hide *;
    CanonicalIffSame(a, b);
    CanonicalIffSame(b, a);
  }

  lemma MatchedField(m: Member, others: seq<Member>)
    requires DistinctKeys(others) && Matched(m, others) && m.value.Text?
    ensures Field(Object(others), m.key) == Some(m.value)
  {
    var k :| 0 <= k < |others| && m.key == others[k].key && Same(m.value, others[k].value);
    FieldIs(others, k);
    assert others[k].value == m.value;
  }

  lemma SameObjects(a: Json, b: Json)
    requires a.Object? && Same(a, b)
    ensures b.Object? && |a.members| == |b.members| && forall k :: 0 <= k < |a.members| ==> Matched(a.members[k], b.members)
  {
  }

  /** A JSON value equal to an identity, up to the order of its members, describes it. */
  lemma IdentityIsRead(j: Json, i: RuntimeIdentity)
    requires WellFormed(j) && Same(j, IdentityJson(i))
    ensures IdentityIn(j) == Some(i)
  {
    hide Same, Matched, Find;
    IdentityIsJson(i);
    SameIsSymmetric(j, IdentityJson(i));
    var members := IdentityMembers(i);
    SameObjects(IdentityJson(i), j);
    SameObjects(j, IdentityJson(i));
    MatchedField(members[0], j.members);
    MatchedField(members[1], j.members);
    if i.agentProfile.Some? {
      MatchedField(members[2], j.members);
    } else {
      NoProfile(j.members, members);
    }
  }

  lemma NoProfile(members: seq<Member>, others: seq<Member>)
    requires (forall k :: 0 <= k < |members| ==> Matched(members[k], others)) && |others| == 2 && |others[0].key| == 8 && |others[1].key| == 7
    ensures Field(Object(members), "agentProfile") == None
  {
    var profile := "agentProfile";
    assert |profile| == 12;
    hide Same;
    assert forall k :: 0 <= k < |members| ==> Matched(members[k], others) && |members[k].key| != 12;
  }

  /** Whatever is in the files and however the hash collides, a hit's finding itself
      carries exactly the key parts that were asked for. */
  lemma HitsMatch(e: Setting, files: Files, r: Request)
    requires Lookup(e, files, r).Hit?
    ensures PartsIn(Lookup(e, files, r).finding) == Normalize(r)
  {
    hide ByteValid, Canonical, Same, IdentityJson, PartsJson, Find, IdentityIn;
    var p := Normalize(r).value;
    var finding := Lookup(e, files, r).finding;
    IdentityIsJson(p.runtimeIdentity);
    assert WellFormed(finding);
    var identity := Field(finding, "runtimeIdentity").value;
    assert WellFormed(identity);
    CanonicalIffSame(identity, IdentityJson(p.runtimeIdentity));
    IdentityIsRead(identity, p.runtimeIdentity);
  }

  lemma CanonicalParts(p: Parts, q: Parts)
    ensures Canonical(PartsJson(p)) == Canonical(PartsJson(q)) <==> p == q
  {
    PartsAreJson(p);
    PartsAreJson(q);
    hide Canonical, PartsJson, Same, WellFormed;
    CanonicalIffSame(PartsJson(p), PartsJson(q));
    if Same(PartsJson(p), PartsJson(q)) {
      SameParts(p, q);
    }
  }

  /** A file written for one key is a hit for exactly that key, even when another key
      has the same path: the colliding key reads a key mismatch. */
  lemma WrittenFileAnswersItsKey(e: Setting, files: Files, w: Request, finding: JsonValue, writtenAt: string, r: Request)
    requires WriteOutcome(e, w, finding).Written? && Normalize(r).Some?
    requires CacheKey(e, Normalize(r).value) == WriteOutcome(e, w, finding).cacheKey
    ensures var result := Lookup(e, After(e, files, Writing(w, finding, writtenAt)), r);
            (result == if Normalize(r) == Normalize(w) then Hit(CacheKey(e, Normalize(r).value), finding) else Miss(KeyMismatch))
  {
    hide Canonical, FindingMatches, ByteValid, Find, PartsJson, SidecarJson, Field, WellFormed, CacheKey;
    var p, q := Normalize(w).value, Normalize(r).value;
    var path := CacheKey(e, p);
    var sidecar := SidecarJson(p, path, writtenAt, finding);
    SidecarIsJson(p, path, writtenAt, finding);
    SidecarFields(p, path, writtenAt, finding);
    CanonicalParts(p, q);
  }

  lemma {:induction false} UntouchedFile(e: Setting, files: Files, events: seq<Event>, path: string)
    requires forall i :: 0 <= i < |events| ==> !Touches(e, events[i], path)
    ensures (path in AfterAll(e, files, events)) == (path in files)
    ensures path in files ==> AfterAll(e, files, events)[path] == files[path]
  {
    hide WriteOutcome, CacheKey, SidecarJson;
    if events != [] {
      UntouchedFile(e, files, events[..|events| - 1], path);
      UntouchedByOne(e, AfterAll(e, files, events[..|events| - 1]), events[|events| - 1], path);
    }
  }

  lemma UntouchedByOne(e: Setting, files: Files, event: Event, path: string)
    requires !Touches(e, event, path)
    ensures (path in After(e, files, event)) == (path in files)
    ensures path in files ==> After(e, files, event)[path] == files[path]
  {
    hide CacheKey, SidecarJson, FindingMatches, ByteValid;
  }

  /** Another process may leave any one file in any state, or take it away. */
  lemma DisturbanceIsFree(e: Setting, files: Files, after: Files, path: string) returns (file: Option<File>)
    requires forall p :: p != path ==> (p in after) == (p in files) && (p in files ==> after[p] == files[p])
    ensures After(e, files, Disturb(path, file)) == after
  {
    file := if path in after then Some(after[path]) else None;
    var r := After(e, files, Disturb(path, file));
    assert forall p :: (p in r) == (p in after) && (p in after ==> r[p] == after[p]);
  }

  /** Touching a file is what can change it. */
  lemma TouchesIff(e: Setting, event: Event, path: string)
    ensures Touches(e, event, path)
       <==> exists files: Files :: (path in After(e, files, event)) != (path in files)
                            || (path in files && After(e, files, event)[path] != files[path])
  {
    hide CacheKey, SidecarJson, FindingMatches, ByteValid;
    if Touches(e, event, path) {
      var files: Files := if event.Disturb? && event.file.None? then map[path := Malformed] else map[];
      assert (path in After(e, files, event)) != (path in files);
    } else {
      forall files: Files
        ensures (path in After(e, files, event)) == (path in files)
        ensures path in files ==> After(e, files, event)[path] == files[path]
      {
        UntouchedByOne(e, files, event, path);
      }
    }
  }

  lemma SameFileSameAnswer(e: Setting, a: Files, b: Files, r: Request)
    requires Normalize(r).Some?
    requires var path := CacheKey(e, Normalize(r).value); (path in a) == (path in b) && (path in a ==> a[path] == b[path])
    ensures Lookup(e, a, r) == Lookup(e, b, r)
  {
    hide CacheKey, SidecarMatches, ByteValid;
  }

  lemma {:induction false} AfterAllConcat(e: Setting, files: Files, a: seq<Event>, b: seq<Event>)
    ensures AfterAll(e, files, a + b) == AfterAll(e, AfterAll(e, files, a), b)
  {
    hide After;
    if b == [] {
      assert a + b == a;
    } else {
      assert (a + b)[..|a + b| - 1] == a + b[..|b| - 1];
      AfterAllConcat(e, files, a, b[..|b| - 1]);
    }
  }

  /** The last write to a path decides what a read of it finds, in any run of reads,
      writes and disturbances: the written finding for its own key, and a key mismatch
      for every colliding key. */
  lemma LastWriteDecides(e: Setting, files: Files, before: seq<Event>, w: Request, finding: JsonValue, writtenAt: string, events: seq<Event>, r: Request)
    requires WriteOutcome(e, w, finding).Written? && Normalize(r).Some?
    requires CacheKey(e, Normalize(r).value) == WriteOutcome(e, w, finding).cacheKey
    requires forall i :: 0 <= i < |events| ==> !Touches(e, events[i], WriteOutcome(e, w, finding).cacheKey)
    ensures var result := Lookup(e, AfterAll(e, files, before + [Writing(w, finding, writtenAt)] + events), r);
            (result == if Normalize(r) == Normalize(w) then Hit(CacheKey(e, Normalize(r).value), finding) else Miss(KeyMismatch))
  {
    hide WriteOutcome, CacheKey, Lookup, After, Touches;
    var path := WriteOutcome(e, w, finding).cacheKey;
    var start, write := AfterAll(e, files, before), Writing(w, finding, writtenAt);
    var written := After(e, start, write);
    AfterAllConcat(e, files, before + [write], events);
    assert (before + [write])[..|before|] == before;
    hide AfterAll;
    UntouchedFile(e, written, events, path);
    SameFileSameAnswer(e, AfterAll(e, written, events), written, r);
    WrittenFileAnswersItsKey(e, start, w, finding, writtenAt, r);
  }

  lemma WriteIsRead(e: Setting, files: Files, w: Request, finding: JsonValue, writtenAt: string)
    ensures WriteOutcome(e, w, finding).Written? ==>
              Lookup(e, After(e, files, Writing(w, finding, writtenAt)), w) == Hit(WriteOutcome(e, w, finding).cacheKey, finding)
  {
    hide Lookup, After, FindingMatches, ByteValid, CacheKey;
    if WriteOutcome(e, w, finding).Written? {
      WrittenFileAnswersItsKey(e, files, w, finding, writtenAt, w);
    }
  }

  lemma WriteLeavesOthers(e: Setting, files: Files, w: Request, finding: JsonValue, writtenAt: string)
    ensures forall q: Request :: Normalize(q).Some? && !(WriteOutcome(e, w, finding) == Written(CacheKey(e, Normalize(q).value))) ==>
              Lookup(e, After(e, files, Writing(w, finding, writtenAt)), q) == Lookup(e, files, q)
  {
    hide Lookup, After, WriteOutcome, CacheKey;
    forall q: Request | Normalize(q).Some? && !(WriteOutcome(e, w, finding) == Written(CacheKey(e, Normalize(q).value)))
      ensures Lookup(e, After(e, files, Writing(w, finding, writtenAt)), q) == Lookup(e, files, q)
    {
      UntouchedByOne(e, files, Writing(w, finding, writtenAt), CacheKey(e, Normalize(q).value));
      SameFileSameAnswer(e, After(e, files, Writing(w, finding, writtenAt)), files, q);
    }
  }

  /** The cache directory, with the effects of the two operations. */
  class Cache {
    const setting: Setting
    var files: Files

    constructor (setting: Setting)
      ensures this.setting == setting && files == map[]
    {
      this.setting := setting;
      files := map[];
    }

    /** A hit's finding carries the parts asked for, fits the cap and parses. */
    method Read(request: Request) returns (r: ReadResult)
      ensures r == Lookup(setting, files, request)
      ensures r.Hit? ==> PartsIn(r.finding) == Normalize(request) && ByteValid(r.finding) && setting.schema(r.finding)
      ensures Normalize(request).None? <==> r == Miss(MissingKeyDimension)
      ensures r == Miss(NotFound) ==> Normalize(request).Some? && CacheKey(setting, Normalize(request).value) !in files
    {
      if Lookup(setting, files, request).Hit? {
        HitsMatch(setting, files, request);
      }
      hide PartsIn, CacheKey, SidecarMatches, ByteValid, Canonical;
      var parts := Normalize(request);
      if parts.None? {
        return Miss(MissingKeyDimension);
      }
      var path := CacheKey(setting, parts.value);
      if path !in files {
        return Miss(NotFound);
      }
      if files[path].Malformed? {
        return Miss(MalformedJson);
      }
      var sidecar := files[path].value;
      if !SidecarMatches(sidecar, parts.value, path) {
        return Miss(KeyMismatch);
      }
      var finding := FindingOf(sidecar);
      if !ByteValid(finding) {
        return Miss(ByteInvalid);
      }
      if !setting.schema(finding) {
        return Miss(SchemaInvalid);
      }
      return Hit(path, finding);
    }

    /** What is written is what the next read of the key returns; a refused write changes
        nothing, and no write changes the answer for a key with another path. */
    method Write(request: Request, finding: JsonValue, writtenAt: string) returns (r: WriteResult)
      modifies this
      ensures r == WriteOutcome(setting, request, finding)
      ensures files == After(setting, old(files), Writing(request, finding, writtenAt))
      ensures r.Written? ==> Lookup(setting, files, request) == Hit(r.cacheKey, finding)
      ensures r.Refused? ==> files == old(files)
      ensures forall q: Request :: Normalize(q).Some? && !(r == Written(CacheKey(setting, Normalize(q).value))) ==>
                Lookup(setting, files, q) == Lookup(setting, old(files), q)
    {
      WriteIsRead(setting, files, request, finding, writtenAt);
      WriteLeavesOthers(setting, files, request, finding, writtenAt);
      hide FindingMatches, ByteValid, Canonical, SidecarJson;
      var parts := Normalize(request);
      if parts.None? {
        return Refused(MissingKeyDimension);
      }
      if !ByteValid(finding) {
        return Refused(ByteInvalid);
      }
      if !setting.schema(finding) {
        return Refused(SchemaInvalid);
      }
      if !FindingMatches(finding, parts.value) {
        return Refused(KeyMismatch);
      }
      var path := CacheKey(setting, parts.value);
      SidecarIsJson(parts.value, path, writtenAt, finding);
      files := files[path := Parsed(SidecarJson(parts.value, path, writtenAt, finding))];
      return Written(path);
    }
  }
}
