/** Audit events, their hash pre-image, and why the pre-image is unambiguous. */
module AuditEvents {
  import opened Basics
  import opened Decimals
  import opened JsonText
  import opened CanonicalJson

  /** The `previous_event_hash` of the very first event: sixty-four zeros. */
  const GENESIS: string := Zeros(64)

  /** A UTC instant as Python stores it; `aware` is false for values read back without a zone. */
  datatype RawDateTime = DateTime(year: nat, month: nat, day: nat, hour: nat, minute: nat, second: nat, micro: nat,
                                  aware: bool)
  {
    predicate Valid() {
      && year < 10000 && month <= 12 && day <= 31 && hour < 24 && minute < 60 && second < 60 && micro < 1000000
    }

    /** Order-preserving code: positions in a calendar whose months all have 32 days. */
    function Code(): nat {
      (((((year * 13 + month) * 32 + day) * 24 + hour) * 60 + minute) * 60 + second) * 1000000 + micro
    }
  }

  type DateTime = t: RawDateTime | t.Valid() witness DateTime(1970, 1, 1, 0, 0, 0, 0, true)

  /** `value.astimezone(utc).isoformat(timespec="microseconds")` for a UTC or naive value. */
  function CanonicalTimestamp(t: DateTime): string {
    Padded(t.year, 4) + ("-" + (Padded(t.month, 2) + ("-" + (Padded(t.day, 2) + ("T" + ClockText(t))))))
  }

  function ClockText(t: DateTime): string {
    Padded(t.hour, 2) + (":" + (Padded(t.minute, 2) + (":" + (Padded(t.second, 2) + ("." + MicroText(t))))))
  }

  function MicroText(t: DateTime): string { Padded(t.micro, 6) + ("+00:00" + "") }

  /** Metadata is a Python dictionary, so no key occurs twice. */
  type Metadata = fs: seq<Field> | WellFormedFields(fs) witness []

  /** What one event says; identifiers are their canonical UUID text. */
  datatype Content = Content(
    actorId: Option<string>,
    courtGrantId: Option<string>,
    caseId: Option<string>,
    entityType: string,
    entityId: Option<string>,
    action: string,
    result: string,
    timestamp: DateTime,
    metadata: Metadata)

  /** One row of `audit_events`. */
  datatype Event = Event(id: string, content: Content, previousHash: string, hash: string)

  function OptionalText(t: Option<string>): Json {
    match t
    case None => Null
    case Some(s) => Str(s)
  }

  /** The dictionary that is hashed; the court grant appears only when there is one. */
  function Payload(c: Content, previousHash: string): seq<Field> {
    [ Field("actor_id", OptionalText(c.actorId)),
      Field("case_id", OptionalText(c.caseId)),
      Field("entity_type", Str(c.entityType)),
      Field("entity_id", OptionalText(c.entityId)),
      Field("action", Str(c.action)),
      Field("result", Str(c.result)),
      Field("timestamp", Str(CanonicalTimestamp(c.timestamp))),
      Field("metadata", Obj(c.metadata)),
      Field("previous_event_hash", Str(previousHash)) ]
    + if c.courtGrantId.Some? then [Field("court_grant_id", Str(c.courtGrantId.value))] else []
  }

  function PreImage(c: Content, previousHash: string): string {
    CanonicalText(Obj(Payload(c, previousHash)))
  }

  // ------------------------------------------------------------- timestamps

  lemma FixedWidth(n: nat, width: nat)
    requires width > 0 && n < Power10(width)
    ensures |Padded(n, width)| == width
  {
    DigitsFit(n, width);
  }

  /** A fixed-width number and a separator can be split off the front. */
  lemma PaddedHead(m: nat, n: nat, width: nat, separator: string, s: string, t: string)
    requires width > 0 && m < Power10(width) && n < Power10(width)
    requires Padded(m, width) + (separator + s) == Padded(n, width) + (separator + t)
    ensures m == n && s == t
  {
    FixedWidth(m, width);
    FixedWidth(n, width);
    var a, b := Padded(m, width) + (separator + s), Padded(n, width) + (separator + t);
    assert a[..width] == Padded(m, width) && b[..width] == Padded(n, width);
    assert a[width + |separator|..] == s && b[width + |separator|..] == t;
    PaddedInjective(m, n, width);
  }

  /** The text of an instant determines it, and ignores whether it was stored with a zone. */
  lemma TimestampText(t: DateTime, u: DateTime)
    ensures CanonicalTimestamp(t) == CanonicalTimestamp(u) <==> t.(aware := u.aware) == u
  {
    if CanonicalTimestamp(t) == CanonicalTimestamp(u) {
      TimestampTextInjective(t, u);
    }
  }

  lemma Powers()
    ensures Power10(2) == 100 && Power10(4) == 10000 && Power10(6) == 1000000
  {
  }

  lemma TimestampTextInjective(t: DateTime, u: DateTime)
    requires CanonicalTimestamp(t) == CanonicalTimestamp(u)
    ensures t.(aware := u.aware) == u
  {
    Powers();
    var dayT, dayU := Padded(t.day, 2) + ("T" + ClockText(t)), Padded(u.day, 2) + ("T" + ClockText(u));
    PaddedHead(t.year, u.year, 4, "-", Padded(t.month, 2) + ("-" + dayT), Padded(u.month, 2) + ("-" + dayU));
    PaddedHead(t.month, u.month, 2, "-", dayT, dayU);
    PaddedHead(t.day, u.day, 2, "T", ClockText(t), ClockText(u));
    ClockTextInjective(t, u);
  }

  lemma ClockTextInjective(t: DateTime, u: DateTime)
    requires ClockText(t) == ClockText(u)
    ensures t.hour == u.hour && t.minute == u.minute && t.second == u.second && t.micro == u.micro
  {
    Powers();
    var secondT, secondU := Padded(t.second, 2) + ("." + MicroText(t)), Padded(u.second, 2) + ("." + MicroText(u));
    PaddedHead(t.hour, u.hour, 2, ":", Padded(t.minute, 2) + (":" + secondT), Padded(u.minute, 2) + (":" + secondU));
    PaddedHead(t.minute, u.minute, 2, ":", secondT, secondU);
    PaddedHead(t.second, u.second, 2, ".", MicroText(t), MicroText(u));
    PaddedHead(t.micro, u.micro, 6, "+00:00", "", "");
  }

  /** The number in places `i` to `j` of the text. */
  ghost predicate ReadsAs(s: string, i: nat, j: nat, n: nat) {
    i <= j <= |s| && (forall c :: c in s[i..j] ==> IsDigit(c)) && Value(s[i..j]) == n
  }

  lemma Slices(front: string, body: string, separator: string, rest: string)
    ensures var s := front + (body + (separator + rest));
            && s == front + body + separator + rest
            && s[|front|..|front| + |body|] == body
            && s[|front| + |body|..|front| + |body| + |separator|] == separator
  {
  }

  /** A fixed-width number and its separator, read off after `front`. */
  lemma ReadComponent(s: string, front: string, n: nat, width: nat, separator: string, rest: string) returns (next: string)
    requires width > 0 && n < Power10(width)
    requires s == front + (Padded(n, width) + (separator + rest))
    ensures |next| == |front| + width + |separator| && s == next + rest
    ensures ReadsAs(s, |front|, |front| + width, n) && s[|front| + width..|next|] == separator
  {
    FixedWidth(n, width);
    ValueOfPadded(n, width);
    next := front + Padded(n, width) + separator;
    Slices(front, Padded(n, width), separator, rest);
  }

  /** `YYYY-MM-DDTHH:MM:SS.ffffff+00:00`: each component in its place, most significant first. */
  lemma TimestampReads(t: DateTime)
    ensures var s := CanonicalTimestamp(t);
            && |s| == 32
            && s[4..5] == s[7..8] == "-" && s[10..11] == "T" && s[13..14] == s[16..17] == ":" && s[19..20] == "."
            && s[26..32] == "+00:00"
            && ReadsAs(s, 0, 4, t.year) && ReadsAs(s, 5, 7, t.month) && ReadsAs(s, 8, 10, t.day)
            && ReadsAs(s, 11, 13, t.hour) && ReadsAs(s, 14, 16, t.minute) && ReadsAs(s, 17, 19, t.second)
            && ReadsAs(s, 20, 26, t.micro)
  {
    Powers();
    var s := CanonicalTimestamp(t);
    var fromDay := Padded(t.day, 2) + ("T" + ClockText(t));
    var fromSecond := Padded(t.second, 2) + ("." + MicroText(t));
    assert s == "" + s;
    var toMonth := ReadComponent(s, "", t.year, 4, "-", Padded(t.month, 2) + ("-" + fromDay));
    var toDay := ReadComponent(s, toMonth, t.month, 2, "-", fromDay);
    var toHour := ReadComponent(s, toDay, t.day, 2, "T", ClockText(t));
    var toMinute := ReadComponent(s, toHour, t.hour, 2, ":", Padded(t.minute, 2) + (":" + fromSecond));
    var toSecond := ReadComponent(s, toMinute, t.minute, 2, ":", fromSecond);
    var toMicro := ReadComponent(s, toSecond, t.second, 2, ".", MicroText(t));
    var whole := ReadComponent(s, toMicro, t.micro, 6, "+00:00", "");
  }

  // -------------------------------------------------------------- pre-images

  /** Field by field what the hash covers: metadata as a mapping, the timestamp as an instant. */
  ghost predicate SameContent(c: Content, d: Content) {
    && c.actorId == d.actorId && c.courtGrantId == d.courtGrantId && c.caseId == d.caseId
    && c.entityType == d.entityType && c.entityId == d.entityId
    && c.action == d.action && c.result == d.result
    && c.timestamp.(aware := d.timestamp.aware) == d.timestamp
    && DenoteFields(c.metadata) == DenoteFields(d.metadata)
  }

  ghost predicate DistinctKeys(fs: seq<Field>) {
    forall i, j :: 0 <= i < j < |fs| ==> fs[i].key != fs[j].key
  }

  lemma {:induction false} Lookup(fs: seq<Field>, i: nat)
    requires DistinctKeys(fs) && i < |fs|
    ensures fs[i].key in DenoteFields(fs) && DenoteFields(fs)[fs[i].key] == Denote(fs[i].value)
  {
    if i > 0 {
      Lookup(fs[1..], i - 1);
      assert fs[1..][i - 1] == fs[i];
    }
  }

  lemma {:induction false} DistinctWellFormed(fs: seq<Field>)
    requires DistinctKeys(fs) && forall i :: 0 <= i < |fs| ==> WellFormed(fs[i].value)
    ensures WellFormedFields(fs)
  {
    if fs != [] {
      DistinctWellFormed(fs[1..]);
      KeysDenoted(fs[1..], fs[0].key);
    }
  }

  lemma {:induction false} SameEntries(fs: seq<Field>, gs: seq<Field>)
    requires |fs| == |gs|
    requires forall i :: 0 <= i < |fs| ==> fs[i].key == gs[i].key && Denote(fs[i].value) == Denote(gs[i].value)
    ensures DenoteFields(fs) == DenoteFields(gs)
  {
    if fs != [] {
      SameEntries(fs[1..], gs[1..]);
    }
  }

  lemma PayloadKeys(c: Content, p: string)
    ensures DistinctKeys(Payload(c, p))
  {
    var keys := ["actor_id", "case_id", "entity_type", "entity_id", "action", "result", "timestamp", "metadata",
                 "previous_event_hash", "court_grant_id"];
    assert "actor_id"[0] == 'a' && "metadata"[0] == 'm';
    assert "entity_id"[0] == 'e' && "timestamp"[0] == 't';
    assert "action"[0] == 'a' && "result"[0] == 'r';
    assert forall i, j :: 0 <= i < j < |keys| ==> keys[i] != keys[j];
    forall i | 0 <= i < |Payload(c, p)| ensures Payload(c, p)[i].key == keys[i] {}
  }

  lemma PayloadWellFormed(c: Content, p: string)
    ensures WellFormed(Obj(Payload(c, p)))
  {
    PayloadKeys(c, p);
    DistinctWellFormed(Payload(c, p));
  }

  lemma GrantKey(c: Content, p: string)
    ensures "court_grant_id" in DenoteFields(Payload(c, p)) <==> c.courtGrantId.Some?
    ensures c.courtGrantId.Some? ==> DenoteFields(Payload(c, p))["court_grant_id"] == MStr(c.courtGrantId.value)
  {
    KeysDenoted(Payload(c, p), "court_grant_id");
    PayloadKeys(c, p);
    if c.courtGrantId.Some? {
      Lookup(Payload(c, p), 9);
    } else {
      PayloadKeys(c.(courtGrantId := Some("")), p);
      assert Payload(c.(courtGrantId := Some("")), p)[..9] == Payload(c, p);
    }
  }

  /** Two pre-images agree exactly when every hashed field agrees, the optional court grant included. */
  lemma PreImageUnambiguous(c: Content, p: string, d: Content, q: string)
    ensures PreImage(c, p) == PreImage(d, q) <==> SameContent(c, d) && p == q
  {
    var fs, gs := Payload(c, p), Payload(d, q);
    PayloadWellFormed(c, p);
    PayloadWellFormed(d, q);
    CanonicalTextIsMeaning(Obj(fs), Obj(gs));
    TimestampText(c.timestamp, d.timestamp);
    if PreImage(c, p) == PreImage(d, q) {
      SameIdentifiers(c, p, d, q);
      SameEntityAndLink(c, p, d, q);
      SameLabels(c, p, d, q);
      SameMomentAndMetadata(c, p, d, q);
      SameGrant(c, p, d, q);
    } else if SameContent(c, d) && p == q {
      SameEntries(fs, gs);
    }
  }

  /** The entry of this name holds this text. */
  ghost predicate Tells(entries: map<string, Meaning>, name: string, text: string) {
    name in entries && entries[name] == MStr(text)
  }

  /** The entry holds this text, or null where there is none. */
  ghost predicate TellsIfAny(entries: map<string, Meaning>, name: string, text: Option<string>) {
    name in entries && entries[name] == match text { case None => MNull case Some(s) => MStr(s) }
  }

  /** Who and what the event is about. */
  ghost predicate TellsSubject(entries: map<string, Meaning>, c: Content) {
    && TellsIfAny(entries, "actor_id", c.actorId) && TellsIfAny(entries, "case_id", c.caseId)
    && Tells(entries, "entity_type", c.entityType) && TellsIfAny(entries, "entity_id", c.entityId)
    && (c.courtGrantId.Some? ==> Tells(entries, "court_grant_id", c.courtGrantId.value))
  }

  /** What happened, when, and after which event. */
  ghost predicate TellsEvent(entries: map<string, Meaning>, c: Content, previousHash: string) {
    && Tells(entries, "action", c.action) && Tells(entries, "result", c.result)
    && Tells(entries, "timestamp", CanonicalTimestamp(c.timestamp))
    && "metadata" in entries && entries["metadata"] == MObj(DenoteFields(c.metadata))
    && Tells(entries, "previous_event_hash", previousHash)
  }

  /** The documented entries under their documented names, and nothing else. */
  ghost predicate Documents(entries: map<string, Meaning>, c: Content, previousHash: string) {
    TellsSubject(entries, c) && TellsEvent(entries, c, previousHash)
    && (forall name :: name in entries ==> Documented(name, c.courtGrantId.Some?))
  }

  ghost predicate Documented(name: string, granted: bool) {
    name in {"actor_id", "case_id", "entity_type", "entity_id", "action", "result", "timestamp", "metadata",
             "previous_event_hash"} || (granted && name == "court_grant_id")
  }

  /** What anyone reads who parses the pre-image: the documented entries, sorted by name. */
  ghost predicate ReadsBack(text: string, c: Content, previousHash: string, fields: seq<Field>) {
    && ParseValue(text) == Some((Obj(fields), ""))
    && Ordered(fields) && SortedFields(fields)
    && Documents(DenoteFields(fields), c, previousHash)
  }

  lemma PreImageReads(c: Content, p: string)
    ensures exists fields :: ReadsBack(PreImage(c, p), c, p, fields)
  {
    var payload := Payload(c, p);
    var fields := SortFields(payload);
    PayloadWellFormed(c, p);
    SortKeepsMeaning(Obj(payload));
    SortSorts(Obj(payload));
    ValueRoundTrip(Obj(fields), "");
    assert Print(Obj(fields)) + "" == PreImage(c, p);
    PayloadDocuments(c, p);
    assert ReadsBack(PreImage(c, p), c, p, fields);
  }

  lemma PayloadEntry(c: Content, p: string, i: nat, name: string, value: Json)
    requires i < |Payload(c, p)| && Payload(c, p)[i] == Field(name, value)
    ensures name in DenoteFields(Payload(c, p)) && DenoteFields(Payload(c, p))[name] == Denote(value)
  {
    PayloadKeys(c, p);
    Lookup(Payload(c, p), i);
  }

  lemma PayloadTellsSubject(c: Content, p: string)
    ensures TellsSubject(DenoteFields(Payload(c, p)), c)
  {
    PayloadTellsIdentifiers(c, p);
    PayloadEntry(c, p, 2, "entity_type", Str(c.entityType));
    PayloadEntry(c, p, 3, "entity_id", OptionalText(c.entityId));
    GrantKey(c, p);
  }

  lemma PayloadTellsIdentifiers(c: Content, p: string)
    ensures TellsIfAny(DenoteFields(Payload(c, p)), "actor_id", c.actorId)
    ensures TellsIfAny(DenoteFields(Payload(c, p)), "case_id", c.caseId)
  {
    PayloadEntry(c, p, 0, "actor_id", OptionalText(c.actorId));
    PayloadEntry(c, p, 1, "case_id", OptionalText(c.caseId));
  }

  lemma PayloadTellsEvent(c: Content, p: string)
    ensures TellsEvent(DenoteFields(Payload(c, p)), c, p)
  {
    PayloadTellsLabels(c, p);
    PayloadEntry(c, p, 6, "timestamp", Str(CanonicalTimestamp(c.timestamp)));
    PayloadEntry(c, p, 7, "metadata", Obj(c.metadata));
    PayloadEntry(c, p, 8, "previous_event_hash", Str(p));
  }

  lemma PayloadTellsLabels(c: Content, p: string)
    ensures Tells(DenoteFields(Payload(c, p)), "action", c.action)
    ensures Tells(DenoteFields(Payload(c, p)), "result", c.result)
  {
    PayloadEntry(c, p, 4, "action", Str(c.action));
    PayloadEntry(c, p, 5, "result", Str(c.result));
  }

  lemma PayloadDocuments(c: Content, p: string)
    ensures Documents(DenoteFields(Payload(c, p)), c, p)
  {
    PayloadTellsSubject(c, p);
    PayloadTellsEvent(c, p);
    forall name | name in DenoteFields(Payload(c, p)) ensures Documented(name, c.courtGrantId.Some?) {
      KeysDenoted(Payload(c, p), name);
      PayloadNames(c, p);
    }
  }

  lemma PayloadNames(c: Content, p: string)
    ensures forall i :: 0 <= i < |Payload(c, p)| ==> Documented(Payload(c, p)[i].key, c.courtGrantId.Some?)
  {
  }

  ghost predicate SamePayload(c: Content, p: string, d: Content, q: string) {
    DenoteFields(Payload(c, p)) == DenoteFields(Payload(d, q))
  }

  lemma SameEntry(c: Content, p: string, d: Content, q: string, i: nat)
    requires SamePayload(c, p, d, q) && i < 9
    ensures Denote(Payload(c, p)[i].value) == Denote(Payload(d, q)[i].value)
  {
    PayloadKeys(c, p);
    PayloadKeys(d, q);
    Lookup(Payload(c, p), i);
    Lookup(Payload(d, q), i);
  }

  lemma SameIdentifiers(c: Content, p: string, d: Content, q: string)
    requires SamePayload(c, p, d, q)
    ensures c.actorId == d.actorId && c.caseId == d.caseId
  {
    SameEntry(c, p, d, q, 0);
    assert Payload(c, p)[0].value == OptionalText(c.actorId) && Payload(d, q)[0].value == OptionalText(d.actorId);
    SameEntry(c, p, d, q, 1);
    assert Payload(c, p)[1].value == OptionalText(c.caseId) && Payload(d, q)[1].value == OptionalText(d.caseId);
  }

  lemma SameEntityAndLink(c: Content, p: string, d: Content, q: string)
    requires SamePayload(c, p, d, q)
    ensures c.entityId == d.entityId && p == q
  {
    SameEntry(c, p, d, q, 3);
    assert Payload(c, p)[3].value == OptionalText(c.entityId) && Payload(d, q)[3].value == OptionalText(d.entityId);
    SameEntry(c, p, d, q, 8);
    assert Payload(c, p)[8].value == Str(p) && Payload(d, q)[8].value == Str(q);
  }

  lemma SameLabels(c: Content, p: string, d: Content, q: string)
    requires SamePayload(c, p, d, q)
    ensures c.entityType == d.entityType && c.action == d.action && c.result == d.result
  {
    SameEntry(c, p, d, q, 2);
    assert Payload(c, p)[2].value == Str(c.entityType) && Payload(d, q)[2].value == Str(d.entityType);
    SameEntry(c, p, d, q, 4);
    assert Payload(c, p)[4].value == Str(c.action) && Payload(d, q)[4].value == Str(d.action);
    SameEntry(c, p, d, q, 5);
    assert Payload(c, p)[5].value == Str(c.result) && Payload(d, q)[5].value == Str(d.result);
  }

  lemma SameMomentAndMetadata(c: Content, p: string, d: Content, q: string)
    requires SamePayload(c, p, d, q)
    ensures CanonicalTimestamp(c.timestamp) == CanonicalTimestamp(d.timestamp)
    ensures DenoteFields(c.metadata) == DenoteFields(d.metadata)
  {
    SameEntry(c, p, d, q, 6);
    assert Payload(c, p)[6].value == Str(CanonicalTimestamp(c.timestamp));
    assert Payload(d, q)[6].value == Str(CanonicalTimestamp(d.timestamp));
    SameEntry(c, p, d, q, 7);
    assert Payload(c, p)[7].value == Obj(c.metadata) && Payload(d, q)[7].value == Obj(d.metadata);
  }

  lemma SameGrant(c: Content, p: string, d: Content, q: string)
    requires SamePayload(c, p, d, q)
    ensures c.courtGrantId == d.courtGrantId
  {
    GrantKey(c, p);
    GrantKey(d, q);
  }
}
