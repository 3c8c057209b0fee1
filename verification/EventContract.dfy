/** Validation of a decoded inventory payload, and the payload the producer writes. */
module EventContract {
  import opened Basics
  import opened CanonicalEvents
  import opened InventoryHourly
  import IdentityRules

  /** A decoded JSON value. `Time` is a string that `fromisoformat` accepts, kept decoded: local
      microseconds and, unless it is naive, the offset from UTC in microseconds. */
  datatype Json =
    | JNull
    | JBool(b: bool)
    | JInt(n: int)
    | JFloat(x: real)
    | JString(s: string)
    | JTime(text: string, localMicros: int, offset: Option<int>)
    | JArray
    | JObject(members: map<string, Json>)

  /** What decoding the bytes gives. */
  datatype Decoded = Tombstone | BadUtf8 | BadJson | Document(value: Json)

  const REQUIRED: seq<string> := ["event_id", "event_type", "schema_version", "store_id", "product_id", "scanner_id"]
  const INVENTORY_TYPES: set<string> := {"sale_deduction", "receipt", "adjustment", "transfer"}
  const MIN_MICROS: int := -62_135_596_800_000_000
  const MAX_MICROS: int := 253_402_300_799_999_999
  const INT32: int := 0x8000_0000

  predicate IsText(j: Json) {
    j.JString? || j.JTime?
  }

  function TextOf(j: Json): string
    requires IsText(j)
  {
    if j.JString? then j.s else j.text
  }

  /** `isinstance(value, str) and value.strip()`. */
  predicate Present(obj: map<string, Json>, field: string) {
    field in obj && IsText(obj[field]) && !AllSpace(TextOf(obj[field]))
  }

  predicate AllSpace(s: string) {
    forall i :: 0 <= i < |s| ==> IdentityRules.IsSpace(s[i])
  }

  /** Field `i` is `name`, missing or blank, and all before it are present. */
  predicate FirstMissingAt(obj: map<string, Json>, fields: seq<string>, name: string, i: int) {
    && 0 <= i < |fields| && fields[i] == name && !Present(obj, name)
    && forall k :: 0 <= k < i ==> Present(obj, fields[k])
  }

  lemma MissingOneLater(obj: map<string, Json>, fields: seq<string>, name: string, i: int)
    requires fields != [] && Present(obj, fields[0]) && FirstMissingAt(obj, fields[1..], name, i)
    ensures FirstMissingAt(obj, fields, name, i + 1)
  {
    hide Present;
    forall k | 0 <= k < i + 1 ensures Present(obj, fields[k]) {
      if k > 0 { assert fields[k] == fields[1..][k - 1]; }
    }
  }

  /** The first required field that is missing or blank. */
  function FirstMissing(obj: map<string, Json>, fields: seq<string>): (r: Option<string>)
    ensures r.None? <==> forall f :: f in fields ==> Present(obj, f)
    ensures r.Some? ==> exists i :: FirstMissingAt(obj, fields, r.value, i)
  {
    if fields == [] then None
    else if !Present(obj, fields[0]) then
      assert FirstMissingAt(obj, fields, fields[0], 0);
      Some(fields[0])
    else
      var rest := FirstMissing(obj, fields[1..]);
      assert fields == [fields[0]] + fields[1..];
      assert rest.Some? ==> exists i :: FirstMissingAt(obj, fields, rest.value, i) by {
        if rest.Some? {
          var i :| FirstMissingAt(obj, fields[1..], rest.value, i);
          MissingOneLater(obj, fields, rest.value, i);
        }
      }
      rest
  }

  predicate AllDigits(s: string) {
    s != [] && forall i :: 0 <= i < |s| ==> '0' <= s[i] <= '9'
  }

  /** Full match of digits, dot, digits, dot, digits. */
  predicate IsVersion(s: string) {
    exists i, j :: 0 <= i < j < |s| && s[i] == '.' && s[j] == '.'
                   && AllDigits(s[..i]) && AllDigits(s[i + 1..j]) && AllDigits(s[j + 1..])
  }

  /** The normalised time, or nothing for every failure of parsing, of a naive time, or of the year range. */
  function UtcMicros(obj: map<string, Json>): Option<int> {
    if "event_time" !in obj || !obj["event_time"].JTime? || obj["event_time"].offset.None? then None else
      var utc := obj["event_time"].localMicros - obj["event_time"].offset.value;
      if MIN_MICROS <= utc <= MAX_MICROS then Some(utc) else None
  }

  function ParseInventory(d: Decoded): Parsed<Movement> {
    match d
    case Tombstone => Invalid("tombstone")
    case BadUtf8 => Invalid("invalid_utf8")
    case BadJson => Invalid("invalid_json")
    case Document(value) =>
      if !value.JObject? then Invalid("invalid_envelope") else ParseObject(value.members)
  }

  function ParseObject(obj: map<string, Json>): Parsed<Movement> {
    var missing := FirstMissing(obj, REQUIRED);
    if missing.Some? then Invalid("missing_" + missing.value) else
      assert forall f :: f in REQUIRED ==> Present(obj, f);
      RequiredPresent(obj);
      var late := if "is_late" in obj then obj["is_late"] else JBool(false);
      if TextOf(obj["event_type"]) !in INVENTORY_TYPES then Invalid("invalid_event_type")
      else if !IsVersion(TextOf(obj["schema_version"])) then Invalid("invalid_schema_version")
      else if UtcMicros(obj).None? then Invalid("invalid_event_time")
      else if "qty_delta" !in obj || !obj["qty_delta"].JInt? || !(-INT32 <= obj["qty_delta"].n < INT32) then
        Invalid("invalid_qty_delta")
      else if !late.JBool? then Invalid("invalid_is_late")
      else Valid(Fields(TextOf(obj["event_id"]), UtcMicros(obj).value,
                        Movement(TextOf(obj["store_id"]), TextOf(obj["product_id"]), obj["qty_delta"].n,
                                 TextOf(obj["event_type"]), TextOf(obj["scanner_id"]), late.b, TextOf(obj["schema_version"]))))
  }

  lemma RequiredPresent(obj: map<string, Json>)
    requires forall f :: f in REQUIRED ==> Present(obj, f)
    ensures Present(obj, "event_id") && Present(obj, "event_type") && Present(obj, "schema_version")
    ensures Present(obj, "store_id") && Present(obj, "product_id") && Present(obj, "scanner_id")
  {
    assert REQUIRED[0] == "event_id" && REQUIRED[1] == "event_type" && REQUIRED[2] == "schema_version";
    assert REQUIRED[3] == "store_id" && REQUIRED[4] == "product_id" && REQUIRED[5] == "scanner_id";
  }

  // ---------------------------------------------------------------- the checks in order

  /** The text under a field, or nothing but a blank. */
  function Text(obj: map<string, Json>, field: string): string {
    if field in obj && IsText(obj[field]) then TextOf(obj[field]) else ""
  }

  predicate Filled(obj: map<string, Json>, field: string) {
    IdentityRules.NormalizeIdentifier(Some(Text(obj, field))).Some?
  }

  /** Three runs of digits joined by dots. */
  ghost predicate ThreeNumbers(s: string) {
    exists a, b, c :: Digits(a) && Digits(b) && Digits(c) && s == a + "." + b + "." + c
  }

  predicate Digits(s: string) {
    s != "" && forall i :: 0 <= i < |s| ==> s[i] in "0123456789"
  }

  /** A time with an offset, from the first moment of year 1 to the last of year 9999 in UTC; day 0 is 1 January 1970. */
  predicate TimeInRange(obj: map<string, Json>) {
    && "event_time" in obj && obj["event_time"].JTime? && obj["event_time"].offset.Some?
    && -719_162 * 86_400_000_000 <= obj["event_time"].localMicros - obj["event_time"].offset.value < 2_932_897 * 86_400_000_000
  }

  /** The checks in the order they are made. */
  ghost predicate Passes(obj: map<string, Json>, k: int) {
    match k
    case 0 => Filled(obj, "event_id")
    case 1 => Filled(obj, "event_type")
    case 2 => Filled(obj, "schema_version")
    case 3 => Filled(obj, "store_id")
    case 4 => Filled(obj, "product_id")
    case 5 => Filled(obj, "scanner_id")
    case 6 => Text(obj, "event_type") in ["sale_deduction", "receipt", "adjustment", "transfer"]
    case 7 => ThreeNumbers(Text(obj, "schema_version"))
    case 8 => TimeInRange(obj)
    case 9 => "qty_delta" in obj && obj["qty_delta"].JInt? && -2_147_483_648 <= obj["qty_delta"].n <= 2_147_483_647
    case 10 => "is_late" in obj ==> obj["is_late"].JBool?
    case _ => true
  }

  /** The reasons they reject with. */
  function Reason(k: int): string {
    match k
    case 0 => "missing_" + "event_id"
    case 1 => "missing_" + "event_type"
    case 2 => "missing_" + "schema_version"
    case 3 => "missing_" + "store_id"
    case 4 => "missing_" + "product_id"
    case 5 => "missing_" + "scanner_id"
    case 6 => "invalid_event_type"
    case 7 => "invalid_schema_version"
    case 8 => "invalid_event_time"
    case 9 => "invalid_qty_delta"
    case _ => "invalid_is_late"
  }

  /** Check `k` is the first that fails. */
  ghost predicate FirstFailure(obj: map<string, Json>, k: int) {
    0 <= k <= 10 && !Passes(obj, k) && forall i :: 0 <= i < k ==> Passes(obj, i)
  }

  lemma DigitsAre(s: string)
    ensures Digits(s) <==> AllDigits(s)
  {
    forall c: char ensures c in "0123456789" <==> '0' <= c <= '9' {
      assert "0123456789" == ['0', '1', '2', '3', '4', '5', '6', '7', '8', '9'];
    }
  }

  lemma VersionIff(s: string)
    ensures IsVersion(s) <==> ThreeNumbers(s)
  {
    hide AllDigits, Digits, IsVersion;
    if IsVersion(s) { VersionHasParts(s); }
    if ThreeNumbers(s) {
      var a, b, c :| Digits(a) && Digits(b) && Digits(c) && s == a + "." + b + "." + c;
      DigitsAre(a);
      DigitsAre(b);
      DigitsAre(c);
      ThreeParts(a, b, c);
    }
  }

  lemma VersionHasParts(s: string)
    requires IsVersion(s)
    ensures ThreeNumbers(s)
  {
    hide AllDigits, Digits, ThreeNumbers;
    var i, j :| 0 <= i < j < |s| && s[i] == '.' && s[j] == '.'
                && AllDigits(s[..i]) && AllDigits(s[i + 1..j]) && AllDigits(s[j + 1..]);
    DigitsAre(s[..i]);
    DigitsAre(s[i + 1..j]);
    DigitsAre(s[j + 1..]);
    Joined(s, i, j);
    PartsJoined(s, s[..i], s[i + 1..j], s[j + 1..]);
  }

  lemma Joined(s: string, i: nat, j: nat)
    requires i < j < |s| && s[i] == '.' && s[j] == '.'
    ensures s == s[..i] + "." + s[i + 1..j] + "." + s[j + 1..]
  {
  }

  lemma PartsJoined(s: string, a: string, b: string, c: string)
    requires Digits(a) && Digits(b) && Digits(c) && s == a + "." + b + "." + c
    ensures ThreeNumbers(s)
  {
    hide Digits;
  }

  lemma ThreeParts(a: string, b: string, c: string)
    requires AllDigits(a) && AllDigits(b) && AllDigits(c)
    ensures IsVersion(a + "." + b + "." + c)
  {
    hide AllDigits;
    var s, i, j := a + "." + b + "." + c, |a|, |a| + 1 + |b|;
    assert s[..i] == a && s[i + 1..j] == b && s[j + 1..] == c;
    assert s[i] == '.' && s[j] == '.';
  }

  lemma FilledIff(obj: map<string, Json>, field: string)
    ensures Filled(obj, field) <==> Present(obj, field)
  {
    hide IdentityRules.IsSpace;
  }

  /** Where the first blank field stands. */
  lemma MissingIs(obj: map<string, Json>, k: nat)
    requires k < 6 && !Present(obj, REQUIRED[k]) && forall i :: 0 <= i < k ==> Present(obj, REQUIRED[i])
    ensures FirstMissing(obj, REQUIRED) == Some(REQUIRED[k])
  {
    hide Present;
    assert REQUIRED[k] in REQUIRED;
    var f := FirstMissing(obj, REQUIRED).value;
    var i :| FirstMissingAt(obj, REQUIRED, f, i);
  }

  lemma PassesRequired(obj: map<string, Json>, k: int)
    requires 0 <= k < 6
    ensures Passes(obj, k) <==> Present(obj, REQUIRED[k])
  {
    hide Present, Filled, ThreeNumbers, TimeInRange;
    FilledIff(obj, REQUIRED[k]);
  }

  lemma ReasonNamesField(k: int)
    requires 0 <= k < 6
    ensures Reason(k) == "missing_" + REQUIRED[k]
  {
  }

  lemma AllRequired(obj: map<string, Json>)
    requires forall k :: 0 <= k < 6 ==> Passes(obj, k)
    ensures FirstMissing(obj, REQUIRED).None? && forall f :: f in REQUIRED ==> Present(obj, f)
  {
    hide Present, Filled, Passes;
    forall f | f in REQUIRED ensures Present(obj, f) {
      var k :| 0 <= k < 6 && REQUIRED[k] == f;
      PassesRequired(obj, k);
    }
  }

  /** The check of the event type, once the required fields are there. */
  lemma TypeIff(obj: map<string, Json>)
    requires Present(obj, "event_type")
    ensures Passes(obj, 6) <==> TextOf(obj["event_type"]) in INVENTORY_TYPES
  {
  }

  lemma VersionCheckIff(obj: map<string, Json>)
    requires Present(obj, "schema_version")
    ensures Passes(obj, 7) <==> IsVersion(TextOf(obj["schema_version"]))
  {
    hide IsVersion, ThreeNumbers;
    VersionIff(TextOf(obj["schema_version"]));
  }

  lemma TimeIff(obj: map<string, Json>)
    ensures Passes(obj, 8) <==> UtcMicros(obj).Some?
    ensures Passes(obj, 8) ==> UtcMicros(obj).value == obj["event_time"].localMicros - obj["event_time"].offset.value
  {
  }

  /** What is no JSON object at all is rejected before any check. */
  lemma RejectedUndecoded(d: Decoded)
    requires !(d.Document? && d.value.JObject?)
    ensures ParseInventory(d) == Invalid(if d == Tombstone then "tombstone" else if d == BadUtf8 then "invalid_utf8"
                                         else if d == BadJson then "invalid_json" else "invalid_envelope")
  {
  }

  /** A payload is rejected with the reason of the first check that fails. */
  lemma RejectedByFirstFailure(obj: map<string, Json>, k: int)
    requires FirstFailure(obj, k)
    ensures ParseInventory(Document(JObject(obj))) == Invalid(Reason(k))
  {
    hide Filled, Present, IsVersion, ThreeNumbers, FirstMissing, UtcMicros, INVENTORY_TYPES;
    if k < 6 {
      forall i | 0 <= i <= k ensures Passes(obj, i) <==> Present(obj, REQUIRED[i]) { PassesRequired(obj, i); }
      ReasonNamesField(k);
      MissingIs(obj, k);
    } else {
      AllRequired(obj);
      RequiredPresent(obj);
      TypeIff(obj);
      VersionCheckIff(obj);
      TimeIff(obj);
      assert forall i :: 6 <= i < k ==> Passes(obj, i);
      assert k > 6 ==> Passes(obj, 6);
      assert k > 7 ==> Passes(obj, 7);
      assert k > 8 ==> Passes(obj, 8);
      assert k > 9 ==> Passes(obj, 9);
    }
  }

  function Instant(obj: map<string, Json>): int {
    if TimeInRange(obj) then obj["event_time"].localMicros - obj["event_time"].offset.value else 0
  }

  function Quantity(obj: map<string, Json>): int {
    if "qty_delta" in obj && obj["qty_delta"].JInt? then obj["qty_delta"].n else 0
  }

  function Late(obj: map<string, Json>): bool {
    "is_late" in obj && obj["is_late"] == JBool(true)
  }

  /** One that passes them all is valid, each field read from the member of its name; without `is_late` it is on time. */
  lemma AcceptedAsRead(obj: map<string, Json>)
    requires forall k :: 0 <= k <= 10 ==> Passes(obj, k)
    ensures ParseInventory(Document(JObject(obj)))
            == Valid(Fields(Text(obj, "event_id"), Instant(obj),
                            Movement(Text(obj, "store_id"), Text(obj, "product_id"), Quantity(obj), Text(obj, "event_type"),
                                     Text(obj, "scanner_id"), Late(obj), Text(obj, "schema_version"))))
  {
    hide Filled, IsVersion, ThreeNumbers, FirstMissing, UtcMicros, AllSpace, INVENTORY_TYPES;
    AllRequired(obj);
    RequiredPresent(obj);
    TypeIff(obj);
    VersionCheckIff(obj);
    TimeIff(obj);
    assert Passes(obj, 6) && Passes(obj, 7) && Passes(obj, 8) && Passes(obj, 9) && Passes(obj, 10);
  }

  /** Nothing else is rejected. */
  lemma RejectedIff(obj: map<string, Json>)
    ensures ParseInventory(Document(JObject(obj))).Invalid? <==> exists k :: FirstFailure(obj, k)
  {
    hide Passes, ParseInventory;
    if k :| FirstFailure(obj, k) {
      RejectedByFirstFailure(obj, k);
    } else {
      var k := 0;
      while k <= 10
        invariant 0 <= k <= 11 && forall i :: 0 <= i < k ==> Passes(obj, i)
      {
        assert !FirstFailure(obj, k);
        k := k + 1;
      }
      AcceptedAsRead(obj);
    }
  }

  /** The events Silver may hold. */
  ghost predicate GoodEvent(e: Fields<Movement>) {
    && !AllSpace(e.eventId) && !AllSpace(e.detail.storeId) && !AllSpace(e.detail.productId) && !AllSpace(e.detail.scannerId)
    && e.detail.eventType in INVENTORY_TYPES && IsVersion(e.detail.schemaVersion)
    && MIN_MICROS <= e.eventTime <= MAX_MICROS && -INT32 <= e.detail.qtyDelta < INT32
  }

  lemma TypesAreNotBlank(t: string)
    requires t in INVENTORY_TYPES
    ensures !AllSpace(t)
  {
    assert t != [] && !IdentityRules.IsSpace(t[0]) by {
      assert "sale_deduction"[0] == 's' && "receipt"[0] == 'r' && "adjustment"[0] == 'a' && "transfer"[0] == 't';
    }
  }

  lemma VersionsAreNotBlank(s: string)
    requires IsVersion(s)
    ensures !AllSpace(s)
  {
    var i, j :| 0 <= i < j < |s| && s[i] == '.' && s[j] == '.'
                && AllDigits(s[..i]) && AllDigits(s[i + 1..j]) && AllDigits(s[j + 1..]);
    assert !IdentityRules.IsSpace(s[i]);
  }

  /** Only good events pass. */
  lemma OnlyGoodEventsPass(d: Decoded)
    requires ParseInventory(d).Valid?
    ensures GoodEvent(ParseInventory(d).fields)
  {
    RequiredPresent(d.value.members);
  }

  /** `asdict(event)` with its time in the zone it was generated in. */
  function AsDict(e: Fields<Movement>, text: string, offset: int): map<string, Json> {
    map["event_id" := JString(e.eventId), "event_time" := JTime(text, e.eventTime + offset, Some(offset)),
        "store_id" := JString(e.detail.storeId), "product_id" := JString(e.detail.productId),
        "qty_delta" := JInt(e.detail.qtyDelta), "event_type" := JString(e.detail.eventType),
        "scanner_id" := JString(e.detail.scannerId), "schema_version" := JString(e.detail.schemaVersion),
        "is_late" := JBool(e.detail.isLate)]
  }

  /** Parsing what the producer wrote gives back the event, and any good event can be written. */
  lemma ParseInvertsAsDict(e: Fields<Movement>, text: string, offset: int)
    ensures ParseInventory(Document(JObject(AsDict(e, text, offset)))) == Valid(e) <==> GoodEvent(e)
  {
    hide IsVersion, AllSpace, FirstMissingAt;
    var obj := AsDict(e, text, offset);
    if GoodEvent(e) {
      DictFields(e, text, offset);
      TypesAreNotBlank(e.detail.eventType);
      VersionsAreNotBlank(e.detail.schemaVersion);
      forall f | f in REQUIRED ensures Present(obj, f) {}
    } else if ParseInventory(Document(JObject(obj))).Valid? {
      OnlyGoodEventsPass(Document(JObject(obj)));
    }
  }

  lemma DictFields(e: Fields<Movement>, text: string, offset: int)
    ensures var obj := AsDict(e, text, offset);
            && obj["event_id"] == JString(e.eventId) && obj["store_id"] == JString(e.detail.storeId)
            && obj["product_id"] == JString(e.detail.productId) && obj["scanner_id"] == JString(e.detail.scannerId)
            && obj["event_type"] == JString(e.detail.eventType) && obj["schema_version"] == JString(e.detail.schemaVersion)
            && obj["event_time"] == JTime(text, e.eventTime + offset, Some(offset))
            && obj["qty_delta"] == JInt(e.detail.qtyDelta) && obj["is_late"] == JBool(e.detail.isLate)
  {
    assert |"event_id"| == 8 && |"event_time"| == 10 && |"store_id"| == 8 && |"product_id"| == 10 && |"qty_delta"| == 9;
    assert |"event_type"| == 10 && |"scanner_id"| == 10 && |"schema_version"| == 14 && |"is_late"| == 7;
    assert "event_id"[0] == 'e' && "store_id"[0] == 's';
    assert "event_time"[0] == 'e' && "event_type"[0] == 'e' && "product_id"[0] == 'p' && "scanner_id"[0] == 's';
    assert "event_time"[7] == 'i' && "event_type"[7] == 'y';
  }
}
