/** Request bodies as the global validation pipe sees them, and the individual
    property rules the DTOs are built from (backend/src/main.ts sets up a pipe with
    whitelist and forbidNonWhitelisted, so an undeclared property is an error).
    JSON numbers are finite reals; NaN and the infinities cannot occur in a parsed
    JSON body. */
module Validators {
  import opened Common

  datatype Json =
    | JNull
    | JBool(b: bool)
    | JNumber(n: real)
    | JString(s: string)
    | JArray(items: seq<Json>)
    | JObject(fields: map<string, Json>)

  /** A declared property that is absent or null: the optional decorator skips
      every other rule for it. */
  predicate Absent(fields: map<string, Json>, key: string) {
    key !in fields || fields[key].JNull?
  }

  /** Whitelist with forbidNonWhitelisted: every property of the body is declared. */
  predicate OnlyDeclared(fields: map<string, Json>, declared: set<string>) {
    fields.Keys <= declared
  }

  predicate IsStringProp(fields: map<string, Json>, key: string) {
    key in fields && fields[key].JString?
  }

  /** A number property with inclusive bounds (the min and max rules both demand
      a number and compare inclusively). */
  predicate NumberInRange(fields: map<string, Json>, key: string, lo: real, hi: real) {
    key in fields && fields[key].JNumber? && lo <= fields[key].n <= hi
  }

  predicate NumberAtLeast(fields: map<string, Json>, key: string, lo: real) {
    key in fields && fields[key].JNumber? && lo <= fields[key].n
  }

  predicate StringIn(fields: map<string, Json>, key: string, values: set<string>) {
    key in fields && fields[key].JString? && fields[key].s in values
  }

  predicate OptionalString(fields: map<string, Json>, key: string) {
    Absent(fields, key) || fields[key].JString?
  }

  // ---------------------------------------------------------------------------
  // String shapes

  predicate HexRun(s: string, from: int, len: int)
    requires 0 <= from && 0 <= len && from + len <= |s|
  {
    forall i :: from <= i < from + len ==> IsHexDigit(s[i])
  }

  /** The textual UUID form of RFC 4122: 8-4-4-4-12 hexadecimal digits separated by
      hyphens, either letter case, with no version or variant restriction. */
  predicate IsUuid(s: string) {
    && |s| == 36
    && s[8] == '-' && s[13] == '-' && s[18] == '-' && s[23] == '-'
    && HexRun(s, 0, 8) && HexRun(s, 9, 4) && HexRun(s, 14, 4)
    && HexRun(s, 19, 4) && HexRun(s, 24, 12)
  }

  /** The shape check `^[A-Z]{3}$` together with the length rule (3, 3). */
  predicate IsCurrencyCode(s: string) {
    |s| == 3 && forall i :: 0 <= i < 3 ==> IsUpperAscii(s[i])
  }

  predicate TwoDigitsIn(s: string, at: int, lo: int, hi: int)
    requires 0 <= at && at + 2 <= |s|
  {
    IsDigit(s[at]) && IsDigit(s[at + 1])
    && lo <= DigitValue(s[at]) * 10 + DigitValue(s[at + 1]) <= hi
  }

  /** `YYYY-MM-DD` with month 01..12 and day 01..31 (no per-month day check, as in
      the date-string rule). */
  predicate IsCalendarDate(s: string) {
    && |s| == 10
    && IsDigit(s[0]) && IsDigit(s[1]) && IsDigit(s[2]) && IsDigit(s[3])
    && s[4] == '-' && TwoDigitsIn(s, 5, 1, 12)
    && s[7] == '-' && TwoDigitsIn(s, 8, 1, 31)
  }

  /** Optional zone designator: empty, `Z`, `z`, `±HH`, `±HHMM` or `±HH:MM`. */
  predicate IsZone(z: string) {
    || z == "" || z == "Z" || z == "z"
    || (&& (|z| == 3 || |z| == 5 || |z| == 6)
        && (z[0] == '+' || z[0] == '-')
        && TwoDigitsIn(z, 1, 0, 23)
        && (|z| == 3
            || (|z| == 5 && TwoDigitsIn(z, 3, 0, 59))
            || (|z| == 6 && z[3] == ':' && TwoDigitsIn(z, 4, 0, 59))))
  }

  /** One or more digits of a fraction, then a zone. */
  predicate IsDigitsThenZone(s: string)
    decreases |s|
  {
    |s| >= 1 && IsDigit(s[0]) && (IsZone(s[1..]) || IsDigitsThenZone(s[1..]))
  }

  /** What may follow `HH:MM`: optional `:SS` with an optional `.fff` or `,fff`
      fraction, then the zone. */
  predicate IsSecondsThenZone(r: string) {
    || IsZone(r)
    || (&& |r| >= 3 && r[0] == ':' && TwoDigitsIn(r, 1, 0, 59)
        && (IsZone(r[3..])
            || (|r| >= 4 && (r[3] == '.' || r[3] == ',') && IsDigitsThenZone(r[4..]))))
  }

  /** The calendar date-time profile of ISO 8601 that the date-string rule
      accepts: a date, optionally followed by `T` (or a space), `HH:MM`, seconds,
      a fraction and a zone. */
  predicate IsIsoDateTime(s: string) {
    && |s| >= 10
    && IsCalendarDate(s[..10])
    && (|s| == 10
        || (&& |s| >= 16
            && (s[10] == 'T' || s[10] == ' ')
            && TwoDigitsIn(s, 11, 0, 23) && s[13] == ':' && TwoDigitsIn(s, 14, 0, 59)
            && IsSecondsThenZone(s[16..])))
  }

  lemma IsoExamples()
    ensures IsIsoDateTime("2025-12-04T10:00:00Z")
    ensures IsIsoDateTime("2025-12-04T10:00:00.000Z")
    ensures IsIsoDateTime("2025-12-04")
    ensures !IsIsoDateTime("2025-13-04")
    ensures !IsIsoDateTime("yesterday")
  {
    assert IsZone("Z");
    assert IsDigitsThenZone("0Z");
    assert IsDigitsThenZone("00Z");
    assert IsDigitsThenZone("000Z");
    assert IsSecondsThenZone(":00.000Z");
    assert IsSecondsThenZone(":00Z");
    assert "2025-12-04T10:00:00Z"[..10] == "2025-12-04";
    assert "2025-12-04T10:00:00Z"[16..] == ":00Z";
    assert "2025-12-04T10:00:00.000Z"[..10] == "2025-12-04";
    assert "2025-12-04T10:00:00.000Z"[16..] == ":00.000Z";
    assert ":00.000Z"[3..] == ".000Z";
    assert ":00.000Z"[4..] == "000Z";
    assert "2025-12-04"[..10] == "2025-12-04";
    assert "2025-13-04"[..10] == "2025-13-04";
  }
}
