/** The request-body contracts of the backend: the sync entry, the admin decision,
    and the market and product creation bodies. Each DTO has a typed record, a
    domain predicate over that record, an encoding as a JSON body, and the
    predicate the validation pipe applies to a JSON body. The lemmas tie the two
    views together: a body decodes exactly when the pipe accepts it, and encoding
    then decoding a record returns it exactly when the record is valid. */
module Dtos {
  import opened Common
  import opened Validators

  // ---------------------------------------------------------------------------
  // Enumerations shared with the data model

  datatype Unit = Kg | Piece | Basket

  function UnitName(u: Unit): string {
    match u
    case Kg => "kg"
    case Piece => "piece"
    case Basket => "basket"
  }

  const UnitNames: set<string> := {"kg", "piece", "basket"}

  function ParseUnit(s: string): (r: Option<Unit>)
    ensures r.Some? <==> s in UnitNames
    ensures r.Some? ==> UnitName(r.value) == s
  {
    if s == "kg" then Some(Kg)
    else if s == "piece" then Some(Piece)
    else if s == "basket" then Some(Basket)
    else None
  }

  lemma ParseUnitName(u: Unit)
    ensures ParseUnit(UnitName(u)) == Some(u)
  {
  }

  datatype Decision = Validated | Rejected

  function DecisionName(d: Decision): string {
    match d
    case Validated => "validated"
    case Rejected => "rejected"
  }

  const DecisionNames: set<string> := {"validated", "rejected"}

  function ParseDecision(s: string): (r: Option<Decision>)
    ensures r.Some? <==> s in DecisionNames
    ensures r.Some? ==> DecisionName(r.value) == s
  {
    if s == "validated" then Some(Validated)
    else if s == "rejected" then Some(Rejected)
    else None
  }

  // ---------------------------------------------------------------------------
  // Small helpers over body fields

  predicate StringShaped(f: map<string, Json>, key: string, shape: string -> bool) {
    key in f && f[key].JString? && shape(f[key].s)
  }

  function OptString(v: Option<string>): Json {
    match v
    case None => JNull
    case Some(s) => JString(s)
  }

  /** Adds an optional property: an absent value is omitted from the body. */
  function WithOptional(f: map<string, Json>, key: string, v: Option<string>): map<string, Json> {
    if v.Some? then f[key := JString(v.value)] else f
  }

  function ReadOptional(f: map<string, Json>, key: string): Option<string>
    requires OptionalString(f, key)
  {
    if Absent(f, key) then None else Some(f[key].s)
  }

  // ---------------------------------------------------------------------------
  // SyncEntryDto (backend/src/entries/dto/sync-entry.dto.ts)

  datatype SyncEntryDto = SyncEntryDto(
    clientId: string,
    agentId: string,
    productId: string,
    marketId: string,
    unit: Unit,
    priceValue: real,
    currency: string,
    photoUrl: Option<string>,
    lat: real,
    lon: real,
    capturedAt: string)

  /** The domain constraints of a sync entry. The client id may be empty. */
  predicate SyncEntryValid(d: SyncEntryDto) {
    && IsUuid(d.agentId) && IsUuid(d.productId) && IsUuid(d.marketId)
    && d.priceValue >= 1.0
    && IsCurrencyCode(d.currency)
    && -90.0 <= d.lat <= 90.0
    && -180.0 <= d.lon <= 180.0
    && IsIsoDateTime(d.capturedAt)
  }

  const SyncEntryKeys: set<string> := {
    "clientId", "agentId", "productId", "marketId", "unit", "priceValue",
    "currency", "photoUrl", "lat", "lon", "capturedAt"}

  /** The rules the validation pipe applies to one element of a sync body. */
  predicate SyncEntryBody(body: Json) {
    && body.JObject?
    && var f := body.fields;
    && OnlyDeclared(f, SyncEntryKeys)
    && IsStringProp(f, "clientId")
    && StringShaped(f, "agentId", IsUuid)
    && StringShaped(f, "productId", IsUuid)
    && StringShaped(f, "marketId", IsUuid)
    && StringIn(f, "unit", UnitNames)
    && NumberAtLeast(f, "priceValue", 1.0)
    && StringShaped(f, "currency", IsCurrencyCode)
    && OptionalString(f, "photoUrl")
    && NumberInRange(f, "lat", -90.0, 90.0)
    && NumberInRange(f, "lon", -180.0, 180.0)
    && StringShaped(f, "capturedAt", IsIsoDateTime)
  }

  function EncodeSyncEntry(d: SyncEntryDto): Json {
    JObject(WithOptional(map[
      "clientId" := JString(d.clientId),
      "agentId" := JString(d.agentId),
      "productId" := JString(d.productId),
      "marketId" := JString(d.marketId),
      "unit" := JString(UnitName(d.unit)),
      "priceValue" := JNumber(d.priceValue),
      "currency" := JString(d.currency),
      "lat" := JNumber(d.lat),
      "lon" := JNumber(d.lon),
      "capturedAt" := JString(d.capturedAt)], "photoUrl", d.photoUrl))
  }

  function DecodeSyncEntry(body: Json): (r: Option<SyncEntryDto>)
    ensures r.Some? ==> SyncEntryValid(r.value)
  {
    if !SyncEntryBody(body) then None
    else
      var f := body.fields;
      Some(SyncEntryDto(
        f["clientId"].s, f["agentId"].s, f["productId"].s, f["marketId"].s,
        ParseUnit(f["unit"].s).value, f["priceValue"].n, f["currency"].s,
        ReadOptional(f, "photoUrl"), f["lat"].n, f["lon"].n, f["capturedAt"].s))
  }

  /** The pipe accepts a body exactly when it decodes. */
  lemma DecodeSyncEntryAccepts(body: Json)
    ensures DecodeSyncEntry(body).Some? <==> SyncEntryBody(body)
  {
  }

  /** What each property of an encoded sync entry holds. */
  lemma EncodedSyncEntryFields(d: SyncEntryDto)
    ensures var f := EncodeSyncEntry(d).fields;
      && f.Keys <= SyncEntryKeys
      && f["clientId"] == JString(d.clientId)
      && f["agentId"] == JString(d.agentId)
      && f["productId"] == JString(d.productId)
      && f["marketId"] == JString(d.marketId)
      && f["unit"] == JString(UnitName(d.unit))
      && f["priceValue"] == JNumber(d.priceValue)
      && f["currency"] == JString(d.currency)
      && f["lat"] == JNumber(d.lat)
      && f["lon"] == JNumber(d.lon)
      && f["capturedAt"] == JString(d.capturedAt)
      && OptionalString(f, "photoUrl")
      && ReadOptional(f, "photoUrl") == d.photoUrl
  {
  }

  lemma SyncEntryBodyOfEncoding(d: SyncEntryDto)
    ensures SyncEntryBody(EncodeSyncEntry(d)) <==> SyncEntryValid(d)
  {
    var f := EncodeSyncEntry(d).fields;
    assert StringIn(f, "unit", UnitNames) by { EncodedSyncEntryFields(d); ParseUnitName(d.unit); }
    assert StringShaped(f, "agentId", IsUuid) <==> IsUuid(d.agentId) by { EncodedSyncEntryFields(d); }
    assert StringShaped(f, "productId", IsUuid) <==> IsUuid(d.productId) by { EncodedSyncEntryFields(d); }
    assert StringShaped(f, "marketId", IsUuid) <==> IsUuid(d.marketId) by { EncodedSyncEntryFields(d); }
    assert StringShaped(f, "currency", IsCurrencyCode) <==> IsCurrencyCode(d.currency) by { EncodedSyncEntryFields(d); }
    assert StringShaped(f, "capturedAt", IsIsoDateTime) <==> IsIsoDateTime(d.capturedAt) by { EncodedSyncEntryFields(d); }
    assert IsStringProp(f, "clientId") by { EncodedSyncEntryFields(d); }
    assert OptionalString(f, "photoUrl") by { EncodedSyncEntryFields(d); }
    assert OnlyDeclared(f, SyncEntryKeys) by { EncodedSyncEntryFields(d); }
    assert NumberAtLeast(f, "priceValue", 1.0) <==> d.priceValue >= 1.0 by { EncodedSyncEntryFields(d); }
    assert NumberInRange(f, "lat", -90.0, 90.0) <==> -90.0 <= d.lat <= 90.0 by { EncodedSyncEntryFields(d); }
    assert NumberInRange(f, "lon", -180.0, 180.0) <==> -180.0 <= d.lon <= 180.0 by { EncodedSyncEntryFields(d); }
  }

  /** Encoding a record and decoding it returns the record exactly when the record
      satisfies the domain constraints; otherwise the pipe refuses it. */
  lemma SyncEntryRoundTrip(d: SyncEntryDto)
    ensures SyncEntryBody(EncodeSyncEntry(d)) <==> SyncEntryValid(d)
    ensures DecodeSyncEntry(EncodeSyncEntry(d)) == (if SyncEntryValid(d) then Some(d) else None)
  {
    SyncEntryBodyOfEncoding(d);
    if SyncEntryValid(d) {
      var f := EncodeSyncEntry(d).fields;
      EncodedSyncEntryFields(d);
      ParseUnitName(d.unit);
      var r := SyncEntryDto(
        f["clientId"].s, f["agentId"].s, f["productId"].s, f["marketId"].s,
        ParseUnit(f["unit"].s).value, f["priceValue"].n, f["currency"].s,
        ReadOptional(f, "photoUrl"), f["lat"].n, f["lon"].n, f["capturedAt"].s);
      assert DecodeSyncEntry(EncodeSyncEntry(d)) == Some(r);
      assert r == d;
    }
  }

  /** A body that carries any property the DTO does not declare is refused. */
  lemma SyncEntryRejectsUndeclared(body: Json, key: string)
    requires body.JObject? && key in body.fields && key !in SyncEntryKeys
    ensures !SyncEntryBody(body)
  {
  }

  /** Each numeric bound is inclusive, and each example of the boundary holds. */
  lemma SyncEntryBoundaryExamples(d: SyncEntryDto)
    requires SyncEntryValid(d)
    ensures SyncEntryValid(d.(priceValue := 1.0))
    ensures !SyncEntryValid(d.(priceValue := 0.0))
    ensures !SyncEntryValid(d.(priceValue := 0.5))
    ensures !SyncEntryValid(d.(currency := "xof"))
    ensures !SyncEntryValid(d.(currency := "XO"))
    ensures SyncEntryValid(d.(currency := "XOF"))
    ensures !SyncEntryValid(d.(lat := 100.0))
    ensures !SyncEntryValid(d.(lon := 200.0))
    ensures SyncEntryValid(d.(lat := -90.0, lon := 180.0))
    ensures SyncEntryValid(d.(clientId := ""))
    ensures SyncEntryValid(d.(photoUrl := None))
  {
    assert !IsUpperAscii("xof"[0]);
  }

  /** The sync body as the endpoint evidently intends to read it (its declared
      400 answer for invalid data): an array of entries, where one malformed
      element refuses the whole request before any entry is processed. */
  function DecodeSyncBody(body: Json): (r: Option<seq<SyncEntryDto>>)
    ensures r.Some? <==> body.JArray? && forall i :: 0 <= i < |body.items| ==> SyncEntryBody(body.items[i])
    ensures r.Some? ==> |r.value| == |body.items|
    ensures r.Some? ==> forall i :: 0 <= i < |r.value| ==> SyncEntryValid(r.value[i])
    ensures r.Some? ==> forall i :: 0 <= i < |r.value| ==> Some(r.value[i]) == DecodeSyncEntry(body.items[i])
  {
    if !body.JArray? then None else DecodeAll(body.items)
  }

  function DecodeAll(items: seq<Json>): (r: Option<seq<SyncEntryDto>>)
    ensures r.Some? <==> forall i :: 0 <= i < |items| ==> SyncEntryBody(items[i])
    ensures r.Some? ==> |r.value| == |items|
    ensures r.Some? ==> forall i :: 0 <= i < |r.value| ==> Some(r.value[i]) == DecodeSyncEntry(items[i])
  {
    if items == [] then Some([])
    else
      match DecodeSyncEntry(items[0])
      case None => None
      case Some(d) =>
        match DecodeAll(items[1..])
        case None => None
        case Some(rest) => Some([d] + rest)
  }

  /** The sync body as the global validation pipe actually hands it on. The
      parameter is declared `SyncEntryDto[]`, whose run-time type is `Array`, and
      the pipe checks only class types, so the body goes through unchanged and no
      element is checked. A body that is not an array goes through too, and the
      service's loop over it fails before any item; `None` stands for that. */
  function SyncBodyAsWritten(body: Json): (r: Option<seq<Json>>)
    ensures r.Some? <==> body.JArray?
    ensures r.Some? ==> |r.value| == |body.items| && forall i :: 0 <= i < |r.value| ==> r.value[i] == body.items[i]
  {
    if body.JArray? then Some(body.items) else None
  }

  /** Every body the intended reading takes, the pipe as written takes too, element
      for element. */
  lemma AsWrittenTakesIntended(body: Json)
    requires DecodeSyncBody(body).Some?
    ensures SyncBodyAsWritten(body).Some?
    ensures forall i :: 0 <= i < |body.items| ==>
      DecodeSyncEntry(SyncBodyAsWritten(body).value[i]) == Some(DecodeSyncBody(body).value[i])
  {
  }

  /** An element that carries nothing but a product id goes through the pipe as
      written, where the intended reading refuses the request. */
  lemma MalformedElementPassesAsWritten()
    ensures var body := JArray([JObject(map["productId" := JString("p")])]);
      && SyncBodyAsWritten(body) == Some(body.items)
      && !SyncEntryBody(body.items[0])
      && DecodeSyncBody(body).None?
  {
    var body := JArray([JObject(map["productId" := JString("p")])]);
    assert "agentId" !in body.items[0].fields;
  }

  // ---------------------------------------------------------------------------
  // ValidateEntryDto (backend/src/entries/dto/validate-entry.dto.ts)

  datatype ValidateEntryDto = ValidateEntryDto(decision: Decision, reason: Option<string>)

  const ValidateEntryKeys: set<string> := {"decision", "reason"}

  predicate ValidateEntryBody(body: Json) {
    && body.JObject?
    && OnlyDeclared(body.fields, ValidateEntryKeys)
    && StringIn(body.fields, "decision", DecisionNames)
    && OptionalString(body.fields, "reason")
  }

  function EncodeValidateEntry(d: ValidateEntryDto): Json {
    JObject(WithOptional(map["decision" := JString(DecisionName(d.decision))], "reason", d.reason))
  }

  function DecodeValidateEntry(body: Json): Option<ValidateEntryDto> {
    if !ValidateEntryBody(body) then None
    else Some(ValidateEntryDto(ParseDecision(body.fields["decision"].s).value,
                               ReadOptional(body.fields, "reason")))
  }

  /** Every typed decision body is accepted and survives the round trip. */
  lemma ValidateEntryRoundTrip(d: ValidateEntryDto)
    ensures ValidateEntryBody(EncodeValidateEntry(d))
    ensures DecodeValidateEntry(EncodeValidateEntry(d)) == Some(d)
  {
    assert EncodeValidateEntry(d).fields.Keys <= ValidateEntryKeys;
  }

  /** The decision must be one of the two names; the reason may be absent or null
      but, when given, must be a string. */
  lemma ValidateEntryRules(f: map<string, Json>)
    requires f.Keys <= ValidateEntryKeys
    ensures ValidateEntryBody(JObject(f)) <==>
      ("decision" in f && f["decision"].JString? && f["decision"].s in DecisionNames
       && ("reason" !in f || f["reason"].JNull? || f["reason"].JString?))
  {
  }

  lemma ValidateEntryExamples()
    ensures ValidateEntryBody(JObject(map["decision" := JString("validated")]))
    ensures ValidateEntryBody(JObject(map["decision" := JString("rejected"), "reason" := JString("prix incohérent")]))
    ensures !ValidateEntryBody(JObject(map["decision" := JString("pending")]))
    ensures !ValidateEntryBody(JObject(map["decision" := JString("rejected"), "reason" := JNumber(3.0)]))
    ensures !ValidateEntryBody(JObject(map["reason" := JString("x")]))
  {
    assert "pending" !in DecisionNames;
  }

  // ---------------------------------------------------------------------------
  // CreateMarketDto (backend/src/markets/dto/create-market.dto.ts)

  datatype CreateMarketDto = CreateMarketDto(name: string, city: string, lat: real, lon: real)

  predicate CreateMarketValid(d: CreateMarketDto) {
    -90.0 <= d.lat <= 90.0 && -180.0 <= d.lon <= 180.0
  }

  const CreateMarketKeys: set<string> := {"name", "city", "lat", "lon"}

  predicate CreateMarketBody(body: Json) {
    && body.JObject?
    && OnlyDeclared(body.fields, CreateMarketKeys)
    && IsStringProp(body.fields, "name")
    && IsStringProp(body.fields, "city")
    && NumberInRange(body.fields, "lat", -90.0, 90.0)
    && NumberInRange(body.fields, "lon", -180.0, 180.0)
  }

  function EncodeCreateMarket(d: CreateMarketDto): Json {
    JObject(map["name" := JString(d.name), "city" := JString(d.city),
                "lat" := JNumber(d.lat), "lon" := JNumber(d.lon)])
  }

  function DecodeCreateMarket(body: Json): (r: Option<CreateMarketDto>)
    ensures r.Some? ==> CreateMarketValid(r.value)
  {
    if !CreateMarketBody(body) then None
    else
      var f := body.fields;
      Some(CreateMarketDto(f["name"].s, f["city"].s, f["lat"].n, f["lon"].n))
  }

  lemma CreateMarketRoundTrip(d: CreateMarketDto)
    ensures CreateMarketBody(EncodeCreateMarket(d)) <==> CreateMarketValid(d)
    ensures DecodeCreateMarket(EncodeCreateMarket(d)) == (if CreateMarketValid(d) then Some(d) else None)
  {
    assert EncodeCreateMarket(d).fields.Keys <= CreateMarketKeys;
  }

  lemma CreateMarketRejectsUndeclared(body: Json, key: string)
    requires body.JObject? && key in body.fields && key !in CreateMarketKeys
    ensures !CreateMarketBody(body)
  {
  }

  // ---------------------------------------------------------------------------
  // CreateProductDto (backend/src/products/dto/create-product.dto.ts)

  datatype CreateProductDto = CreateProductDto(name: string, category: Option<string>, unitsAllowed: seq<string>)

  predicate CreateProductValid(d: CreateProductDto) {
    |d.unitsAllowed| >= 1
  }

  const CreateProductKeys: set<string> := {"name", "category", "unitsAllowed"}

  predicate AllStrings(items: seq<Json>) {
    forall i :: 0 <= i < |items| ==> items[i].JString?
  }

  predicate CreateProductBody(body: Json) {
    && body.JObject?
    && var f := body.fields;
    && OnlyDeclared(f, CreateProductKeys)
    && IsStringProp(f, "name")
    && OptionalString(f, "category")
    && "unitsAllowed" in f && f["unitsAllowed"].JArray?
    && |f["unitsAllowed"].items| >= 1
    && AllStrings(f["unitsAllowed"].items)
  }

  function EncodeStrings(ss: seq<string>): (r: seq<Json>)
    ensures |r| == |ss|
    ensures forall i :: 0 <= i < |ss| ==> r[i] == JString(ss[i])
  {
    if ss == [] then [] else [JString(ss[0])] + EncodeStrings(ss[1..])
  }

  function DecodeStrings(items: seq<Json>): (r: seq<string>)
    requires AllStrings(items)
    ensures |r| == |items|
    ensures forall i :: 0 <= i < |items| ==> items[i] == JString(r[i])
  {
    if items == [] then [] else [items[0].s] + DecodeStrings(items[1..])
  }

  function EncodeCreateProduct(d: CreateProductDto): Json {
    JObject(WithOptional(map["name" := JString(d.name),
                             "unitsAllowed" := JArray(EncodeStrings(d.unitsAllowed))],
                         "category", d.category))
  }

  function DecodeCreateProduct(body: Json): (r: Option<CreateProductDto>)
    ensures r.Some? ==> CreateProductValid(r.value)
  {
    if !CreateProductBody(body) then None
    else
      var f := body.fields;
      Some(CreateProductDto(f["name"].s, ReadOptional(f, "category"),
                            DecodeStrings(f["unitsAllowed"].items)))
  }

  lemma CreateProductRoundTrip(d: CreateProductDto)
    ensures CreateProductBody(EncodeCreateProduct(d)) <==> CreateProductValid(d)
    ensures DecodeCreateProduct(EncodeCreateProduct(d)) == (if CreateProductValid(d) then Some(d) else None)
  {
    var f := EncodeCreateProduct(d).fields;
    assert f.Keys <= CreateProductKeys;
    if CreateProductValid(d) {
      var items := EncodeStrings(d.unitsAllowed);
      assert DecodeStrings(items) == d.unitsAllowed;
    }
  }

  /** An empty list of units, or a list with a non-string element, is refused. */
  lemma CreateProductUnitsRules(name: string)
    ensures !CreateProductBody(JObject(map["name" := JString(name), "unitsAllowed" := JArray([])]))
    ensures !CreateProductBody(JObject(map["name" := JString(name), "unitsAllowed" := JArray([JString("kg"), JNumber(2.0)])]))
    ensures CreateProductBody(JObject(map["name" := JString(name), "unitsAllowed" := JArray([JString("kg")])]))
    ensures !CreateProductBody(JObject(map["name" := JString(name), "category" := JBool(true), "unitsAllowed" := JArray([JString("kg")])]))
  {
    assert !AllStrings([JString("kg"), JNumber(2.0)]) by {
      assert !([JString("kg"), JNumber(2.0)][1].JString?);
    }
  }
}
