/** The price-entry form (`PriceEntryScreen`): field validation, the guards
    before sending, the one-entry batch it sends, and how it reports the server's
    answer. The decimal parser (`parseFloat`) is a parameter: a string either
    reads as a number or does not (NaN). The client id, the capture instant and
    the position are inputs; the network call is a parameter too. */
module PriceEntryScreen {
  import opened Common
  import opened Validators
  import Dtos
  import Sync
  import PriceLedger

  type Parser = string -> Option<real>

  datatype Form = Form(productId: Option<string>, marketId: Option<string>, price: string, location: Option<Position>)

  datatype Position = Position(lat: real, lon: real)

  datatype FormErrors = FormErrors(product: Option<string>, market: Option<string>, price: Option<string>)

  const SelectProduct := "Sélectionnez un produit"
  const SelectMarket := "Sélectionnez un marché"
  const EnterValidPrice := "Entrez un prix valide"
  const SendFailed := "Impossible d'enregistrer le prix"

  /** A selection that is null or empty counts as missing. */
  predicate Missing(o: Option<string>) {
    o.None? || o.value == ""
  }

  /** The price text is empty, is not a number, or is not positive. */
  predicate BadPrice(price: string, parse: Parser) {
    price == "" || parse(price).None? || parse(price).value <= 0.0
  }

  predicate NoErrors(e: FormErrors) {
    e.product.None? && e.market.None? && e.price.None?
  }

  /** Each field's error is set exactly when that field is wrong, and the form is
      valid exactly when no error is set. */
  function Validate(f: Form, parse: Parser): (r: (FormErrors, bool))
    ensures r.0.product.Some? <==> Missing(f.productId)
    ensures r.0.market.Some? <==> Missing(f.marketId)
    ensures r.0.price.Some? <==> BadPrice(f.price, parse)
    ensures r.1 <==> NoErrors(r.0)
  {
    var errors := FormErrors(
      if Missing(f.productId) then Some(SelectProduct) else None,
      if Missing(f.marketId) then Some(SelectMarket) else None,
      if BadPrice(f.price, parse) then Some(EnterValidPrice) else None);
    (errors, NoErrors(errors))
  }

  /** The entry the form sends: the unit is always kilograms and the currency
      always XOF. It carries no agent id and no photo. */
  datatype ClientEntry = ClientEntry(
    clientId: string, productId: string, marketId: string, priceValue: real,
    lat: real, lon: real, capturedAt: string)

  const ClientUnit: Dtos.Unit := Dtos.Kg
  const ClientCurrency := "XOF"

  datatype Submission =
    | Invalid(errors: FormErrors)
    | NeedsLocation
    | Request(batch: seq<ClientEntry>)

  /** `handleSubmit` up to the request: an invalid form or a missing position sends
      nothing; otherwise a batch of exactly one entry is sent. */
  function HandleSubmit(f: Form, parse: Parser, clientId: string, capturedAt: string): (r: Submission)
    ensures r.Invalid? <==> !Validate(f, parse).1
    ensures r.NeedsLocation? <==> Validate(f, parse).1 && f.location.None?
    ensures r.Request? ==>
      && |r.batch| == 1
      && !Missing(f.productId) && !Missing(f.marketId) && f.location.Some?
      && parse(f.price).Some? && parse(f.price).value > 0.0
      && r.batch[0] == ClientEntry(clientId, f.productId.value, f.marketId.value, parse(f.price).value,
                                   f.location.value.lat, f.location.value.lon, capturedAt)
  {
    var (errors, ok) := Validate(f, parse);
    if !ok then Invalid(errors)
    else if f.location.None? then NeedsLocation
    else
      Request([ClientEntry(clientId, f.productId.value, f.marketId.value, parse(f.price).value,
                           f.location.value.lat, f.location.value.lon, capturedAt)])
  }

  /** The entry as the request body carries it. */
  function EncodeClientEntry(e: ClientEntry): Json {
    JObject(map[
      "clientId" := JString(e.clientId),
      "productId" := JString(e.productId),
      "marketId" := JString(e.marketId),
      "unit" := JString(Dtos.UnitName(ClientUnit)),
      "priceValue" := JNumber(e.priceValue),
      "currency" := JString(ClientCurrency),
      "lat" := JNumber(e.lat),
      "lon" := JNumber(e.lon),
      "capturedAt" := JString(e.capturedAt)])
  }

  // ---------------------------------------------------------------------------
  // Reporting the answer

  /** One element of the response as the client reads it. */
  datatype WireOutcome = WireOutcome(clientId: string, status: string, reason: Option<string>)

  function ToWire(o: Sync.SyncOutcome): WireOutcome {
    WireOutcome(o.clientId, Sync.StatusName(o.status), o.reason)
  }

  datatype Alert = Alert(title: string, message: string, goBack: bool)

  /** The alert after the request: success only for a first outcome `accepted`;
      any other status shows its reason, or `Statut: <status>` without one; a
      failed request, or an empty answer (reading its first element throws),
      shows the server's message or a fixed text. `answer` is the response body
      or the failure's server message, if any. */
  function ReportResponse(answer: Result<seq<WireOutcome>, Option<string>>): (a: Alert)
    ensures a.title == "Succès" <==> answer.Success? && |answer.value| >= 1 && answer.value[0].status == "accepted"
    ensures a.goBack <==> answer.Success? && |answer.value| >= 1
    ensures a.message != ""
    ensures answer.Success? && |answer.value| >= 1 && answer.value[0].status != "accepted" ==>
      a.message == (if answer.value[0].reason.Some? && answer.value[0].reason.value != ""
                    then answer.value[0].reason.value
                    else "Statut: " + answer.value[0].status)
  {
    if answer.Failure? then
      Alert("Erreur", if answer.error.Some? && answer.error.value != "" then answer.error.value else SendFailed, false)
    else if |answer.value| == 0 then Alert("Erreur", SendFailed, false)
    else
      var result := answer.value[0];
      if result.status == "accepted" then Alert("Succès", "Prix enregistré avec succès", true)
      else
        Alert("Information",
              if result.reason.Some? && result.reason.value != "" then result.reason.value
              else "Statut: " + result.status,
              true)
  }

  /** Against the server's outcomes: success is shown exactly for an accepted
      outcome, which includes the replay of a pending or validated entry; a
      refusal of any other kind always shows the server's reason. */
  lemma ReportsServerOutcome(o: Sync.SyncOutcome)
    requires o.status != Sync.Accepted ==> o.reason.Some? && o.reason.value != ""
    ensures var a := ReportResponse(Success([ToWire(o)]));
      && (a.title == "Succès" <==> o.status == Sync.Accepted)
      && (o.status != Sync.Accepted ==> a.message == o.reason.value)
  {
  }

  /** Every outcome the server produces that is not an acceptance carries a
      non-empty reason, so the client never falls back to `Statut: ...`. */
  lemma ServerRefusalsCarryReason<K>(l: PriceLedger.Ledger, item: Dtos.SyncEntryDto, env: Sync.ItemEnv, schema: Sync.Schema<K>)
    ensures var o := Sync.Step(l, item, env, schema).outcome;
      o.status != Sync.Accepted ==> o.reason.Some? && o.reason.value != ""
  {
  }

  // ---------------------------------------------------------------------------
  // Client and server disagree

  /** The request body never names an agent, and the entry rules the server
      declares require one, so no entry the form builds meets those rules. The
      pipe as written does not apply them to the elements of the batch (see
      `Dtos.SyncBodyAsWritten`), so the server goes on with no agent id. */
  lemma ClientEntryRefusedByDto(e: ClientEntry)
    ensures !Dtos.SyncEntryBody(EncodeClientEntry(e))
  {
    assert "agentId" !in EncodeClientEntry(e).fields;
  }

  /** The form accepts any positive price, so a price of one half goes out, and it
      breaks the price rule the server declares (at least 1). */
  lemma SubUnitPricePassesClient(f: Form, parse: Parser, clientId: string, capturedAt: string)
    requires !Missing(f.productId) && !Missing(f.marketId) && f.location.Some?
    requires f.price == "0.5" && parse("0.5") == Some(0.5)
    ensures var r := HandleSubmit(f, parse, clientId, capturedAt);
      && r.Request?
      && r.batch[0].priceValue == 0.5
      && !NumberAtLeast(EncodeClientEntry(r.batch[0]).fields, "priceValue", 1.0)
  {
  }

  /** Since the pipe as written checks no element, the service takes an entry
      priced below 1 like any other: a fresh one under the quota is stored as
      pending at that price and answered `accepted`. */
  lemma SubUnitPriceStoredByServer<K>(l: PriceLedger.Ledger, d: Dtos.SyncEntryDto, env: Sync.ItemEnv, schema: Sync.Schema<K>)
    requires d.priceValue == 0.5
    requires !Sync.IsReplay(l, d) && env.fault.NoFault?
    requires PriceLedger.CountInWindow(l, Sync.ItemTriple(d), env.today) < Sync.DailyLimit
    requires !Sync.Conflicts(l, Sync.RowData(d, schema), schema.key)
    ensures !Dtos.SyncEntryValid(d)
    ensures var r := Sync.Step(l, d, env, schema);
      && r.outcome.status == Sync.Accepted
      && |r.ledger| == |l| + 1
      && r.ledger[|l|].status == PriceLedger.Pending
      && r.ledger[|l|].data.priceValue == 0.5
  {
    Sync.InsertsExactlyWhen(l, d, env, schema);
  }

  /** The smallest price the server's declared rule allows. */
  const MinPrice: real := 1.0

  /** The price check with the server's bound. */
  predicate BadPriceForServer(price: string, parse: Parser) {
    price == "" || parse(price).None? || parse(price).value < MinPrice
  }

  /** The form's validation with the server's price bound. */
  function ValidateCorrected(f: Form, parse: Parser): (r: (FormErrors, bool))
    ensures r.0.product.Some? <==> Missing(f.productId)
    ensures r.0.market.Some? <==> Missing(f.marketId)
    ensures r.0.price.Some? <==> BadPriceForServer(f.price, parse)
    ensures r.1 <==> NoErrors(r.0)
    ensures r.1 ==> Validate(f, parse).1
  {
    var errors := FormErrors(
      if Missing(f.productId) then Some(SelectProduct) else None,
      if Missing(f.marketId) then Some(SelectMarket) else None,
      if BadPriceForServer(f.price, parse) then Some(EnterValidPrice) else None);
    (errors, NoErrors(errors))
  }

  /** What a form that passes the corrected check sends meets the server's declared
      price rule. */
  lemma CorrectedPriceMeetsServerRule(f: Form, parse: Parser, clientId: string, capturedAt: string)
    requires ValidateCorrected(f, parse).1 && f.location.Some?
    ensures var r := HandleSubmit(f, parse, clientId, capturedAt);
      && r.Request?
      && NumberAtLeast(EncodeClientEntry(r.batch[0]).fields, "priceValue", 1.0)
  {
  }

  /** The request body naming the signed-in agent. */
  function EncodeClientEntryFor(e: ClientEntry, agentId: string): (body: Json)
    ensures body.JObject? && body.fields == EncodeClientEntry(e).fields["agentId" := JString(agentId)]
  {
    JObject(EncodeClientEntry(e).fields["agentId" := JString(agentId)])
  }

  /** With the agent named, an entry of known product and market, a price of at
      least 1, a position on the globe and an ISO 8601 capture time passes the
      server's rules, and reads back as the entry that was built. */
  lemma CorrectedEntryPassesDto(e: ClientEntry, agentId: string)
    requires IsUuid(agentId) && IsUuid(e.productId) && IsUuid(e.marketId)
    requires e.priceValue >= MinPrice
    requires -90.0 <= e.lat <= 90.0 && -180.0 <= e.lon <= 180.0
    requires IsIsoDateTime(e.capturedAt)
    ensures Dtos.SyncEntryBody(EncodeClientEntryFor(e, agentId))
    ensures Dtos.DecodeSyncEntry(EncodeClientEntryFor(e, agentId))
         == Some(Dtos.SyncEntryDto(e.clientId, agentId, e.productId, e.marketId, ClientUnit, e.priceValue,
                                   ClientCurrency, None, e.lat, e.lon, e.capturedAt))
  {
    var f := EncodeClientEntryFor(e, agentId).fields;
    assert f.Keys == Dtos.SyncEntryKeys - {"photoUrl"};
    assert f["clientId"] == JString(e.clientId);
    assert f["agentId"] == JString(agentId);
    assert f["productId"] == JString(e.productId);
    assert f["marketId"] == JString(e.marketId);
    assert f["unit"] == JString("kg");
    assert f["priceValue"] == JNumber(e.priceValue);
    assert f["currency"] == JString("XOF");
    assert IsCurrencyCode("XOF");
    assert f["lat"] == JNumber(e.lat);
    assert f["lon"] == JNumber(e.lon);
    assert f["capturedAt"] == JString(e.capturedAt);
    assert Dtos.ReadOptional(f, "photoUrl") == None;
  }
}
