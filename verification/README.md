# Nimbiwe price collection, modelled in Dafny

Nimbiwe collects market prices. Field agents sign in with a one-time code sent
to their phone. They record a product's price at a market from a mobile app, and
the app sends entries to a backend in batches. Each entry is either inserted as
pending, answered idempotently from the stored row, refused by a daily quota, or
reported as a duplicate or a rejection. Administrators then list the pending
entries page by page and validate or reject them.

This project models the core of that system as pure functions over immutable
data. The modules follow the code:

| module | file | models |
|---|---|---|
| `Common` | common.dfy | options, results, digits, Latin-1 case mapping, substring search, decimal rendering |
| `Validators` | validators.dfy | JSON bodies and the class-validator property rules (UUID, ISO 4217 shape, ISO 8601 date-time, numeric bounds) |
| `Dtos` | dtos.dfy | the four request bodies: sync entry, admin decision, market, product |
| `PriceLedger` | ledger.dfy | the price-entry table, its lookups, the daily count and the unique constraints |
| `Sync` | sync.dfy | `EntriesService.syncEntries` and `mapStatusToResponse` |
| `Review` | review.dfy | `getPendingEntries`, `validateEntry` and the controller's page/limit defaults |
| `Auth` | auth.dfy | `AuthService`: login codes, verification, token issue and rotation, revoke-all |
| `PriceInput` | price_input.dfy | the price field's input filter |
| `OtpScreen` | otp_screen.dfy | the code-entry screen: slots, countdown, resend, `MM:SS` |
| `PriceEntryScreen` | price_entry_screen.dfy | form validation, the request it sends, how it reports the answer |
| `HomeScreen` | home_screen.dfy | "time ago" labels, product search, the product-to-price table |
| `ProductCard` | product_card.dfy | the picture chosen for a product |

Time, randomness and the store's failures are inputs. Each sync item gets an
`ItemEnv`: the clock, the server's current-day window and an optional store
fault. Login takes the random draw. Date parsing and `parseFloat` are parameters
that map a string either to a number or to nothing (NaN). Table rows are never
deleted, so a row's id is its position.

Where the e2e test or the endpoint's declarations and the code disagree, the model follows the code:

- A new entry is answered `accepted`, not `pending` (entries.service.ts:111-115).
  The e2e test expects `pending`.
- A second entry with the same content gets a per-item `duplicate` outcome inside
  a 200 response (entries.service.ts:118-129). The e2e test expects an HTTP 409
  `DUPLICATE_ENTRY`.
- The DTO requires `clientId` and `agentId` (sync-entry.dto.ts:7-12). The e2e
  test payloads omit them, and so does the mobile app's request (see Findings).
- The app accepts any positive price. The server declares a minimum of 1 (see
  Findings).
- The sync endpoint declares a 400 answer for invalid data, and the e2e test
  expects one for malformed entries. The global validation pipe checks no
  element of the array body (entries.controller.ts:38, main.ts:16-22). This is
  recorded under Findings. The rest of the model takes the entries as the
  intended reading decodes them.

## Model

| member | source | states |
|---|---|---|
| Sync.StatusName | backend/src/entries/entries.service.ts:7-12 | the response carries one of the four wire statuses, and `accepted` exactly for an acceptance |
| Sync.MapStatusToResponse | backend/src/entries/entries.service.ts:149-161 | a stored pending or validated row reports accepted and a rejected row reports rejected; a replay is never a duplicate or over quota |
| Sync.ErrorReason | backend/src/entries/entries.service.ts:137-141 | a rejection's reason is the error's message, or "Internal server error" when that message is empty; it is never empty |
| Sync.Step | backend/src/entries/entries.service.ts:26-143 | one item echoes its client id; the ledger either stays unchanged or gains exactly the new row, and then the outcome is an acceptance naming that row's id; duplicates and quota refusals carry no id |
| Sync.Process | backend/src/entries/entries.service.ts:23-147 | one outcome per input item, in input order, each echoing that item's client id; the old ledger stays a prefix of the new one |
| Sync.SyncEntries | backend/src/entries/entries.service.ts:23-147 | the service loop computes the same ledger and outcomes as item-by-item processing, one outcome per item, in order |
| Sync.ProcessCons | backend/src/entries/entries.service.ts:26-47 | a batch is its first item's step followed by the rest, run on the ledger that step left |
| Sync.ProcessSplit | backend/src/entries/entries.service.ts:26-144 | processing two concatenated batches is processing the first, then the second on its ledger, with the outcomes concatenated |
| Sync.ReplayShortCircuits | backend/src/entries/entries.service.ts:28-48 | a known non-empty client id returns the stored row's id and mapped status with "Already processed", changes nothing, whatever the quota and whether the later store calls would fail |
| Sync.EmptyClientIdIsNotReplayed | backend/src/entries/entries.service.ts:29-49 | an empty client id is never looked up: a second empty-id entry is inserted against the unique column and reported as a duplicate, not replayed |
| Sync.ResendIsIdempotent | backend/src/entries/entries.service.ts:28-48 | resending an entry that was just inserted inserts nothing and answers accepted with the same id |
| Sync.QuotaRefuses | backend/src/entries/entries.service.ts:51-84 | with three or more rows of the agent/product/market captured in the server's current day, a new item is refused as limit_exceeded with the fixed reason and nothing is inserted |
| Sync.InsertsExactlyWhen | backend/src/entries/entries.service.ts:86-115 | a row is inserted if and only if the item is no replay, under quota, conflicts with no unique constraint and meets no store error; the row is pending and holds exactly the submitted values |
| Sync.FreshAcceptIffInsert | backend/src/entries/entries.service.ts:111-115 | an outcome is accepted without a reason if and only if the item inserted a row |
| Sync.ConflictIsDuplicate | backend/src/entries/entries.service.ts:116-129 | a unique-constraint violation on insert is reported as duplicate with the fixed reason, and nothing is inserted |
| Sync.OtherErrorIsRejection | backend/src/entries/entries.service.ts:130-142 | any other store error is a rejection carrying the error's message, or the fixed text when the message is empty |
| Sync.ProcessKeepsValid | backend/src/entries/entries.service.ts:87-102 | every batch keeps the client-id and content-key uniqueness and the id numbering |
| Sync.StepQuotaBound | backend/src/entries/entries.service.ts:57-84 | one item never raises a triple's count in the day's window above three, unless it was already above |
| Sync.ProcessQuotaBound | backend/src/entries/entries.service.ts:51-84 | over a batch processed within one day, no triple's in-window count ends above the larger of three and its starting count |
| Sync.AcceptedBatchCounts | backend/src/entries/entries.service.ts:57-115 | freshly accepted items of a triple captured inside the window each add exactly one to the triple's count |
| Sync.FourthOfTripleRefused | backend/src/entries/entries.service.ts:51-84 | rows inserted earlier in the same batch count toward the quota: after three accepted entries of a triple in a day, a fourth new entry is refused as limit_exceeded |
| Sync.ProcessClientIds | backend/src/entries/entries.service.ts:86-102 | a batch adds no client id to the ledger other than its own items' ids |
| Sync.ProcessGrowth | backend/src/entries/entries.service.ts:86-115 | the ledger grows by exactly one pending row per fresh acceptance |
| PriceLedger.CountInWindow | backend/src/entries/entries.service.ts:57-67 | the number of rows of an agent/product/market whose capture time lies in `[start, end)`; never more than the ledger's length |
| PriceLedger.CountAppend | backend/src/entries/entries.service.ts:57-67 | appending a row adds one to a triple's count exactly when the row is of that triple and inside the window |
| PriceLedger.FindByClientId | backend/src/entries/entries.service.ts:30-32 | no result if and only if no row has the client id; otherwise the first row carrying it |
| PriceLedger.FindById | backend/src/entries/entries.service.ts:185-187 | no result if and only if no row has the id; otherwise the first row carrying it |
| PriceLedger.AppendKeepsValid | backend/src/entries/entries.service.ts:87-102 | appending a row with the next id, an unused client id and an unused content key keeps both unique constraints |
| Review.StatusFor | backend/src/entries/entries.service.ts:194-197 | a decision never leaves a row pending: validated gives validated and rejected gives rejected |
| Review.ValidateEntry | backend/src/entries/entries.service.ts:179-228 | an unknown id is NotFound("Entry not found") and changes nothing; otherwise the row with that id takes the decision's status with id, data and creation time kept, no other row changes, exactly one audit record is appended, and the updated row is returned |
| Review.FindRow | backend/src/entries/entries.service.ts:185-191 | a known id names a row of the ledger carrying that id |
| Review.ValidateTouchesOnlyThatRow | backend/src/entries/entries.service.ts:199-202 | in a valid ledger exactly the named row changes, and only its status |
| Review.ValidateKeepsValid | backend/src/entries/entries.service.ts:199-212 | a decision keeps the store's unique constraints |
| Review.RepeatDecisionAppendsAgain | backend/src/entries/entries.service.ts:199-212 | repeating a decision leaves the ledger as it was after the first one but appends a second, identical audit record |
| Review.PendingRows | backend/src/entries/entries.service.ts:167 | a row is selected if and only if it is in the ledger and pending |
| Review.InsertByDate | backend/src/entries/entries.service.ts:175 | inserting into a newest-first list keeps it newest first and adds exactly that row |
| Review.SortNewestFirst | backend/src/entries/entries.service.ts:175 | the result is ordered by creation time, newest first, and is a permutation of the input |
| Review.Slice | backend/src/entries/entries.service.ts:164-174 | `skip`/`take`: at most `take` rows, which are the input's rows from `skip` on, clipped to its end |
| Review.QueryOr | backend/src/entries/entries.controller.ts:52 | `Number(x) \|\| default`: an absent, non-numeric or zero parameter falls back to the default, and any other number is kept as it is, negative or fractional |
| Review.GetPendingEntries | backend/src/entries/entries.service.ts:163-177 | a negative limit or offset is refused; otherwise the page is the slice from offset `(page - 1) * limit`, at most `limit` rows, of the pending rows sorted newest first |
| Review.PendingRowIsListed | backend/src/entries/entries.service.ts:163-177 | with a positive page size every pending row appears on some page from 1 on |
| Review.DecidedRowIsNotListed | backend/src/entries/entries.service.ts:163-202 | after a decision the row is listed on no page |
| Auth.OtpCode | backend/src/auth/auth.service.ts:15 | `floor(100000 + r * 900000)` for `0 <= r < 1` is six decimal digits, between 100000 and 999999 |
| Auth.InvalidateLive | backend/src/auth/auth.service.ts:17-25 | every unused, unexpired code of the phone becomes used; nothing else changes |
| Auth.Login | backend/src/auth/auth.service.ts:13-41 | agents and tokens are unchanged; one new unused six-digit code for the phone is stored, expiring five minutes later; the response is "OTP sent" with 300 seconds |
| Auth.LoginLeavesOneLive | backend/src/auth/auth.service.ts:17-37 | after a login the new code is the phone's only usable code |
| Auth.LoginKeepsOtherPhones | backend/src/auth/auth.service.ts:17-25 | a login touches no other phone's codes and changes no code's value or expiry |
| Auth.LoginLifetimeAgrees | backend/src/auth/auth.service.ts:27-40 | the advertised 300 seconds equal the stored expiry minus the login instant |
| Auth.NewestMatch | backend/src/auth/auth.service.ts:45-53 | no result if and only if no unused, unexpired code of the phone has that value; otherwise the newest such code |
| Auth.AgentByPhone | backend/src/auth/auth.service.ts:66 | no result if and only if no agent has the phone; otherwise an agent with that phone |
| Auth.GenerateTokens | backend/src/auth/auth.service.ts:119-149 | the stored tokens are kept and one is appended: the agent's, unrevoked, expiring seven days later; it becomes the agent's newest usable token, the agent's usable count rises by one and no other agent's changes; both tokens carry the agent id and role, and the access token lives 15 minutes |
| Auth.Verify | backend/src/auth/auth.service.ts:43-80 | failure, "Invalid or expired OTP", if and only if no usable code matches; on success the newest matching code alone is marked used, at most one agent is added, the tokens carry the id and role of the agent with that phone, and exactly one new unrevoked refresh token for that agent, expiring seven days later, is stored |
| Auth.VerifyKeepsPhonesUnique | backend/src/auth/auth.service.ts:65-74 | an agent is created if and only if none had the phone, as "New Agent" with the default role, so phones stay unique |
| Auth.CodeWorksOnce | backend/src/auth/auth.service.ts:13-63 | a freshly sent code verifies once before it expires, and a second verification with it fails |
| Auth.NewestLiveToken | backend/src/auth/auth.service.ts:91-98 | no result if and only if the agent has no unrevoked, unexpired token; otherwise the newest one |
| Auth.Refresh | backend/src/auth/auth.service.ts:82-117 | failure, "Invalid refresh token", if and only if the token does not verify, its subject has no usable stored token, or a store call fails; a failure changes nothing, except that a failed insert after the revoke leaves the newest usable token revoked; on success that token is revoked and one new token is stored |
| Auth.FailedIssueLosesToken | backend/src/auth/auth.service.ts:104-116 | when the insert of the new token fails after the revoke, the answer is unauthorized and the agent has one usable token fewer |
| Auth.RefreshKeepsLiveCount | backend/src/auth/auth.service.ts:104-111 | a refresh keeps the agent's number of usable tokens: one revoked, one issued |
| Auth.LiveCountRevoke | backend/src/auth/auth.service.ts:104-108 | revoking a usable token lowers the usable count by one |
| Auth.RevokeAllTokens | backend/src/auth/auth.service.ts:151-156 | exactly the agent's tokens become revoked; no other field or token changes |
| Auth.NoRefreshAfterRevokeAll | backend/src/auth/auth.service.ts:151-156 | after revoking all of an agent's tokens no refresh for that agent succeeds, and the attempt changes nothing |
| Dtos.ParseUnit | backend/src/entries/dto/sync-entry.dto.ts:22-24 | a unit name is accepted if and only if it is one of the enumeration's names, and it reads back to that name |
| Dtos.ParseUnitName | backend/src/entries/dto/sync-entry.dto.ts:22-24 | every unit's name parses back to the unit |
| Dtos.ParseDecision | backend/src/entries/dto/validate-entry.dto.ts:6-8 | a decision is accepted if and only if it is `validated` or `rejected` |
| Dtos.DecodeSyncEntry | backend/src/entries/dto/sync-entry.dto.ts:5-57 | whatever decodes meets every property rule of the sync entry |
| Dtos.DecodeSyncEntryAccepts | backend/src/entries/dto/sync-entry.dto.ts:5-57 | a body decodes if and only if the validation rules accept it |
| Dtos.SyncEntryBodyOfEncoding | backend/src/entries/dto/sync-entry.dto.ts:5-57 | an encoded entry passes the rules if and only if the record is valid |
| Dtos.SyncEntryRoundTrip | backend/src/entries/dto/sync-entry.dto.ts:5-57 | encoding then decoding returns the record if and only if it is valid |
| Dtos.SyncEntryRejectsUndeclared | backend/src/entries/dto/sync-entry.dto.ts:5-57 | a body with any undeclared property is refused |
| Dtos.SyncEntryBoundaryExamples | backend/src/entries/dto/sync-entry.dto.ts:26-52 | the price minimum 1 and the coordinate bounds are inclusive; the currency must be three upper-case letters; the client id may be empty; the photo is optional |
| Dtos.DecodeSyncBody | backend/src/entries/entries.controller.ts:33-39 | the intended reading of the sync body: an array is accepted if and only if every element passes the entry rules, and it decodes element by element |
| Dtos.SyncBodyAsWritten | backend/src/entries/entries.controller.ts:38 | the pipe as it runs: every array body goes through unchanged, element for element, whatever its elements |
| Dtos.AsWrittenTakesIntended | backend/src/main.ts:16-22 | every body the intended reading accepts also goes through the pipe as written, each element decoding to the same entry |
| Dtos.MalformedElementPassesAsWritten | backend/src/entries/entries.controller.ts:38 | an array whose one element has only a product id goes through the pipe as written, while the intended reading refuses it |
| Validators.IsoExamples | backend/src/entries/dto/sync-entry.dto.ts:54-56 | sample date strings that the ISO 8601 rule accepts and refuses |
| Dtos.ValidateEntryRoundTrip | backend/src/entries/dto/validate-entry.dto.ts:5-14 | every decision body passes and round-trips |
| Dtos.ValidateEntryRules | backend/src/entries/dto/validate-entry.dto.ts:5-14 | a decision body is accepted if and only if it has a known decision, an optional string reason and nothing else |
| Dtos.ValidateEntryExamples | backend/src/entries/dto/validate-entry.dto.ts:5-14 | sample decision bodies that are accepted and refused |
| Dtos.DecodeCreateMarket | backend/src/markets/dto/create-market.dto.ts:4-24 | whatever decodes has string name and city and coordinates within bounds |
| Dtos.CreateMarketRoundTrip | backend/src/markets/dto/create-market.dto.ts:4-24 | a market body passes if and only if the record is valid, and then round-trips |
| Dtos.CreateMarketRejectsUndeclared | backend/src/markets/dto/create-market.dto.ts:4-24 | a market body with an undeclared property is refused |
| Dtos.DecodeCreateProduct | backend/src/products/dto/create-product.dto.ts:4-19 | whatever decodes has at least one allowed unit |
| Dtos.CreateProductRoundTrip | backend/src/products/dto/create-product.dto.ts:4-19 | a product body passes if and only if the record is valid, and then round-trips |
| Dtos.CreateProductUnitsRules | backend/src/products/dto/create-product.dto.ts:9-18 | an empty unit list, a non-string unit or a non-string category is refused |
| PriceInput.Clean | mobile/src/components/PriceInput.tsx:20 | only digits and dots remain; every such character of the input survives; an input made only of them is unchanged |
| PriceInput.Split | mobile/src/components/PriceInput.tsx:22 | at least one piece, none containing the separator |
| PriceInput.SplitCount | mobile/src/components/PriceInput.tsx:22-23 | a text splits into one more piece than it has dots |
| PriceInput.ConcatSplit | mobile/src/components/PriceInput.tsx:24 | joining the pieces gives the text without its dots |
| PriceInput.KeepFirstDot | mobile/src/components/PriceInput.tsx:21-27 | the one-pass reference keeps at most one dot and all other characters in order |
| PriceInput.Sanitize | mobile/src/components/PriceInput.tsx:18-28 | the component's split-and-join filter equals the one-pass reference (keep the first dot, drop the later ones) applied to the cleaned text |
| PriceInput.SanitizeProperties | mobile/src/components/PriceInput.tsx:18-28 | the filtered value has only digits and dots, at most one dot, and the cleaned text's other characters in order |
| PriceInput.SanitizeKeepsDigits | mobile/src/components/PriceInput.tsx:18-28 | the filter keeps exactly the input's ASCII digits, in order |
| PriceInput.SanitizeIdempotent | mobile/src/components/PriceInput.tsx:18-28 | filtering a filtered value changes nothing |
| OtpScreen.InitialTimer | mobile/src/screens/OTPScreen.tsx:18 | `expiresIn \|\| 300`: a missing or zero lifetime gives 300, any other is kept |
| OtpScreen.Initial | mobile/src/screens/OTPScreen.tsx:16-19 | six empty slots and resending disabled |
| OtpScreen.HandleOtpChange | mobile/src/screens/OTPScreen.tsx:47-59 | a value that is not all digits changes nothing; otherwise that slot alone takes it |
| OtpScreen.VerifiesWhenAllFilled | mobile/src/screens/OTPScreen.tsx:39-45 | with one character per slot at most, the code is submitted if and only if all six slots are filled |
| OtpScreen.ShouldVerify | mobile/src/screens/OTPScreen.tsx:39-45 | the submit test on the joined slots; specified by OtpScreen.VerifiesWhenAllFilled |
| OtpScreen.Tick | mobile/src/screens/OTPScreen.tsx:26-36 | each second the count drops by one; at one or below it becomes zero and resending is enabled |
| OtpScreen.TicksCountDown | mobile/src/screens/OTPScreen.tsx:25-37 | after n seconds the count is the start minus n, floored at zero, and resending is enabled once it has run out |
| OtpScreen.Resend | mobile/src/screens/OTPScreen.tsx:104-115 | nothing happens until resending is enabled; a sent code restarts the count at 300 and disables resending; a failed send changes nothing |
| OtpScreen.OnVerifyFailed | mobile/src/screens/OTPScreen.tsx:91-98 | a refused code clears all slots, so no resubmission follows, and shows the server's message or the fixed text |
| OtpScreen.JsRem | mobile/src/screens/OTPScreen.tsx:119 | JavaScript's `%`: the remainder takes the dividend's sign and is smaller than the divisor in size |
| OtpScreen.FormatTimeRoundTrip | mobile/src/screens/OTPScreen.tsx:117-121 | below 6000 seconds the rendering is `MM:SS`, and its minutes times 60 plus its seconds give the count |
| OtpScreen.FormatTimeExamples | mobile/src/screens/OTPScreen.tsx:117-121 | 300 renders as 05:00 and 65 as 01:05 |
| OtpScreen.FormatTime | mobile/src/screens/OTPScreen.tsx:117-121 | the countdown's `MM:SS` rendering; specified by OtpScreen.FormatTimeRoundTrip and OtpScreen.FormatTimeExamples |
| PriceEntryScreen.Validate | mobile/src/screens/PriceEntryScreen.tsx:65-83 | each field's error is set if and only if that field is wrong, and the form passes if and only if no error is set |
| PriceEntryScreen.HandleSubmit | mobile/src/screens/PriceEntryScreen.tsx:85-112 | an invalid form or a missing position sends nothing; otherwise exactly one entry goes out, with the parsed price and the position |
| PriceEntryScreen.ReportResponse | mobile/src/screens/PriceEntryScreen.tsx:115-147 | success is shown if and only if the first outcome is accepted; another status shows its reason or `Statut: <status>`; a failed request or an empty answer shows an error |
| PriceEntryScreen.ReportsServerOutcome | mobile/src/screens/PriceEntryScreen.tsx:117-141 | for any outcome the server can produce, the app shows success exactly for an acceptance and otherwise the server's reason |
| PriceEntryScreen.ServerRefusalsCarryReason | backend/src/entries/entries.service.ts:41-142 | every outcome other than a fresh or replayed acceptance carries a non-empty reason |
| PriceEntryScreen.SubUnitPricePassesClient | mobile/src/screens/PriceEntryScreen.tsx:76-79 | a price of 0.5 passes the form, goes out, and breaks the minimum the server declares |
| PriceEntryScreen.SubUnitPriceStoredByServer | backend/src/entries/entries.service.ts:86-115 | an entry priced 0.5 breaks the declared rules, yet a fresh one under the quota is stored as pending at 0.5 and answered accepted |
| PriceEntryScreen.ValidateCorrected | mobile/src/screens/PriceEntryScreen.tsx:65-83 | the form check with the server's minimum: per-field errors as before, and whatever it passes also passes the original check |
| PriceEntryScreen.CorrectedPriceMeetsServerRule | mobile/src/screens/PriceEntryScreen.tsx:76-79 | what the corrected check lets out meets the server's declared price rule |
| PriceEntryScreen.ClientEntryRefusedByDto | mobile/src/screens/PriceEntryScreen.tsx:102-112 | the entry the app sends has no agent id, so none meets the entry rules the server declares |
| PriceEntryScreen.EncodeClientEntry | mobile/src/screens/PriceEntryScreen.tsx:102-112 | the request body the app builds for one entry; specified by PriceEntryScreen.ClientEntryRefusedByDto and PriceEntryScreen.SubUnitPricePassesClient |
| PriceEntryScreen.EncodeClientEntryFor | mobile/src/screens/PriceEntryScreen.tsx:102-112 | the corrected body is the app's body with the signed-in agent's id added |
| PriceEntryScreen.CorrectedEntryPassesDto | mobile/src/screens/PriceEntryScreen.tsx:102-112 | with the agent id added, a well-formed entry meets the server's declared rules and decodes to the entry that was built |
| HomeScreen.HoursOfMinutes | mobile/src/screens/HomeScreen.tsx:63-64 | whole hours of whole minutes are the whole hours of the milliseconds |
| HomeScreen.TimeAgoThresholds | mobile/src/screens/HomeScreen.tsx:58-69 | from one hour on the label is `il y a {h}h`, from one minute on `il y a {m} min`, and below a minute, future dates included, `à l'instant` |
| HomeScreen.TimeAgoEdges | mobile/src/screens/HomeScreen.tsx:58-69 | an absent or empty date gives an empty label; an unreadable date gives `à l'instant` |
| HomeScreen.FormatTimeAgo | mobile/src/screens/HomeScreen.tsx:58-69 | the relative age label; specified by HomeScreen.TimeAgoThresholds and HomeScreen.TimeAgoEdges |
| HomeScreen.TrimStart | mobile/src/screens/HomeScreen.tsx:100 | leading JavaScript white space is removed and nothing else |
| HomeScreen.TrimEnd | mobile/src/screens/HomeScreen.tsx:100 | trailing JavaScript white space is removed and nothing else |
| HomeScreen.TrimEmptyIffBlank | mobile/src/screens/HomeScreen.tsx:100 | a query trims to nothing if and only if it is all white space |
| HomeScreen.FilterByName | mobile/src/screens/HomeScreen.tsx:101-103 | a product is kept if and only if its lower-cased name contains the lower-cased query |
| HomeScreen.FilterIsSubsequence | mobile/src/screens/HomeScreen.tsx:101-103 | the kept products are in their original order |
| HomeScreen.FilterSpec | mobile/src/screens/HomeScreen.tsx:98-106 | a blank query shows every product; any other shows, in order, exactly the products whose lower-cased name has the lower-cased query as a substring |
| HomeScreen.FilteredProducts | mobile/src/screens/HomeScreen.tsx:98-106 | the product list shown for a search query; specified by HomeScreen.FilterSpec |
| HomeScreen.FromPairsSpec | mobile/src/screens/HomeScreen.tsx:73-91 | a key is in the map if and only if some pair has it, and its value is the last such pair's |
| HomeScreen.MarketPairs | mobile/src/screens/HomeScreen.tsx:76-82 | each market price becomes its product's cell, labelled with its capture's age |
| HomeScreen.AveragePairs | mobile/src/screens/HomeScreen.tsx:85-91 | each average becomes its product's cell, labelled `Moyenne (30j)` |
| HomeScreen.PriceMapSpec | mobile/src/screens/HomeScreen.tsx:72-95 | with a market selected, a product has a cell if and only if the market has a price for it, and the last such price wins with its age; otherwise a product has a cell if and only if it has an average, the last such average wins, and every cell is labelled as an average |
| HomeScreen.PriceMap | mobile/src/screens/HomeScreen.tsx:72-95 | the product-to-price table the cards read; specified by HomeScreen.PriceMapSpec |
| ProductCard.FirstMatchIsFirst | mobile/src/components/ProductCard.tsx:55-92 | a table lookup finds nothing if and only if no rule matches; otherwise it returns the picture of a matching rule with no matching rule before it |
| ProductCard.CascadeIsTables | mobile/src/components/ProductCard.tsx:55-92 | the component's cascade of tests equals the two-table first-match lookup |
| ProductCard.NameTable | mobile/src/components/ProductCard.tsx:59-77 | the name table, read rule by rule, gives the name tests' pictures in their order |
| ProductCard.CategoryTable | mobile/src/components/ProductCard.tsx:79-89 | the category table, read rule by rule, gives the category tests' pictures in their order |
| ProductCard.NameDecidesFirst | mobile/src/components/ProductCard.tsx:59-77 | a keyword in the name decides the picture whatever the category, and it is the first matching name rule's |
| ProductCard.CategoryDecidesNext | mobile/src/components/ProductCard.tsx:79-91 | without a name keyword the first matching category rule decides, and the parcel shows if and only if none matches |
| ProductCard.PulsesBeforeGreens | mobile/src/components/ProductCard.tsx:80-83 | a pulses category shows beans, not the leafy green whose keyword it also contains |
| ProductCard.CaseBlind | mobile/src/components/ProductCard.tsx:56-57 | upper-casing name and category beforehand changes nothing |
| ProductCard.ProductEmoji | mobile/src/components/ProductCard.tsx:56-92 | the card's picture for a category and a name; specified by ProductCard.NameDecidesFirst, ProductCard.CategoryDecidesNext, ProductCard.PulsesBeforeGreens and ProductCard.CaseBlind |
| ProductCard.Cascade | mobile/src/components/ProductCard.tsx:56-92 | the component's cascade of keyword tests on the upper-cased texts; specified by ProductCard.CascadeIsTables |

## Findings

| source | as written | input that shows it | evidently intended | confidence | as-written member | corrected member |
|---|---|---|---|---|---|---|
| mobile/src/screens/PriceEntryScreen.tsx:76-79 | the form accepts any price above 0 | price text "0.5" | only prices meeting the server's declared minimum (at least 1, sync-entry.dto.ts:28) pass the form | not executed | PriceEntryScreen.SubUnitPricePassesClient | PriceEntryScreen.CorrectedPriceMeetsServerRule |
| mobile/src/screens/PriceEntryScreen.tsx:102-112 | the request body has no `agentId`, which the DTO requires (sync-entry.dto.ts:11-12) | any valid form | the signed-in agent's id goes with each entry | not executed | PriceEntryScreen.ClientEntryRefusedByDto | PriceEntryScreen.CorrectedEntryPassesDto |
| backend/src/entries/entries.controller.ts:38 | the body is typed `SyncEntryDto[]`, whose run-time type is `Array`, so the global validation pipe (main.ts:16-22) checks none of its elements | `[{"productId": "p"}]` | a malformed element is answered 400, as the endpoint declares (entries.controller.ts:33) and the e2e test expects | not executed | Dtos.MalformedElementPassesAsWritten | Dtos.DecodeSyncBody |

`PriceEntryScreen.ValidateCorrected` and `PriceEntryScreen.EncodeClientEntryFor`
are the corrected definitions. The as-written ones are `PriceEntryScreen.Validate`
and `PriceEntryScreen.EncodeClientEntry`. For the pipe, `Dtos.SyncBodyAsWritten`
is the as-written reading and `Dtos.DecodeSyncBody` the corrected one, which
`Sync` consumes. Because the pipe as written checks nothing, the two client
findings do not lead to a refusal on the running server: an entry priced 0.5 is
stored (`PriceEntryScreen.SubUnitPriceStoredByServer`), and an entry without an
agent id goes on to the service with no agent id.

## Left out

- Logging, HTTP, navigation, focus handling and rendering are left out: they carry no logic the model could state.
- Dtos.SyncBodyAsWritten: what the service then does with an element that is not a valid entry is not modelled. Missing properties read as `undefined` in the store calls, and the store's answer to that depends on the Prisma schema. `Sync` takes the entries `Dtos.DecodeSyncBody` yields.
- Prisma, bcrypt and JWT are not modelled as code. The store is sequences. A signature check becomes `Option<Claims>`, and the refresh token is not compared with the stored hash, as in the code.
- The Prisma schema is not part of this model. The unit names (kg, piece, basket), the content-uniqueness key and the role a new agent gets are inputs or assumptions: the key is a function parameter and the role a parameter of `Auth.Verify`.
- Review.GetPendingEntries: a negative `take` makes Prisma read backwards. The model refuses a negative limit or offset instead of modelling that.
- Review.GetPendingEntries: the page and limit are integers. `Review.QueryOr` keeps a fractional value such as `page=1.5`. A fractional offset or count then reaches Prisma, which refuses it. That path is not modelled.
- Review.ValidateEntry: the status update and the audit record are two writes with no transaction. If the audit insert fails, the new status stays and the call fails. Store failures are not modelled here.
- Review.SortNewestFirst: the order among rows with the same creation time is whatever the database returns; the model keeps ledger order.
- Concurrency between requests is left out: each call runs alone against the store.
- Sync.Step: the server's current-day window is an input. Local-time midnight and daylight-saving changes are left out.
- Auth.GenerateTokens: seven days is a fixed number of milliseconds; daylight-saving changes are left out.
- Auth.OtpCode: the random draw is an exact real, so floating-point rounding of `100000 + r * 900000` is left out.
- Auth.Verify: `now` is one instant per call, where the code reads the clock at each query.
- Auth.Verify: store failures are not modelled. In the code, a write that fails after the code is marked used leaves that mark in place and the call fails. The same holds for `Auth.Login` between its invalidation and its insert. Only `Auth.Refresh` takes a store fault.
- Common.Upper and Common.Lower map case over Latin-1 only; `ß` and the rest of Unicode are left out.
- Validators.IsIsoDateTime accepts less than the ISO 8601 rule: an extended calendar date `YYYY-MM-DD`, optionally followed by `T` or a space, `HH:MM`, optional seconds with a fraction, and an optional zone. It refuses these forms that the rule accepts: week and ordinal dates; reduced precision (`2025`, `2025-12`); the basic format (`20251204`, `T1000`); an hour alone (`2025-12-04T10`); a fraction on the hour or minutes; `24:00`; a bare trailing `T` or space; signed years; and white-space separators other than a space.
- PriceEntryScreen: JavaScript numbers are reals. NaN and the infinities become "does not parse". The client id's random suffix and the clock are inputs.
- HomeScreen.FormatTimeAgo: the exponent form JavaScript uses for numbers of 21 digits or more is left out.
- HomeScreen.FilterByName: `toLowerCase` is the Latin-1 mapping above.
- OtpScreen: `setUser` with placeholder data and the key-press focus handling are left out.
- ProductCard: the price badge and the `Autre` category label are rendering and left out.
