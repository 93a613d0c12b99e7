/** Batch ingestion of price entries (`EntriesService.syncEntries`).

    Items are processed one after another against the ledger, each through the
    same priority cascade, the first matching step deciding the item's outcome:
      1. idempotent replay: a non-empty client id already in the ledger returns the
         stored row's id and its status mapped to a response status;
      2. daily quota: three or more rows of the same agent/product/market captured
         inside the server's current day refuse the item;
      3. insertion as a pending row; a unique-constraint conflict (on the client id
         or on the content key) is reported as a duplicate;
      4. any other store error is reported as a rejection carrying its message.
    A failure on one item never stops the later ones.

    The clock, the current day's window and the store's own failures are inputs:
    `ItemEnv` gives, for each item, the instant of its insertion, the window
    `[today 00:00, tomorrow 00:00)` computed from the clock at that moment, and a
    failure the store raises on one of the three calls, if any. */
module Sync {
  import opened Common
  import Dtos
  import opened PriceLedger

  datatype SyncStatus = Accepted | Refused | Duplicate | LimitExceeded

  /** The status as it appears in the response body. */
  function StatusName(s: SyncStatus): (name: string)
    ensures name in {"accepted", "rejected", "duplicate", "limit_exceeded"}
    ensures name == "accepted" <==> s == Accepted
  {
    match s
    case Accepted => "accepted"
    case Refused => "rejected"
    case Duplicate => "duplicate"
    case LimitExceeded => "limit_exceeded"
  }

  /** One element of the response array; `Refused` is the wire status `rejected`. */
  datatype SyncOutcome = SyncOutcome(clientId: string, status: SyncStatus, reason: Option<string>, id: Option<nat>)

  /** An error raised by the store on the client-id lookup, the quota count or the
      insert, other than a unique-constraint violation. */
  datatype StoreFault = NoFault | LookupFails(message: string) | CountFails(message: string) | CreateFails(message: string)

  datatype ItemEnv = ItemEnv(now: int, today: Window, fault: StoreFault)

  /** The content-uniqueness key of the store and the reading of a capture-time
      string as an instant. */
  datatype Schema<K> = Schema(key: EntryData -> K, instantOf: string -> int)

  const DailyLimit: nat := 3
  const AlreadyProcessed := "Already processed"
  const LimitReason := "Daily limit reached (3 entries per day per agent/product/market)"
  const DuplicateReason := "Entry with same product/market/unit/date/price already exists"
  const InternalError := "Internal server error"

  /** The response status reported for an already stored row. */
  function MapStatusToResponse(s: EntryStatus): (r: SyncStatus)
    ensures r != Duplicate && r != LimitExceeded
    ensures r == Refused <==> s == Rejected
    ensures r == Accepted <==> s == Pending || s == Validated
  {
    match s
    case Pending => Accepted
    case Validated => Accepted
    case Rejected => Refused
  }

  /** The reason of a rejection: the error's message, or a fixed text when the
      message is empty. */
  function ErrorReason(message: string): (r: string)
    ensures r != ""
    ensures message != "" ==> r == message
  {
    if message == "" then InternalError else message
  }

  function RowData<K>(item: Dtos.SyncEntryDto, schema: Schema<K>): EntryData {
    EntryData(item.clientId, item.agentId, item.productId, item.marketId, item.unit,
              item.priceValue, item.currency, item.photoUrl, item.lat, item.lon,
              schema.instantOf(item.capturedAt))
  }

  function ItemTriple(item: Dtos.SyncEntryDto): Triple {
    Triple(item.agentId, item.productId, item.marketId)
  }

  /** The insert violates a unique constraint of the store. */
  predicate Conflicts<K(==)>(l: Ledger, d: EntryData, key: EntryData -> K) {
    ClientIdTaken(l, d.clientId) || KeyTaken(l, key, key(d))
  }

  function NewRow<K>(l: Ledger, item: Dtos.SyncEntryDto, env: ItemEnv, schema: Schema<K>): PriceEntry {
    PriceEntry(|l|, RowData(item, schema), Pending, env.now)
  }

  datatype StepResult = StepResult(ledger: Ledger, outcome: SyncOutcome)

  /** One item of the batch. The ledger either stays as it is or gains exactly the
      new pending row, and then the outcome is a fresh acceptance naming it. */
  function Step<K(==)>(l: Ledger, item: Dtos.SyncEntryDto, env: ItemEnv, schema: Schema<K>): (r: StepResult)
    ensures r.outcome.clientId == item.clientId
    ensures r.ledger == l
         || (&& r.ledger == l + [NewRow(l, item, env, schema)]
             && r.outcome == SyncOutcome(item.clientId, Accepted, None, Some(|l|)))
    ensures r.outcome.status == Duplicate || r.outcome.status == LimitExceeded ==> r.outcome.id.None?
  {
    var c := item.clientId;
    if c != "" && env.fault.LookupFails? then
      StepResult(l, SyncOutcome(c, Refused, Some(ErrorReason(env.fault.message)), None))
    else if c != "" && FindByClientId(l, c).Some? then
      var existing := l[FindByClientId(l, c).value];
      StepResult(l, SyncOutcome(c, MapStatusToResponse(existing.status), Some(AlreadyProcessed), Some(existing.id)))
    else if env.fault.CountFails? then
      StepResult(l, SyncOutcome(c, Refused, Some(ErrorReason(env.fault.message)), None))
    else if CountInWindow(l, ItemTriple(item), env.today) >= DailyLimit then
      StepResult(l, SyncOutcome(c, LimitExceeded, Some(LimitReason), None))
    else if Conflicts(l, RowData(item, schema), schema.key) then
      StepResult(l, SyncOutcome(c, Duplicate, Some(DuplicateReason), None))
    else if env.fault.CreateFails? then
      StepResult(l, SyncOutcome(c, Refused, Some(ErrorReason(env.fault.message)), None))
    else
      StepResult(l + [NewRow(l, item, env, schema)], SyncOutcome(c, Accepted, None, Some(|l|)))
  }

  datatype BatchResult = BatchResult(ledger: Ledger, outcomes: seq<SyncOutcome>)

  type StepFn = (Ledger, Dtos.SyncEntryDto, ItemEnv) -> StepResult

  /** Running a per-item step over a batch, each item seeing the ledger the items
      before it left. */
  function Fold(l: Ledger, batch: seq<Dtos.SyncEntryDto>, envs: seq<ItemEnv>, step: StepFn): (r: BatchResult)
    requires |envs| == |batch|
    ensures |r.outcomes| == |batch|
    decreases |batch|
  {
    if batch == [] then BatchResult(l, [])
    else
      var s := step(l, batch[0], envs[0]);
      var rest := Fold(s.ledger, batch[1..], envs[1..], step);
      BatchResult(rest.ledger, [s.outcome] + rest.outcomes)
  }

  /** A step that echoes its item's client id and only ever extends the ledger. */
  ghost predicate KeepsShape(step: StepFn) {
    forall l, x, e :: step(l, x, e).outcome.clientId == x.clientId && l <= step(l, x, e).ledger
  }

  lemma {:induction false} FoldShape(l: Ledger, batch: seq<Dtos.SyncEntryDto>, envs: seq<ItemEnv>, step: StepFn)
    requires |envs| == |batch| && KeepsShape(step)
    ensures forall i :: 0 <= i < |batch| ==> Fold(l, batch, envs, step).outcomes[i].clientId == batch[i].clientId
    ensures l <= Fold(l, batch, envs, step).ledger
    decreases |batch|
  {
    if batch != [] {
      var s := step(l, batch[0], envs[0]);
      FoldShape(s.ledger, batch[1..], envs[1..], step);
      var rest := Fold(s.ledger, batch[1..], envs[1..], step);
      forall i | 1 <= i < |batch|
        ensures Fold(l, batch, envs, step).outcomes[i].clientId == batch[i].clientId
      {
        assert Fold(l, batch, envs, step).outcomes[i] == rest.outcomes[i - 1];
      }
    }
  }

  /** Folding is sequential: a batch is its first part followed by the rest, the
      rest starting from the ledger the first part left. */
  lemma {:induction false} FoldSplit(l: Ledger, a: seq<Dtos.SyncEntryDto>, b: seq<Dtos.SyncEntryDto>,
                                     ea: seq<ItemEnv>, eb: seq<ItemEnv>, step: StepFn)
    requires |ea| == |a| && |eb| == |b|
    ensures var r1 := Fold(l, a, ea, step);
      var r2 := Fold(r1.ledger, b, eb, step);
      Fold(l, a + b, ea + eb, step) == BatchResult(r2.ledger, r1.outcomes + r2.outcomes)
    decreases |a|
  {
    if a == [] {
      assert a + b == b && ea + eb == eb;
    } else {
      var s := step(l, a[0], ea[0]);
      assert (a + b)[1..] == a[1..] + b;
      assert (ea + eb)[1..] == ea[1..] + eb;
      FoldSplit(s.ledger, a[1..], b, ea[1..], eb, step);
      var tail1 := Fold(s.ledger, a[1..], ea[1..], step);
      var r2 := Fold(tail1.ledger, b, eb, step);
      assert [s.outcome] + (tail1.outcomes + r2.outcomes) == ([s.outcome] + tail1.outcomes) + r2.outcomes;
    }
  }

  function StepOf<K(==)>(schema: Schema<K>): StepFn {
    (l, x, e) => Step(l, x, e, schema)
  }

  lemma StepKeepsShape<K>(schema: Schema<K>)
    ensures KeepsShape(StepOf(schema))
  {
  }

  /** The whole batch, item by item, each item seeing the rows inserted for the
      items before it. */
  function Process<K(==)>(l: Ledger, batch: seq<Dtos.SyncEntryDto>, envs: seq<ItemEnv>, schema: Schema<K>): (r: BatchResult)
    requires |envs| == |batch|
    ensures |r.outcomes| == |batch|
    ensures forall i :: 0 <= i < |batch| ==> r.outcomes[i].clientId == batch[i].clientId
    ensures l <= r.ledger
  {
    StepKeepsShape(schema);
    FoldShape(l, batch, envs, StepOf(schema));
    Fold(l, batch, envs, StepOf(schema))
  }

  // ---------------------------------------------------------------------------
  // The cascade, step by step

  predicate IsReplay(l: Ledger, item: Dtos.SyncEntryDto) {
    item.clientId != "" && ClientIdTaken(l, item.clientId)
  }

  /** Step 1: a known non-empty client id returns the stored row, whatever the
      quota or the content, and inserts nothing. */
  lemma ReplayShortCircuits<K>(l: Ledger, item: Dtos.SyncEntryDto, env: ItemEnv, schema: Schema<K>, i: nat)
    requires IsReplay(l, item) && !env.fault.LookupFails?
    requires ValidLedger(l, schema.key)
    requires i < |l| && l[i].data.clientId == item.clientId
    ensures Step(l, item, env, schema)
         == StepResult(l, SyncOutcome(item.clientId, MapStatusToResponse(l[i].status), Some(AlreadyProcessed), Some(i)))
  {
    var j := FindByClientId(l, item.clientId).value;
    assert j == i;
  }

  /** Step 2: with the quota used up, an item that is not a replay is refused and
      inserts nothing. */
  lemma QuotaRefuses<K>(l: Ledger, item: Dtos.SyncEntryDto, env: ItemEnv, schema: Schema<K>)
    requires !IsReplay(l, item)
    requires env.fault.NoFault? || env.fault.CreateFails?
    requires CountInWindow(l, ItemTriple(item), env.today) >= DailyLimit
    ensures Step(l, item, env, schema) == StepResult(l, SyncOutcome(item.clientId, LimitExceeded, Some(LimitReason), None))
  {
  }

  /** The store fault, if any, hits one of the calls this item actually makes
      (the client-id lookup is made only for a non-empty client id). */
  predicate FaultHits(item: Dtos.SyncEntryDto, env: ItemEnv) {
    !env.fault.NoFault? && !(env.fault.LookupFails? && item.clientId == "")
  }

  /** Step 3: a fresh item under the quota is inserted as pending, with exactly the
      submitted values, exactly when it breaks no unique constraint and the store
      does not fail. */
  lemma InsertsExactlyWhen<K>(l: Ledger, item: Dtos.SyncEntryDto, env: ItemEnv, schema: Schema<K>)
    ensures var r := Step(l, item, env, schema);
      (r.ledger != l) <==>
        (&& !IsReplay(l, item)
         && !FaultHits(item, env)
         && CountInWindow(l, ItemTriple(item), env.today) < DailyLimit
         && !Conflicts(l, RowData(item, schema), schema.key))
    ensures var r := Step(l, item, env, schema);
      r.ledger != l ==>
        && |r.ledger| == |l| + 1
        && r.ledger[|l|].status == Pending
        && r.ledger[|l|].data == RowData(item, schema)
        && r.outcome.id == Some(r.ledger[|l|].id)
  {
    var c := item.clientId;
    if c != "" {
      assert FindByClientId(l, c).Some? <==> ClientIdTaken(l, c);
    }
  }

  /** An outcome is a fresh acceptance (accepted, with no reason) exactly when the
      item inserted a row; a replay reported as accepted always carries a reason. */
  lemma FreshAcceptIffInsert<K>(l: Ledger, item: Dtos.SyncEntryDto, env: ItemEnv, schema: Schema<K>)
    ensures var r := Step(l, item, env, schema);
      (r.outcome.status == Accepted && r.outcome.reason.None?) <==> r.ledger != l
  {
  }

  /** Step 3, conflicting branch: a unique-constraint violation (a reused client id,
      including a second empty one, or a content collision) is a duplicate. */
  lemma ConflictIsDuplicate<K>(l: Ledger, item: Dtos.SyncEntryDto, env: ItemEnv, schema: Schema<K>)
    requires !IsReplay(l, item)
    requires env.fault.NoFault? || env.fault.CreateFails?
    requires CountInWindow(l, ItemTriple(item), env.today) < DailyLimit
    requires Conflicts(l, RowData(item, schema), schema.key)
    ensures Step(l, item, env, schema) == StepResult(l, SyncOutcome(item.clientId, Duplicate, Some(DuplicateReason), None))
  {
  }

  /** Step 4: any other store error is a rejection carrying the error's message,
      or the fixed internal-error text when the message is empty. */
  lemma OtherErrorIsRejection<K>(l: Ledger, item: Dtos.SyncEntryDto, env: ItemEnv, schema: Schema<K>)
    requires !IsReplay(l, item)
    requires env.fault.CreateFails?
    requires CountInWindow(l, ItemTriple(item), env.today) < DailyLimit
    requires !Conflicts(l, RowData(item, schema), schema.key)
    ensures Step(l, item, env, schema)
         == StepResult(l, SyncOutcome(item.clientId, Refused, Some(ErrorReason(env.fault.message)), None))
    ensures env.fault.message == "" ==> Step(l, item, env, schema).outcome.reason == Some(InternalError)
  {
  }

  /** An empty client id is never looked up: a second entry with an empty client id
      reaches the insert and is refused there by the client-id constraint. */
  lemma EmptyClientIdIsNotReplayed<K>(l: Ledger, item: Dtos.SyncEntryDto, env: ItemEnv, schema: Schema<K>)
    requires item.clientId == "" && ClientIdTaken(l, "")
    requires env.fault.NoFault?
    requires CountInWindow(l, ItemTriple(item), env.today) < DailyLimit
    ensures Step(l, item, env, schema).outcome.status == Duplicate
    ensures Step(l, item, env, schema).outcome.reason != Some(AlreadyProcessed)
  {
  }

  /** Resending an item that was just accepted returns the same id as an accepted
      replay and inserts nothing: a retry after a lost response is safe. */
  lemma ResendIsIdempotent<K>(l: Ledger, item: Dtos.SyncEntryDto, env1: ItemEnv, env2: ItemEnv, schema: Schema<K>)
    requires item.clientId != ""
    requires !env2.fault.LookupFails?
    requires Step(l, item, env1, schema).ledger != l
    ensures var l1 := Step(l, item, env1, schema).ledger;
      && Step(l, item, env1, schema).outcome.id == Some(|l|)
      && Step(l1, item, env2, schema)
         == StepResult(l1, SyncOutcome(item.clientId, Accepted, Some(AlreadyProcessed), Some(|l|)))
  {
    var l1 := Step(l, item, env1, schema).ledger;
    InsertsExactlyWhen(l, item, env1, schema);
    assert !ClientIdTaken(l, item.clientId);
    assert l1[|l|].data.clientId == item.clientId;
    var j := FindByClientId(l1, item.clientId).value;
    assert j == |l|;
  }

  // ---------------------------------------------------------------------------
  // Properties of a whole batch

  /** A non-empty batch is its first item's step followed by the rest. */
  lemma ProcessCons<K>(l: Ledger, batch: seq<Dtos.SyncEntryDto>, envs: seq<ItemEnv>, schema: Schema<K>)
    requires |envs| == |batch| && batch != []
    ensures var s := Step(l, batch[0], envs[0], schema);
      var rest := Process(s.ledger, batch[1..], envs[1..], schema);
      Process(l, batch, envs, schema) == BatchResult(rest.ledger, [s.outcome] + rest.outcomes)
  {
  }

  /** Processing is sequential: a batch is its first part followed by the rest,
      the rest starting from the ledger the first part left. */
  lemma ProcessSplit<K>(l: Ledger, a: seq<Dtos.SyncEntryDto>, b: seq<Dtos.SyncEntryDto>,
                        ea: seq<ItemEnv>, eb: seq<ItemEnv>, schema: Schema<K>)
    requires |ea| == |a| && |eb| == |b|
    ensures var r1 := Process(l, a, ea, schema);
      var r2 := Process(r1.ledger, b, eb, schema);
      Process(l, a + b, ea + eb, schema) == BatchResult(r2.ledger, r1.outcomes + r2.outcomes)
  {
    FoldSplit(l, a, b, ea, eb, StepOf(schema));
  }

  /** The unique constraints and the id numbering survive every batch. */
  lemma {:induction false} ProcessKeepsValid<K>(l: Ledger, batch: seq<Dtos.SyncEntryDto>, envs: seq<ItemEnv>, schema: Schema<K>)
    requires |envs| == |batch|
    requires ValidLedger(l, schema.key)
    ensures ValidLedger(Process(l, batch, envs, schema).ledger, schema.key)
    decreases |batch|
  {
    if batch != [] {
      var s := Step(l, batch[0], envs[0], schema);
      if s.ledger != l {
        InsertsExactlyWhen(l, batch[0], envs[0], schema);
        AppendKeepsValid(l, schema.key, NewRow(l, batch[0], envs[0], schema));
      }
      ProcessKeepsValid(s.ledger, batch[1..], envs[1..], schema);
    }
  }

  function Max(a: nat, b: nat): nat {
    if a >= b then a else b
  }

  /** One item never lifts a triple's in-window count above three, unless it was
      already above three. */
  lemma StepQuotaBound<K>(l: Ledger, item: Dtos.SyncEntryDto, env: ItemEnv, schema: Schema<K>, t: Triple)
    ensures CountInWindow(Step(l, item, env, schema).ledger, t, env.today) <= Max(DailyLimit, CountInWindow(l, t, env.today))
  {
    var s := Step(l, item, env, schema);
    if s.ledger != l {
      InsertsExactlyWhen(l, item, env, schema);
      var e := NewRow(l, item, env, schema);
      CountAppend(l, e, t, env.today);
      if CountsToward(e, t, env.today) {
        assert ItemTriple(item) == t;
      }
    }
  }

  /** Over a batch processed within one day, every triple's in-window count ends at
      most at the larger of three and its starting value. */
  lemma {:induction false} ProcessQuotaBound<K>(l: Ledger, batch: seq<Dtos.SyncEntryDto>, envs: seq<ItemEnv>, schema: Schema<K>, t: Triple, w: Window)
    requires |envs| == |batch|
    requires forall i :: 0 <= i < |envs| ==> envs[i].today == w
    ensures CountInWindow(Process(l, batch, envs, schema).ledger, t, w) <= Max(DailyLimit, CountInWindow(l, t, w))
    decreases |batch|
  {
    if batch != [] {
      var s := Step(l, batch[0], envs[0], schema);
      StepQuotaBound(l, batch[0], envs[0], schema, t);
      ProcessQuotaBound(s.ledger, batch[1..], envs[1..], schema, t, w);
    }
  }

  predicate IsFreshAccept(o: SyncOutcome) {
    o.status == Accepted && o.reason.None?
  }

  /** When every item of a batch is freshly accepted and is an entry of triple `t`
      captured inside `w`, the count of `t` in `w` grows by the batch's length. */
  lemma {:induction false} AcceptedBatchCounts<K>(l: Ledger, batch: seq<Dtos.SyncEntryDto>, envs: seq<ItemEnv>, schema: Schema<K>, t: Triple, w: Window)
    requires |envs| == |batch|
    requires forall i :: 0 <= i < |batch| ==> IsFreshAccept(Process(l, batch, envs, schema).outcomes[i])
    requires forall i :: 0 <= i < |batch| ==> ItemTriple(batch[i]) == t && InWindow(schema.instantOf(batch[i].capturedAt), w)
    ensures CountInWindow(Process(l, batch, envs, schema).ledger, t, w) == CountInWindow(l, t, w) + |batch|
    decreases |batch|
  {
    if batch != [] {
      var s := Step(l, batch[0], envs[0], schema);
      var rest := Process(s.ledger, batch[1..], envs[1..], schema);
      assert Process(l, batch, envs, schema).outcomes == [s.outcome] + rest.outcomes;
      assert IsFreshAccept(s.outcome);
      FreshAcceptIffInsert(l, batch[0], envs[0], schema);
      CountAppend(l, NewRow(l, batch[0], envs[0], schema), t, w);
      forall i | 0 <= i < |batch[1..]|
        ensures IsFreshAccept(rest.outcomes[i])
      {
        assert rest.outcomes[i] == Process(l, batch, envs, schema).outcomes[i + 1];
      }
      AcceptedBatchCounts(s.ledger, batch[1..], envs[1..], schema, t, w);
    }
  }

  /** A batch adds to the ledger no client id other than its items' own. */
  lemma {:induction false} ProcessClientIds<K>(l: Ledger, batch: seq<Dtos.SyncEntryDto>, envs: seq<ItemEnv>, schema: Schema<K>, c: string)
    requires |envs| == |batch|
    requires forall i :: 0 <= i < |batch| ==> batch[i].clientId != c
    ensures ClientIdTaken(Process(l, batch, envs, schema).ledger, c) <==> ClientIdTaken(l, c)
    decreases |batch|
  {
    if batch != [] {
      var s := Step(l, batch[0], envs[0], schema);
      if s.ledger != l {
        var l' := s.ledger;
        InsertsExactlyWhen(l, batch[0], envs[0], schema);
        if ClientIdTaken(l', c) {
          var i :| 0 <= i < |l'| && l'[i].data.clientId == c;
          assert i < |l|;
          assert l[i] == l'[i];
        }
        if ClientIdTaken(l, c) {
          var i :| 0 <= i < |l| && l[i].data.clientId == c;
          assert l'[i] == l[i];
        }
      }
      ProcessClientIds(s.ledger, batch[1..], envs[1..], schema, c);
    }
  }

  /** Rows inserted for earlier items of the same batch count toward the quota of
      later ones: after three accepted entries of one triple captured today, a
      fourth entry of that triple (not a replay) is refused. */
  lemma FourthOfTripleRefused<K>(l: Ledger, batch: seq<Dtos.SyncEntryDto>, envs: seq<ItemEnv>, schema: Schema<K>, w: Window)
    requires |batch| == 4 && |envs| == 4
    requires forall i :: 0 <= i < 4 ==> envs[i].today == w
    requires forall i :: 0 <= i < 4 ==> ItemTriple(batch[i]) == ItemTriple(batch[3])
    requires forall i :: 0 <= i < 3 ==> InWindow(schema.instantOf(batch[i].capturedAt), w)
    requires forall i :: 0 <= i < 3 ==> IsFreshAccept(Process(l, batch, envs, schema).outcomes[i])
    requires batch[3].clientId != "" ==> forall i :: 0 <= i < 3 ==> batch[i].clientId != batch[3].clientId
    requires batch[3].clientId != "" ==> !ClientIdTaken(l, batch[3].clientId)
    requires envs[3].fault.NoFault? || envs[3].fault.CreateFails?
    ensures Process(l, batch, envs, schema).outcomes[3] == SyncOutcome(batch[3].clientId, LimitExceeded, Some(LimitReason), None)
  {
    var a, b := batch[..3], batch[3..];
    var ea, eb := envs[..3], envs[3..];
    assert a + b == batch && ea + eb == envs;
    ProcessSplit(l, a, b, ea, eb, schema);
    var r1 := Process(l, a, ea, schema);
    var t := ItemTriple(batch[3]);
    forall i | 0 <= i < 3
      ensures IsFreshAccept(r1.outcomes[i])
    {
      assert r1.outcomes[i] == Process(l, batch, envs, schema).outcomes[i];
    }
    AcceptedBatchCounts(l, a, ea, schema, t, w);
    if batch[3].clientId != "" {
      ProcessClientIds(l, a, ea, schema, batch[3].clientId);
    }
    QuotaRefuses(r1.ledger, batch[3], envs[3], schema);
    assert b[1..] == [];
  }

  /** Fresh acceptances are the outcomes with status accepted and no reason (a
      replay always carries one). */
  function FreshAccepts(outs: seq<SyncOutcome>): nat {
    if outs == [] then 0
    else (if IsFreshAccept(outs[0]) then 1 else 0) + FreshAccepts(outs[1..])
  }

  /** The ledger grows by exactly one row per fresh acceptance and every new row is
      pending; the rows that were there are untouched (`Process` keeps the old
      ledger as a prefix). */
  lemma {:induction false} ProcessGrowth<K>(l: Ledger, batch: seq<Dtos.SyncEntryDto>, envs: seq<ItemEnv>, schema: Schema<K>)
    requires |envs| == |batch|
    ensures var r := Process(l, batch, envs, schema);
      && |r.ledger| == |l| + FreshAccepts(r.outcomes)
      && (forall i :: |l| <= i < |r.ledger| ==> r.ledger[i].status == Pending)
    decreases |batch|
  {
    if batch != [] {
      var s := Step(l, batch[0], envs[0], schema);
      var rest := Process(s.ledger, batch[1..], envs[1..], schema);
      ProcessGrowth(s.ledger, batch[1..], envs[1..], schema);
      FreshAcceptIffInsert(l, batch[0], envs[0], schema);
      var outs := [s.outcome] + rest.outcomes;
      assert outs[1..] == rest.outcomes;
      if s.ledger != l {
        assert s.ledger[|l|].status == Pending;
        assert s.ledger <= rest.ledger;
      }
    }
  }

  // ---------------------------------------------------------------------------
  // The loop of the service

  /** The service's loop: one outcome per input, in input order, each echoing its
      input's client id, computed item by item against the growing ledger. */
  method SyncEntries<K(==)>(l: Ledger, batch: seq<Dtos.SyncEntryDto>, envs: seq<ItemEnv>, schema: Schema<K>)
    returns (ledger: Ledger, outcomes: seq<SyncOutcome>)
    requires |envs| == |batch|
    ensures BatchResult(ledger, outcomes) == Process(l, batch, envs, schema)
    ensures |outcomes| == |batch|
    ensures forall i :: 0 <= i < |batch| ==> outcomes[i].clientId == batch[i].clientId
    ensures l <= ledger
  {
    ledger := l;
    outcomes := [];
    var i := 0;
    while i < |batch|
      invariant 0 <= i <= |batch|
      invariant Process(l, batch[..i], envs[..i], schema) == BatchResult(ledger, outcomes)
    {
      var s := Step(ledger, batch[i], envs[i], schema);
      ProcessSplit(l, batch[..i], [batch[i]], envs[..i], [envs[i]], schema);
      ProcessCons(ledger, [batch[i]], [envs[i]], schema);
      assert Process(ledger, [batch[i]], [envs[i]], schema) == BatchResult(s.ledger, [s.outcome]);
      assert batch[..i] + [batch[i]] == batch[..i + 1];
      assert envs[..i] + [envs[i]] == envs[..i + 1];
      ledger := s.ledger;
      outcomes := outcomes + [s.outcome];
      i := i + 1;
    }
    assert batch[..i] == batch && envs[..i] == envs;
  }
}
