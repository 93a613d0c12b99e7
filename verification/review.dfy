/** The admin side of the ledger (`EntriesService.getPendingEntries` and
    `EntriesService.validateEntry`): listing the rows awaiting review, newest
    first and one page at a time, and recording a decision on one row together
    with an audit record of it. */
module Review {
  import opened Common
  import Dtos
  import opened PriceLedger

  /** One audit record: which row, who decided, what, and why. */
  datatype Validation = Validation(entryId: nat, adminId: string, decision: Dtos.Decision, reason: Option<string>)

  datatype ReviewError = NotFound(message: string) | InvalidPage

  const EntryNotFound := "Entry not found"

  /** The ledger and the audit log after a decision, with the updated row as the
      service returns it. */
  datatype Reviewed = Reviewed(ledger: Ledger, audit: seq<Validation>, updated: PriceEntry)

  // ---------------------------------------------------------------------------
  // Recording a decision

  /** The status a decision gives a row. */
  function StatusFor(d: Dtos.Decision): (s: EntryStatus)
    ensures s != Pending
    ensures s == Validated <==> d == Dtos.Validated
    ensures s == Rejected <==> d == Dtos.Rejected
  {
    match d
    case Validated => Validated
    case Rejected => Rejected
  }

  /** An unknown id is refused and changes nothing; otherwise the row with that id
      takes the decision's status, every other row stays as it was, and exactly one
      audit record is appended. */
  function ValidateEntry(l: Ledger, audit: seq<Validation>, entryId: nat, decision: Dtos.Decision,
                         reason: Option<string>, adminId: string): (r: Result<Reviewed, ReviewError>)
    ensures r.Failure? <==> forall i :: 0 <= i < |l| ==> l[i].id != entryId
    ensures r.Failure? ==> r.error == NotFound(EntryNotFound)
    ensures r.Success? ==>
      && |r.value.ledger| == |l|
      && r.value.audit == audit + [Validation(entryId, adminId, decision, reason)]
      && r.value.updated.id == entryId
      && r.value.updated.data == FindRow(l, entryId).data
      && r.value.updated.createdAt == FindRow(l, entryId).createdAt
      && r.value.updated.status == StatusFor(decision)
      && r.value.updated in r.value.ledger
      && (forall j :: 0 <= j < |l| ==> r.value.ledger[j].id == l[j].id && r.value.ledger[j].data == l[j].data)
      && (forall j :: 0 <= j < |l| && r.value.ledger[j] != l[j] ==> r.value.ledger[j] == r.value.updated)
  {
    match FindById(l, entryId)
    case None => Failure(NotFound(EntryNotFound))
    case Some(i) =>
      var updated := l[i].(status := StatusFor(decision));
      assert l[i := updated][i] == updated;
      Success(Reviewed(l[i := updated], audit + [Validation(entryId, adminId, decision, reason)], updated))
  }

  /** The row a known id names (the first one carrying it). */
  function FindRow(l: Ledger, entryId: nat): (e: PriceEntry)
    requires exists i :: 0 <= i < |l| && l[i].id == entryId
    ensures e in l && e.id == entryId
  {
    l[FindById(l, entryId).value]
  }

  /** In a valid ledger only the named row changes; every other row, including its
      status, is untouched. */
  lemma ValidateTouchesOnlyThatRow<K>(l: Ledger, key: EntryData -> K, audit: seq<Validation>, entryId: nat,
                                     decision: Dtos.Decision, reason: Option<string>, adminId: string)
    requires ValidLedger(l, key)
    requires entryId < |l|
    ensures var r := ValidateEntry(l, audit, entryId, decision, reason, adminId);
      && r.Success?
      && r.value.ledger[entryId].status == StatusFor(decision)
      && (forall j :: 0 <= j < |l| && j != entryId ==> r.value.ledger[j] == l[j])
  {
    assert l[entryId].id == entryId;
    var i := FindById(l, entryId).value;
    assert i == entryId;
  }

  /** Deciding keeps ids, client ids and contents, so the store's constraints
      still hold. */
  lemma ValidateKeepsValid<K>(l: Ledger, key: EntryData -> K, audit: seq<Validation>, entryId: nat,
                              decision: Dtos.Decision, reason: Option<string>, adminId: string)
    requires ValidLedger(l, key)
    ensures var r := ValidateEntry(l, audit, entryId, decision, reason, adminId);
      r.Success? ==> ValidLedger(r.value.ledger, key)
  {
  }

  /** A second identical decision leaves the ledger as the first one left it but
      appends a second audit record: deciding is not idempotent on the audit log. */
  lemma RepeatDecisionAppendsAgain(l: Ledger, audit: seq<Validation>, entryId: nat,
                                   decision: Dtos.Decision, reason: Option<string>, adminId: string)
    requires ValidateEntry(l, audit, entryId, decision, reason, adminId).Success?
    ensures var r1 := ValidateEntry(l, audit, entryId, decision, reason, adminId).value;
      var r2 := ValidateEntry(r1.ledger, r1.audit, entryId, decision, reason, adminId);
      && r2.Success?
      && r2.value.ledger == r1.ledger
      && |r2.value.audit| == |audit| + 2
      && r2.value.audit[|audit|] == r2.value.audit[|audit| + 1]
  {
    var r1 := ValidateEntry(l, audit, entryId, decision, reason, adminId).value;
    var i := FindById(l, entryId).value;
    var j := FindById(r1.ledger, entryId).value;
    assert r1.ledger[i].id == entryId;
    assert forall k :: 0 <= k < |l| ==> r1.ledger[k].id == l[k].id;
    assert j == i;
  }

  // ---------------------------------------------------------------------------
  // Listing pending rows

  predicate NewestFirst(s: seq<PriceEntry>) {
    forall i, j :: 0 <= i < j < |s| ==> s[i].createdAt >= s[j].createdAt
  }

  /** The pending rows, in ledger order. */
  function PendingRows(l: Ledger): (r: seq<PriceEntry>)
    ensures forall e :: e in r <==> e in l && e.status == Pending
    ensures |r| <= |l|
  {
    if l == [] then []
    else (if l[0].status == Pending then [l[0]] else []) + PendingRows(l[1..])
  }

  /** Places a row in a newest-first sequence, ahead of the rows with the same
      creation time. */
  function InsertByDate(e: PriceEntry, s: seq<PriceEntry>): (r: seq<PriceEntry>)
    requires NewestFirst(s)
    ensures NewestFirst(r)
    ensures multiset(r) == multiset(s) + multiset{e}
    ensures |r| == |s| + 1
    ensures r[0] == e || (s != [] && r[0] == s[0])
  {
    if s == [] || e.createdAt >= s[0].createdAt then [e] + s
    else
      assert s == [s[0]] + s[1..];
      [s[0]] + InsertByDate(e, s[1..])
  }

  /** Orders rows newest first; rows created at the same instant keep their
      relative order. */
  function SortNewestFirst(s: seq<PriceEntry>): (r: seq<PriceEntry>)
    ensures NewestFirst(r)
    ensures multiset(r) == multiset(s)
    ensures |r| == |s|
  {
    if s == [] then []
    else
      assert s == [s[0]] + s[1..];
      InsertByDate(s[0], SortNewestFirst(s[1..]))
  }

  /** The rows `[skip, skip + take)` of a sequence, clipped to its end. */
  function Slice(s: seq<PriceEntry>, skip: nat, take: nat): (r: seq<PriceEntry>)
    ensures |r| <= take
    ensures skip < |s| ==> |r| == if skip + take <= |s| then take else |s| - skip
    ensures forall k :: 0 <= k < |r| ==> skip + k < |s| && r[k] == s[skip + k]
  {
    if skip >= |s| then []
    else if skip + take <= |s| then s[skip..skip + take]
    else s[skip..]
  }

  /** The controller's reading of a numeric query parameter, `Number(x) || d`:
      an absent, non-numeric (NaN) or zero value falls back to the default, and
      any other number is kept as it is, a negative or fractional one included.
      `q` is the parameter read as a number, `None` when absent or NaN. */
  function QueryOr(q: Option<real>, default: int): (r: real)
    ensures default != 0 ==> r != 0.0
    ensures q.Some? && q.value != 0.0 ==> r == q.value
    ensures q.None? || q.value == 0.0 ==> r == default as real
  {
    if q.None? || q.value == 0.0 then default as real else q.value
  }

  /** Page `page` of the pending rows, newest first, `limit` rows to a page: the
      rows from offset `(page - 1) * limit` on, at most `limit` of them. A
      negative offset is refused by the store. */
  function GetPendingEntries(l: Ledger, page: int, limit: int): (r: Result<seq<PriceEntry>, ReviewError>)
    ensures r.Failure? <==> limit < 0 || (page - 1) * limit < 0
    ensures r.Success? ==> r.value == Slice(SortNewestFirst(PendingRows(l)), (page - 1) * limit, limit)
    ensures r.Success? ==>
      && |r.value| <= limit
      && NewestFirst(r.value)
      && (forall e :: e in r.value ==> e in l && e.status == Pending)
  {
    var skip := (page - 1) * limit;
    if limit < 0 || skip < 0 then Failure(InvalidPage)
    else
      var ordered := SortNewestFirst(PendingRows(l));
      var r := Slice(ordered, skip, limit);
      assert forall e :: e in r ==> e in multiset(ordered);
      Success(r)
  }

  /** Position `k` lies on the page whose offset is `k` rounded down to a multiple
      of the page size. */
  lemma PageOf(k: nat, limit: int)
    requires limit > 0
    ensures 0 <= (k / limit) * limit <= k < (k / limit) * limit + limit
  {
    assert k == (k / limit) * limit + k % limit;
  }

  predicate ListedOn(l: Ledger, page: int, limit: int, e: PriceEntry) {
    GetPendingEntries(l, page, limit).Success? && e in GetPendingEntries(l, page, limit).value
  }

  /** Every pending row is listed on some page, whatever the page size. */
  lemma PendingRowIsListed(l: Ledger, limit: int, i: nat)
    requires limit > 0
    requires i < |l| && l[i].status == Pending
    ensures exists page :: page >= 1 && ListedOn(l, page, limit, l[i])
  {
    var ordered := SortNewestFirst(PendingRows(l));
    PendingIsOrdered(l, l[i]);
    var k :| 0 <= k < |ordered| && ordered[k] == l[i];
    var page := k / limit + 1;
    PageBounds(k, limit, page);
    ListedOnPage(l, limit, k, page, l[i]);
  }

  lemma PendingIsOrdered(l: Ledger, e: PriceEntry)
    requires e in l && e.status == Pending
    ensures e in SortNewestFirst(PendingRows(l))
  {
    assert e in multiset(PendingRows(l));
  }

  lemma ListedOnPage(l: Ledger, limit: int, k: nat, page: int, e: PriceEntry)
    requires k < |SortNewestFirst(PendingRows(l))| && SortNewestFirst(PendingRows(l))[k] == e
    requires limit > 0 && page >= 1
    requires 0 <= (page - 1) * limit <= k < (page - 1) * limit + limit
    ensures ListedOn(l, page, limit, e)
  {
    var skip: nat := (page - 1) * limit;
    InSlice(SortNewestFirst(PendingRows(l)), skip, limit, k);
  }

  /** Page `k / limit + 1` starts at or before position `k` and ends after it. */
  lemma PageBounds(k: nat, limit: int, page: int)
    requires limit > 0 && page == k / limit + 1
    ensures page >= 1
    ensures 0 <= (page - 1) * limit <= k < (page - 1) * limit + limit
  {
    PageOf(k, limit);
    assert page - 1 == k / limit;
  }

  /** A position inside `[skip, skip + take)` is in that slice. */
  lemma InSlice(s: seq<PriceEntry>, skip: nat, take: nat, k: nat)
    requires skip <= k < skip + take && k < |s|
    ensures s[k] in Slice(s, skip, take)
  {
    var r := Slice(s, skip, take);
    assert r[k - skip] == s[k];
  }

  /** Once decided, a row is listed on no page. */
  lemma DecidedRowIsNotListed<K>(l: Ledger, key: EntryData -> K, audit: seq<Validation>, entryId: nat,
                                 decision: Dtos.Decision, reason: Option<string>, adminId: string,
                                 page: int, limit: int)
    requires ValidLedger(l, key)
    requires ValidateEntry(l, audit, entryId, decision, reason, adminId).Success?
    ensures var l' := ValidateEntry(l, audit, entryId, decision, reason, adminId).value.ledger;
      GetPendingEntries(l', page, limit).Success? ==>
        forall e :: e in GetPendingEntries(l', page, limit).value ==> e.id != entryId
  {
    var r := ValidateEntry(l, audit, entryId, decision, reason, adminId).value;
    ValidateKeepsValid(l, key, audit, entryId, decision, reason, adminId);
    ValidateTouchesOnlyThatRow(l, key, audit, entryId, decision, reason, adminId);
    var l' := r.ledger;
    if GetPendingEntries(l', page, limit).Success? {
      forall e | e in GetPendingEntries(l', page, limit).value
        ensures e.id != entryId
      {
        var k :| 0 <= k < |l'| && l'[k] == e;
        assert l'[k].id == k;
      }
    }
  }
}
