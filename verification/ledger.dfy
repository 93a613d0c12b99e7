/** The price-entry ledger: the rows the sync pipeline inserts and the admin review
    updates, together with the lookups both of them make (by client id, by entry id,
    and the per-agent/product/market count inside a time window).

    Rows are never deleted, so an entry's id is its position in the ledger. The
    database's content-uniqueness constraint is not visible in the repository; it
    is a key function `key` chosen by the caller, and `ValidLedger` states the two
    unique constraints the store enforces (client id, and that key). */
module PriceLedger {
  import opened Common
  import Dtos

  datatype EntryStatus = Pending | Validated | Rejected

  /** The submitted fields of a row, with the capture time already read as an
      instant (milliseconds). */
  datatype EntryData = EntryData(
    clientId: string,
    agentId: string,
    productId: string,
    marketId: string,
    unit: Dtos.Unit,
    priceValue: real,
    currency: string,
    photoUrl: Option<string>,
    lat: real,
    lon: real,
    capturedAt: int)

  datatype PriceEntry = PriceEntry(id: nat, data: EntryData, status: EntryStatus, createdAt: int)

  type Ledger = seq<PriceEntry>

  /** The agent/product/market combination the daily quota is counted over. */
  datatype Triple = Triple(agentId: string, productId: string, marketId: string)

  function TripleOf(d: EntryData): Triple {
    Triple(d.agentId, d.productId, d.marketId)
  }

  /** A half-open interval of instants `[start, end)`. */
  datatype Window = Window(start: int, end: int)

  predicate InWindow(t: int, w: Window) {
    w.start <= t < w.end
  }

  predicate CountsToward(e: PriceEntry, t: Triple, w: Window) {
    TripleOf(e.data) == t && InWindow(e.data.capturedAt, w)
  }

  /** The number of rows of the triple whose capture time lies in the window. */
  function CountInWindow(l: Ledger, t: Triple, w: Window): (n: nat)
    ensures n <= |l|
  {
    if l == [] then 0
    else CountInWindow(l[..|l| - 1], t, w) + (if CountsToward(l[|l| - 1], t, w) then 1 else 0)
  }

  lemma CountAppend(l: Ledger, e: PriceEntry, t: Triple, w: Window)
    ensures CountInWindow(l + [e], t, w) == CountInWindow(l, t, w) + (if CountsToward(e, t, w) then 1 else 0)
  {
    assert (l + [e])[..|l|] == l;
  }

  /** The index of the (first) row carrying client id `c`. */
  function FindByClientId(l: Ledger, c: string): (r: Option<nat>)
    ensures r.None? <==> forall i :: 0 <= i < |l| ==> l[i].data.clientId != c
    ensures r.Some? ==> r.value < |l| && l[r.value].data.clientId == c
    ensures r.Some? ==> forall j :: 0 <= j < r.value ==> l[j].data.clientId != c
  {
    if l == [] then None
    else if l[0].data.clientId == c then Some(0)
    else
      match FindByClientId(l[1..], c)
      case None => None
      case Some(i) => Some(i + 1)
  }

  /** The index of the row with entry id `id`. */
  function FindById(l: Ledger, id: nat): (r: Option<nat>)
    ensures r.None? <==> forall i :: 0 <= i < |l| ==> l[i].id != id
    ensures r.Some? ==> r.value < |l| && l[r.value].id == id
    ensures r.Some? ==> forall j :: 0 <= j < r.value ==> l[j].id != id
  {
    if l == [] then None
    else if l[0].id == id then Some(0)
    else
      match FindById(l[1..], id)
      case None => None
      case Some(i) => Some(i + 1)
  }

  predicate ClientIdTaken(l: Ledger, c: string) {
    exists i :: 0 <= i < |l| && l[i].data.clientId == c
  }

  predicate KeyTaken<K(==)>(l: Ledger, key: EntryData -> K, k: K) {
    exists i :: 0 <= i < |l| && key(l[i].data) == k
  }

  /** The unique constraints of the store hold and ids are positions. */
  predicate ValidLedger<K(==)>(l: Ledger, key: EntryData -> K) {
    && (forall i :: 0 <= i < |l| ==> l[i].id == i)
    && (forall i, j :: 0 <= i < j < |l| ==> l[i].data.clientId != l[j].data.clientId)
    && (forall i, j :: 0 <= i < j < |l| ==> key(l[i].data) != key(l[j].data))
  }

  /** Appending a row whose id is the next position and whose client id and key
      are both new keeps the ledger valid. */
  lemma AppendKeepsValid<K>(l: Ledger, key: EntryData -> K, e: PriceEntry)
    requires ValidLedger(l, key)
    requires e.id == |l|
    requires !ClientIdTaken(l, e.data.clientId)
    requires !KeyTaken(l, key, key(e.data))
    ensures ValidLedger(l + [e], key)
  {
    var l' := l + [e];
    forall i, j | 0 <= i < j < |l'|
      ensures l'[i].data.clientId != l'[j].data.clientId
      ensures key(l'[i].data) != key(l'[j].data)
    {
      if j == |l| {
        assert l'[i] == l[i];
      }
    }
  }
}
