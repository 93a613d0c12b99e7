/** The home screen's pure logic (`HomeScreen`): the relative "time ago" label,
    the product search, and the product-to-price table the product cards read.
    The clock and the date parser are parameters: a date string either reads as
    an instant in milliseconds or does not (an invalid date). */
module HomeScreen {
  import opened Common

  const JustNow := "à l'instant"
  const AverageLabel := "Moyenne (30j)"
  const MsPerMinute: int := 60000
  const MsPerHour: int := 3600000

  type DateParser = string -> Option<int>

  // ---------------------------------------------------------------------------
  // Time ago

  /** `il y a {hours}h`, `il y a {mins} min`, or just now; an absent or empty date
      gives the empty label. An unreadable date compares false against every
      bound, so it reads as just now. */
  function FormatTimeAgo(date: Option<string>, instantOf: DateParser, now: int): string {
    if date.None? || date.value == "" then ""
    else if instantOf(date.value).None? then JustNow
    else
      var diffMs := now - instantOf(date.value).value;
      var mins := diffMs / MsPerMinute;
      var hours := mins / 60;
      if hours > 0 then "il y a " + NatToString(hours) + "h"
      else if mins > 0 then "il y a " + NatToString(mins) + " min"
      else JustNow
  }

  /** Whole minutes, then whole hours of those minutes, are whole hours. */
  lemma HoursOfMinutes(d: int)
    ensures (d / MsPerMinute) / 60 == d / MsPerHour
  {
    var m := d / MsPerMinute;
    var h := m / 60;
    assert d == m * MsPerMinute + d % MsPerMinute;
    assert m == h * 60 + m % 60;
    assert d == h * MsPerHour + ((m % 60) * MsPerMinute + d % MsPerMinute);
    assert 0 <= (m % 60) * MsPerMinute + d % MsPerMinute < MsPerHour;
  }

  /** The label by elapsed time: hours from one hour on, minutes from one minute
      on, and just now below a minute, including for dates in the future. */
  lemma TimeAgoThresholds(date: string, instantOf: DateParser, now: int)
    requires date != "" && instantOf(date).Some?
    ensures var d := now - instantOf(date).value;
      var text := FormatTimeAgo(Some(date), instantOf, now);
      && (d >= MsPerHour ==> text == "il y a " + NatToString(d / MsPerHour) + "h")
      && (MsPerMinute <= d < MsPerHour ==> text == "il y a " + NatToString(d / MsPerMinute) + " min")
      && (d < MsPerMinute ==> text == JustNow)
  {
    var d := now - instantOf(date).value;
    HoursOfMinutes(d);
    if d >= MsPerHour {
      assert d / MsPerHour >= 1;
    } else if d >= MsPerMinute {
      assert d / MsPerMinute >= 1;
      assert d / MsPerMinute < 60;
    } else {
      assert d / MsPerMinute <= 0;
    }
  }

  lemma TimeAgoEdges(instantOf: DateParser, now: int, date: string)
    ensures FormatTimeAgo(None, instantOf, now) == ""
    ensures FormatTimeAgo(Some(""), instantOf, now) == ""
    ensures date != "" && instantOf(date).None? ==> FormatTimeAgo(Some(date), instantOf, now) == JustNow
  {
  }

  // ---------------------------------------------------------------------------
  // Search

  /** The white space `String.prototype.trim` removes: the ECMAScript white-space
      and line-terminator characters. */
  predicate IsJsWhitespace(c: char) {
    || c == '\t' || c == '\n' || c == '\U{000B}' || c == '\U{000C}' || c == '\r' || c == ' '
    || c == '\U{00A0}' || c == '\U{1680}' || ('\U{2000}' <= c <= '\U{200A}')
    || c == '\U{2028}' || c == '\U{2029}' || c == '\U{202F}' || c == '\U{205F}' || c == '\U{3000}'
    || c == '\U{FEFF}'
  }

  function TrimStart(s: string): (r: string)
    ensures |r| <= |s|
    ensures r == s[|s| - |r|..]
    ensures r != [] ==> !IsJsWhitespace(r[0])
    ensures forall i :: 0 <= i < |s| - |r| ==> IsJsWhitespace(s[i])
  {
    if s != [] && IsJsWhitespace(s[0]) then TrimStart(s[1..]) else s
  }

  function TrimEnd(s: string): (r: string)
    ensures |r| <= |s|
    ensures r == s[..|r|]
    ensures r != [] ==> !IsJsWhitespace(r[|r| - 1])
    ensures forall i :: |r| <= i < |s| ==> IsJsWhitespace(s[i])
  {
    if s != [] && IsJsWhitespace(s[|s| - 1]) then TrimEnd(s[..|s| - 1]) else s
  }

  function Trim(s: string): string {
    TrimEnd(TrimStart(s))
  }

  /** A query trims to nothing exactly when it is all white space. */
  lemma TrimEmptyIffBlank(s: string)
    ensures Trim(s) == "" <==> forall i :: 0 <= i < |s| ==> IsJsWhitespace(s[i])
  {
    if Trim(s) == "" {
      assert TrimStart(s) == [];
    }
  }

  datatype Product = Product(id: string, name: string, category: Option<string>)

  /** A product matches a query when its lower-cased name contains the
      lower-cased query (the query itself is not trimmed). */
  predicate NameMatches(p: Product, query: string) {
    Contains(Lower(p.name), Lower(query))
  }

  function FilterByName(products: seq<Product>, query: string): (r: seq<Product>)
    ensures |r| <= |products|
    ensures forall p :: p in r <==> p in products && NameMatches(p, query)
  {
    if products == [] then []
    else (if NameMatches(products[0], query) then [products[0]] else []) + FilterByName(products[1..], query)
  }

  /** The list shown: all products for a blank query, else the matching ones. */
  function FilteredProducts(products: seq<Product>, query: string): seq<Product> {
    if Trim(query) == "" then products else FilterByName(products, query)
  }

  /** `r` is `s` with some elements left out, in the same order. */
  predicate IsSubsequence<T(==)>(r: seq<T>, s: seq<T>)
    decreases |s|
  {
    if r == [] then true
    else if s == [] then false
    else if r[0] == s[0] then IsSubsequence(r[1..], s[1..])
    else IsSubsequence(r, s[1..])
  }

  lemma {:induction false} FilterIsSubsequence(products: seq<Product>, query: string)
    ensures IsSubsequence(FilterByName(products, query), products)
  {
    if products != [] {
      FilterIsSubsequence(products[1..], query);
      var rest := FilterByName(products[1..], query);
      if NameMatches(products[0], query) {
        assert FilterByName(products, query) == [products[0]] + rest;
        assert ([products[0]] + rest)[1..] == rest;
      } else {
        assert FilterByName(products, query) == rest;
        SubsequenceSkip(rest, products);
      }
    }
  }

  /** A subsequence of the tail is a subsequence of the whole. */
  lemma {:induction false} SubsequenceSkip<T>(r: seq<T>, s: seq<T>)
    requires s != [] && IsSubsequence(r, s[1..])
    ensures IsSubsequence(r, s)
    decreases |s|, |r|
  {
    if r != [] && r[0] == s[0] && |s| > 1 {
      SubsequenceTail(r, s[1..]);
    }
  }

  /** Dropping the first element of a subsequence keeps it a subsequence. */
  lemma {:induction false} SubsequenceTail<T>(r: seq<T>, s: seq<T>)
    requires r != [] && IsSubsequence(r, s)
    ensures IsSubsequence(r[1..], s)
    decreases |s|, |r|
  {
    if s != [] {
      if r[0] == s[0] {
        if r[1..] != [] {
          SubsequenceSkip(r[1..], s);
        }
      } else {
        SubsequenceTail(r, s[1..]);
        if r[1..] != [] {
          SubsequenceSkip(r[1..], s);
        }
      }
    }
  }

  /** A blank query shows every product; any other query shows, in their order,
      exactly the products whose lower-cased name has the lower-cased query as a
      substring. */
  lemma FilterSpec(products: seq<Product>, query: string)
    ensures (forall i :: 0 <= i < |query| ==> IsJsWhitespace(query[i])) ==> FilteredProducts(products, query) == products
    ensures (exists i :: 0 <= i < |query| && !IsJsWhitespace(query[i])) ==>
      && IsSubsequence(FilteredProducts(products, query), products)
      && forall p :: p in FilteredProducts(products, query) <==>
           p in products && Occurs(Lower(query), Lower(p.name))
  {
    TrimEmptyIffBlank(query);
    FilterIsSubsequence(products, query);
    forall p | p in products
      ensures NameMatches(p, query) <==> Occurs(Lower(query), Lower(p.name))
    {
      ContainsIsOccurs(Lower(p.name), Lower(query));
    }
  }

  // ---------------------------------------------------------------------------
  // The price table

  datatype PriceCell = PriceCell(value: real, unit: string, timeAgo: string)

  /** A latest price at the selected market, and a 30-day average. */
  datatype MarketPrice = MarketPrice(productId: string, priceValue: real, unit: string, capturedAt: Option<string>)
  datatype AveragePrice = AveragePrice(productId: string, priceValue: real, unit: string)

  /** `new Map()` filled by `set` in list order: later pairs overwrite earlier
      ones with the same key. */
  function FromPairs(pairs: seq<(string, PriceCell)>): map<string, PriceCell> {
    if pairs == [] then map[]
    else FromPairs(pairs[..|pairs| - 1])[pairs[|pairs| - 1].0 := pairs[|pairs| - 1].1]
  }

  /** A key is in the map exactly when some pair has it, and its value is the
      last such pair's. */
  lemma FromPairsSpec(pairs: seq<(string, PriceCell)>)
    ensures forall k :: k in FromPairs(pairs) <==> exists i :: 0 <= i < |pairs| && pairs[i].0 == k
    ensures forall i :: 0 <= i < |pairs| && (forall j :: i < j < |pairs| ==> pairs[j].0 != pairs[i].0) ==>
              pairs[i].0 in FromPairs(pairs) && FromPairs(pairs)[pairs[i].0] == pairs[i].1
  {
    forall k ensures k in FromPairs(pairs) <==> exists i :: 0 <= i < |pairs| && pairs[i].0 == k {
      FromPairsKeys(pairs, k);
    }
    forall i | 0 <= i < |pairs| && (forall j :: i < j < |pairs| ==> pairs[j].0 != pairs[i].0)
      ensures pairs[i].0 in FromPairs(pairs) && FromPairs(pairs)[pairs[i].0] == pairs[i].1
    {
      FromPairsLast(pairs, i);
    }
  }

  lemma {:induction false} FromPairsKeys(pairs: seq<(string, PriceCell)>, k: string)
    ensures k in FromPairs(pairs) <==> exists i :: 0 <= i < |pairs| && pairs[i].0 == k
  {
    if pairs != [] {
      var n := |pairs| - 1;
      var init := pairs[..n];
      FromPairsKeys(init, k);
      if k in FromPairs(pairs) && k != pairs[n].0 {
        var i :| 0 <= i < |init| && init[i].0 == k;
        assert pairs[i] == init[i];
      }
      if exists i :: 0 <= i < |pairs| && pairs[i].0 == k {
        var i :| 0 <= i < |pairs| && pairs[i].0 == k;
        if i < n {
          assert init[i] == pairs[i];
        }
      }
    }
  }

  lemma {:induction false} FromPairsLast(pairs: seq<(string, PriceCell)>, i: nat)
    requires i < |pairs| && forall j :: i < j < |pairs| ==> pairs[j].0 != pairs[i].0
    ensures pairs[i].0 in FromPairs(pairs) && FromPairs(pairs)[pairs[i].0] == pairs[i].1
  {
    var n := |pairs| - 1;
    if i < n {
      var init := pairs[..n];
      assert init[i] == pairs[i];
      forall j | i < j < |init| ensures init[j].0 != init[i].0 {
        assert init[j] == pairs[j];
      }
      FromPairsLast(init, i);
    }
  }

  function MarketPairs(prices: seq<MarketPrice>, instantOf: DateParser, now: int): (r: seq<(string, PriceCell)>)
    ensures |r| == |prices|
    ensures forall i :: 0 <= i < |prices| ==>
      r[i] == (prices[i].productId, PriceCell(prices[i].priceValue, prices[i].unit, FormatTimeAgo(prices[i].capturedAt, instantOf, now)))
  {
    if prices == [] then []
    else
      [(prices[0].productId, PriceCell(prices[0].priceValue, prices[0].unit, FormatTimeAgo(prices[0].capturedAt, instantOf, now)))]
      + MarketPairs(prices[1..], instantOf, now)
  }

  function AveragePairs(prices: seq<AveragePrice>): (r: seq<(string, PriceCell)>)
    ensures |r| == |prices|
    ensures forall i :: 0 <= i < |prices| ==>
      r[i] == (prices[i].productId, PriceCell(prices[i].priceValue, prices[i].unit, AverageLabel))
  {
    if prices == [] then []
    else [(prices[0].productId, PriceCell(prices[0].priceValue, prices[0].unit, AverageLabel))] + AveragePairs(prices[1..])
  }

  /** The table comes from the selected market's prices when a market is selected
      (a non-empty id), and from the averages otherwise. */
  function PriceMap(selectedMarket: Option<string>, marketPrices: seq<MarketPrice>, averages: seq<AveragePrice>,
                    instantOf: DateParser, now: int): map<string, PriceCell> {
    if selectedMarket.Some? && selectedMarket.value != "" then FromPairs(MarketPairs(marketPrices, instantOf, now))
    else FromPairs(AveragePairs(averages))
  }

  /** With a market selected, a product has a cell exactly when the market has a
      price for it, and the cell is the last such price with its age; otherwise
      a product has a cell exactly when it has an average, the cell is the last
      such average, and every cell is labelled as an average. */
  lemma PriceMapSpec(selectedMarket: Option<string>, marketPrices: seq<MarketPrice>, averages: seq<AveragePrice>,
                     instantOf: DateParser, now: int, k: string)
    ensures var m := PriceMap(selectedMarket, marketPrices, averages, instantOf, now);
      if selectedMarket.Some? && selectedMarket.value != "" then
        && (k in m <==> exists i :: 0 <= i < |marketPrices| && marketPrices[i].productId == k)
        && (forall i :: 0 <= i < |marketPrices| && marketPrices[i].productId == k
                        && (forall j :: i < j < |marketPrices| ==> marketPrices[j].productId != k) ==>
              k in m && m[k] == PriceCell(marketPrices[i].priceValue, marketPrices[i].unit,
                                          FormatTimeAgo(marketPrices[i].capturedAt, instantOf, now)))
      else
        && (k in m <==> exists i :: 0 <= i < |averages| && averages[i].productId == k)
        && (forall i :: 0 <= i < |averages| && averages[i].productId == k
                        && (forall j :: i < j < |averages| ==> averages[j].productId != k) ==>
              k in m && m[k] == PriceCell(averages[i].priceValue, averages[i].unit, AverageLabel))
        && (k in m ==> m[k].timeAgo == AverageLabel)
  {
    var mp := MarketPairs(marketPrices, instantOf, now);
    var ap := AveragePairs(averages);
    FromPairsSpec(mp);
    FromPairsSpec(ap);
    if selectedMarket.Some? && selectedMarket.value != "" {
      assert (exists i :: 0 <= i < |mp| && mp[i].0 == k) <==> (exists i :: 0 <= i < |marketPrices| && marketPrices[i].productId == k);
    } else {
      assert (exists i :: 0 <= i < |ap| && ap[i].0 == k) <==> (exists i :: 0 <= i < |averages| && averages[i].productId == k);
      if k in FromPairs(ap) {
        var i :| 0 <= i < |ap| && ap[i].0 == k;
        LastWith(ap, i);
      }
    }
  }

  /** Among the pairs with a given key there is a last one. */
  lemma {:induction false} LastWith(pairs: seq<(string, PriceCell)>, i: nat)
    requires i < |pairs|
    requires forall j :: 0 <= j < |pairs| ==> pairs[j].1.timeAgo == AverageLabel
    ensures pairs[i].0 in FromPairs(pairs) && FromPairs(pairs)[pairs[i].0].timeAgo == AverageLabel
    decreases |pairs| - i
  {
    FromPairsSpec(pairs);
    if exists j :: i < j < |pairs| && pairs[j].0 == pairs[i].0 {
      var j :| i < j < |pairs| && pairs[j].0 == pairs[i].0;
      LastWith(pairs, j);
    }
  }
}
