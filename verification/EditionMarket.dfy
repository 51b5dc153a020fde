/** The live edition market (lib/edition-market-live.ts): rows grouped by scope key, then
    minimum, maximum and median per group. Prices are reals. */
module EditionMarket {
  import opened Wrappers
  import opened Text
  import opened Sequences

  /** A price field: absent, NaN or infinite, or a number. */
  datatype Price = Missing | NonFinite | Finite(value: real)

  datatype Row = Row(
    editionKey: Option<string>,
    setName: Option<string>,
    playerName: Option<string>,
    parallel: Option<string>,
    subedition: Option<string>,
    lowAsk: Price,
    bestAsk: Price,
    bestOffer: Price,
    lastPurchasePrice: Price)

  datatype Resolved = Resolved(
    scopeKey: string,
    lowAsk: Option<real>,
    bestOffer: Option<real>,
    lastSale: Option<real>,
    askCount: nat,
    offerCount: nat,
    saleCount: nat)

  // ---------------------------------------------------------------- the scope key

  function Or(a: Option<string>, b: Option<string>): Option<string> { if a.Some? then a else b }

  function TextOf(a: Option<string>, default: string): string { if a.Some? then a.value else default }

  function NormalizeSetName(setName: string): string { if setName == "Base Set6" then "Base Set" else setName }

  function NormalizeParallel(parallel: string): string {
    var value := Trim(parallel);
    if value != "" then value else "Base"
  }

  function ScopeKey(r: Row): string {
    var editionKey := Trim(TextOf(r.editionKey, ""));
    (if editionKey != "" then editionKey else NormalizeSetName(TextOf(r.setName, "")) + "-" + TextOf(r.playerName, "unknown"))
    + "::" + NormalizeParallel(TextOf(Or(r.parallel, r.subedition), ""))
  }

  // ---------------------------------------------------------------- what a row contributes

  function Number(p: Price): Option<real> { if p.Finite? then Some(p.value) else None }

  function RowLowAsk(r: Row): Option<real> {
    if r.lowAsk.Finite? && r.bestAsk.Finite? then Some(if r.lowAsk.value <= r.bestAsk.value then r.lowAsk.value else r.bestAsk.value)
    else if r.lowAsk.Finite? then Some(r.lowAsk.value)
    else Number(r.bestAsk)
  }

  function AsksOf(key: string): Row -> Option<real> { r => if ScopeKey(r) == key then RowLowAsk(r) else None }

  function OffersOf(key: string): Row -> Option<real> { r => if ScopeKey(r) == key then Number(r.bestOffer) else None }

  function SalesOf(key: string): Row -> Option<real> { r => if ScopeKey(r) == key then Number(r.lastPurchasePrice) else None }

  // ---------------------------------------------------------------- aggregates

  function MinOf(s: seq<real>): Option<real> {
    if s == [] then None
    else
      var rest := MinOf(s[1..]);
      if rest.Some? && rest.value < s[0] then rest else Some(s[0])
  }

  function MaxOf(s: seq<real>): Option<real> {
    if s == [] then None
    else
      var rest := MaxOf(s[1..]);
      if rest.Some? && rest.value > s[0] then rest else Some(s[0])
  }

  predicate Le(x: real, y: real) { x <= y }

  function Median(values: seq<real>): Option<real> {
    if values == [] then None
    else
      SortPermutes(values, Le);
      var sorted, mid := SortBy(values, Le), |values| / 2;
      if |values| % 2 == 0 then Some((sorted[mid - 1] + sorted[mid]) / 2.0) else Some(sorted[mid])
  }

  /** `Number(x.toFixed(2))`: the nearest hundredth, a tie going away from zero. */
  function ToFixed2(x: real): (r: real)
    ensures -0.005 <= r - x <= 0.005
  {
    if x < 0.0 then -(((-x * 100.0 + 0.5).Floor as real) / 100.0) else ((x * 100.0 + 0.5).Floor as real) / 100.0
  }

  function Hundredths(k: int): real { k as real / 100.0 }

  lemma ToFixed2IsHundredths(x: real)
    ensures exists k :: ToFixed2(x) == Hundredths(k)
  {
    if x < 0.0 {
      var n := (-x * 100.0 + 0.5).Floor;
      assert ToFixed2(x) == Hundredths(-n);
    } else {
      assert ToFixed2(x) == Hundredths((x * 100.0 + 0.5).Floor);
    }
  }

  /** The figures collected for one key. */
  datatype Group = Group(lowAsks: seq<real>, bestOffers: seq<real>, lastSales: seq<real>)

  function Summary(key: string, g: Group): Resolved {
    Resolved(key, MinOf(g.lowAsks), MaxOf(g.bestOffers),
             if Median(g.lastSales).Some? then Some(ToFixed2(Median(g.lastSales).value)) else None,
             |g.lowAsks|, |g.bestOffers|, |g.lastSales|)
  }

  function KeysOf(rows: seq<Row>): set<string> { set r | r in rows :: ScopeKey(r) }

  function GroupOf(rows: seq<Row>, key: string): Group {
    Group(FilterMap(rows, AsksOf(key)), FilterMap(rows, OffersOf(key)), FilterMap(rows, SalesOf(key)))
  }

  /** The simple reading: filter the rows of each key, then aggregate. */
  function MarketOf(rows: seq<Row>): map<string, Resolved> {
    map key | key in KeysOf(rows) :: Summary(key, GroupOf(rows, key))
  }

  // ---------------------------------------------------------------- the one-pass build

  /** The map of groups the first loop has built from these rows. */
  ghost predicate IsGrouping(grouped: map<string, Group>, rows: seq<Row>) {
    grouped.Keys == KeysOf(rows) && forall k | k in grouped :: grouped[k] == GroupOf(rows, k)
  }

  function Pushed(s: seq<real>, v: Option<real>): seq<real> { if v.Some? then s + [v.value] else s }

  function WithRow(g: Group, r: Row): Group {
    Group(Pushed(g.lowAsks, RowLowAsk(r)), Pushed(g.bestOffers, Number(r.bestOffer)), Pushed(g.lastSales, Number(r.lastPurchasePrice)))
  }

  lemma FilterMapPush<T>(s: seq<T>, x: T, f: T -> Option<real>)
    ensures FilterMap(s + [x], f) == Pushed(FilterMap(s, f), f(x))
  {
    FilterMapConcat(s, [x], f);
    assert FilterMap([x], f) == if f(x).Some? then [f(x).value] else [];
  }

  lemma {:induction false} NothingForOtherKeys(rows: seq<Row>, key: string)
    requires key !in KeysOf(rows)
    ensures GroupOf(rows, key) == Group([], [], [])
  {
    if rows != [] {
      assert rows[0] in rows && ScopeKey(rows[0]) in KeysOf(rows);
      assert forall r | r in rows[1..] :: r in rows;
      NothingForOtherKeys(rows[1..], key);
    }
  }

  lemma GroupOfPush(rows: seq<Row>, r: Row, key: string)
    ensures GroupOf(rows + [r], key) == if ScopeKey(r) == key then WithRow(GroupOf(rows, key), r) else GroupOf(rows, key)
  {
    FilterMapPush(rows, r, AsksOf(key));
    FilterMapPush(rows, r, OffersOf(key));
    FilterMapPush(rows, r, SalesOf(key));
  }

  function CurrentGroup(grouped: map<string, Group>, key: string): Group {
    if key in grouped then grouped[key] else Group([], [], [])
  }

  lemma GroupingPush(grouped: map<string, Group>, rows: seq<Row>, r: Row)
    requires IsGrouping(grouped, rows)
    ensures IsGrouping(grouped[ScopeKey(r) := WithRow(CurrentGroup(grouped, ScopeKey(r)), r)], rows + [r])
  {
    var key := ScopeKey(r);
    assert KeysOf(rows + [r]) == KeysOf(rows) + {key};
    var updated := grouped[key := WithRow(CurrentGroup(grouped, key), r)];
    forall k | k in updated ensures updated[k] == GroupOf(rows + [r], k) {
      GroupOfPush(rows, r, k);
      if k !in grouped { NothingForOtherKeys(rows, k); }
    }
  }

  method Resolve(scopeKey: string, value: Group) returns (m: Resolved)
    ensures m == Summary(scopeKey, value)
  {
    var saleMedian := Median(value.lastSales);
    var lastSale := None;
    if saleMedian.Some? {
      lastSale := Some(ToFixed2(saleMedian.value));
    } else if |value.lastSales| > 0 {
      // The source falls back to the first sale here.
      assert false;
    }
    m := Resolved(scopeKey, MinOf(value.lowAsks), MaxOf(value.bestOffers), lastSale,
                  |value.lowAsks|, |value.bestOffers|, |value.lastSales|);
  }

  method AddRow(group: Group, row: Row) returns (current: Group)
    ensures current == WithRow(group, row)
  {
    current := group;
    var rowLowAsk, rowBestOffer, rowLastSale := RowLowAsk(row), Number(row.bestOffer), Number(row.lastPurchasePrice);
    if rowLowAsk.Some? {
      current := current.(lowAsks := current.lowAsks + [rowLowAsk.value]);
    }
    if rowBestOffer.Some? {
      current := current.(bestOffers := current.bestOffers + [rowBestOffer.value]);
    }
    if rowLastSale.Some? {
      current := current.(lastSales := current.lastSales + [rowLastSale.value]);
    }
  }

  lemma GroupingNext(grouped: map<string, Group>, rows: seq<Row>, i: nat)
    requires i < |rows| && IsGrouping(grouped, rows[..i])
    ensures var key := ScopeKey(rows[i]);
            IsGrouping(grouped[key := WithRow(CurrentGroup(grouped, key), rows[i])], rows[..i + 1])
  {
    var seen, row := rows[..i], rows[i];
    assert rows[..i + 1] == seen + [row];
    GroupingPush(grouped, seen, row);
  }

  method GroupRows(rows: seq<Row>) returns (grouped: map<string, Group>)
    ensures IsGrouping(grouped, rows)
  {
    grouped := map[];
    for i := 0 to |rows|
      invariant IsGrouping(grouped, rows[..i])
    {
      var row := rows[i];
      var scopeKey := ScopeKey(row);
      GroupingNext(grouped, rows, i);
      var current := AddRow(CurrentGroup(grouped, scopeKey), row);
      grouped := grouped[scopeKey := current];
    }
    assert rows[..|rows|] == rows;
  }

  method ResolveGroups(grouped: map<string, Group>) returns (out: map<string, Resolved>)
    ensures out.Keys == grouped.Keys && forall k | k in out :: out[k] == Summary(k, grouped[k])
  {
    out := map[];
    var keys := grouped.Keys;
    while keys != {}
      invariant keys <= grouped.Keys
      invariant out.Keys == grouped.Keys - keys
      invariant forall k | k in out :: out[k] == Summary(k, grouped[k])
    {
      var scopeKey :| scopeKey in keys;
      var m := Resolve(scopeKey, grouped[scopeKey]);
      out := out[scopeKey := m];
      keys := keys - {scopeKey};
    }
  }

  method BuildLiveEditionMarketMap(rows: seq<Row>) returns (out: map<string, Resolved>)
    ensures out == MarketOf(rows)
  {
    var grouped := GroupRows(rows);
    out := ResolveGroups(grouped);
  }

  // ---------------------------------------------------------------- what the numbers are

  lemma {:induction false} MinOfIsMinimum(s: seq<real>)
    ensures MinOf(s) == None <==> s == []
    ensures MinOf(s).Some? ==> MinOf(s).value in s && forall v | v in s :: MinOf(s).value <= v
  {
    if s != [] {
      MinOfIsMinimum(s[1..]);
      assert s == [s[0]] + s[1..];
    }
  }

  lemma {:induction false} MaxOfIsMaximum(s: seq<real>)
    ensures MaxOf(s) == None <==> s == []
    ensures MaxOf(s).Some? ==> MaxOf(s).value in s && forall v | v in s :: v <= MaxOf(s).value
  {
    if s != [] {
      MaxOfIsMaximum(s[1..]);
      assert s == [s[0]] + s[1..];
    }
  }

  /** One of the two places a row may ask a price in. */
  predicate Asks(r: Row, price: real) { r.lowAsk == Finite(price) || r.bestAsk == Finite(price) }

  lemma RowLowAskIs(r: Row)
    ensures RowLowAsk(r) == None <==> forall v :: !Asks(r, v)
    ensures RowLowAsk(r).Some? ==> Asks(r, RowLowAsk(r).value) && forall v | Asks(r, v) :: RowLowAsk(r).value <= v
  {
    if r.lowAsk.Finite? { assert Asks(r, r.lowAsk.value); }
    if r.bestAsk.Finite? { assert Asks(r, r.bestAsk.value); }
  }

  lemma LowestAsk(rows: seq<Row>, key: string)
    ensures var low := MinOf(FilterMap(rows, AsksOf(key)));
            && (forall r, v | r in rows && ScopeKey(r) == key && Asks(r, v) :: low.Some? && low.value <= v)
            && (low.Some? ==> exists r :: r in rows && ScopeKey(r) == key && Asks(r, low.value))
  {
    var asks := FilterMap(rows, AsksOf(key));
    MinOfIsMinimum(asks);
    forall r, v | r in rows && ScopeKey(r) == key && Asks(r, v)
      ensures MinOf(asks).Some? && MinOf(asks).value <= v
    {
      RowLowAskIs(r);
      FilterMapMembers(rows, AsksOf(key), RowLowAsk(r).value);
      assert AsksOf(key)(r) == Some(RowLowAsk(r).value);
    }
    if MinOf(asks).Some? {
      FilterMapMembers(rows, AsksOf(key), MinOf(asks).value);
      var r :| r in rows && AsksOf(key)(r) == MinOf(asks);
      RowLowAskIs(r);
    }
  }

  lemma BestOfferOf(rows: seq<Row>, key: string)
    ensures var best := MaxOf(FilterMap(rows, OffersOf(key)));
            && (forall r | r in rows && ScopeKey(r) == key && r.bestOffer.Finite? :: best.Some? && r.bestOffer.value <= best.value)
            && (best.Some? ==> exists r :: r in rows && ScopeKey(r) == key && r.bestOffer == Finite(best.value))
  {
    var offers := FilterMap(rows, OffersOf(key));
    MaxOfIsMaximum(offers);
    forall r | r in rows && ScopeKey(r) == key && r.bestOffer.Finite?
      ensures MaxOf(offers).Some? && r.bestOffer.value <= MaxOf(offers).value
    {
      FilterMapMembers(rows, OffersOf(key), r.bestOffer.value);
      assert OffersOf(key)(r) == Some(r.bestOffer.value);
    }
    if MaxOf(offers).Some? { FilterMapMembers(rows, OffersOf(key), MaxOf(offers).value); }
  }

  /** Every key with a row has an entry; its low ask is asked by one of its rows, in either
      place, and no row of the key asks for less in either, its best offer likewise from
      above, and each is missing exactly when no row of the key has one. */
  lemma MarketExtremes(rows: seq<Row>, key: string)
    ensures key in MarketOf(rows) <==> exists r :: r in rows && ScopeKey(r) == key
    ensures key in MarketOf(rows) ==>
              var m := MarketOf(rows)[key];
              && m.scopeKey == key
              && (forall r, v | r in rows && ScopeKey(r) == key && Asks(r, v) :: m.lowAsk.Some? && m.lowAsk.value <= v)
              && (m.lowAsk.Some? ==> exists r :: r in rows && ScopeKey(r) == key && Asks(r, m.lowAsk.value))
              && (forall r | r in rows && ScopeKey(r) == key && r.bestOffer.Finite? ::
                    m.bestOffer.Some? && r.bestOffer.value <= m.bestOffer.value)
              && (m.bestOffer.Some? ==> exists r :: r in rows && ScopeKey(r) == key && r.bestOffer == Finite(m.bestOffer.value))
  {
    LowestAsk(rows, key);
    BestOfferOf(rows, key);
  }

  // ---------------------------------------------------------------- what the key tells apart

  function ParallelOf(r: Row): string { NormalizeParallel(TextOf(Or(r.parallel, r.subedition), "")) }

  lemma TwoParts(a: string, p: string, b: string, q: string)
    requires ':' !in a && ':' !in b && a + "::" + p == b + "::" + q
    ensures a == b && p == q
  {
    assert a + "::" + p == a + [':'] + (":" + p) && b + "::" + q == b + [':'] + (":" + q);
    IndexOfAfter(a, ':', ":" + p);
    IndexOfAfter(b, ':', ":" + q);
    assert a == (a + "::" + p)[..|a|] && b == (b + "::" + q)[..|b|];
    assert p == (a + "::" + p)[|a| + 2..] && q == (b + "::" + q)[|b| + 2..];
  }

  /** Rows with an edition key share a scope exactly when their keys, trimmed, and their
      parallels are the same; the other fields do not matter. */
  lemma ScopeByEdition(a: Row, b: Row)
    requires Trim(TextOf(a.editionKey, "")) != "" && Trim(TextOf(b.editionKey, "")) != ""
    requires ':' !in Trim(TextOf(a.editionKey, "")) && ':' !in Trim(TextOf(b.editionKey, ""))
    ensures ScopeKey(a) == ScopeKey(b)
            <==> Trim(TextOf(a.editionKey, "")) == Trim(TextOf(b.editionKey, "")) && ParallelOf(a) == ParallelOf(b)
  {
    if ScopeKey(a) == ScopeKey(b) {
      TwoParts(Trim(TextOf(a.editionKey, "")), ParallelOf(a), Trim(TextOf(b.editionKey, "")), ParallelOf(b));
    }
  }

  /** Rows without one share a scope exactly when set, player and parallel are the same. */
  lemma ScopeByName(a: Row, b: Row)
    requires Trim(TextOf(a.editionKey, "")) == "" && Trim(TextOf(b.editionKey, "")) == ""
    requires forall r | r == a || r == b ::
               '-' !in TextOf(r.setName, "") && ':' !in TextOf(r.setName, "") && ':' !in TextOf(r.playerName, "unknown")
    ensures ScopeKey(a) == ScopeKey(b)
            <==> && NormalizeSetName(TextOf(a.setName, "")) == NormalizeSetName(TextOf(b.setName, ""))
                 && TextOf(a.playerName, "unknown") == TextOf(b.playerName, "unknown")
                 && ParallelOf(a) == ParallelOf(b)
  {
    var s, t := NormalizeSetName(TextOf(a.setName, "")), NormalizeSetName(TextOf(b.setName, ""));
    var p, q := TextOf(a.playerName, "unknown"), TextOf(b.playerName, "unknown");
    if ScopeKey(a) == ScopeKey(b) {
      TwoParts(s + "-" + p, ParallelOf(a), t + "-" + q, ParallelOf(b));
      IndexOfAfter(s, '-', p);
      IndexOfAfter(t, '-', q);
      assert s == (s + "-" + p)[..|s|] && t == (t + "-" + q)[..|t|];
      assert p == (s + "-" + p)[|s| + 1..] && q == (t + "-" + q)[|t| + 1..];
    }
  }

  /** A parallel is the row's own, else its subedition, trimmed; none and blank are Base. */
  lemma ParallelDefaults(r: Row)
    ensures r.parallel.Some? ==> ParallelOf(r) == NormalizeParallel(r.parallel.value)
    ensures r.parallel == None && r.subedition == None ==> ParallelOf(r) == "Base"
    ensures ParallelOf(r) != "" && Trimmed(ParallelOf(r))
  {
    TrimIsTrimmed(TextOf(Or(r.parallel, r.subedition), ""));
    TrimIsTrimmed("");
  }

  // ---------------------------------------------------------------- the median

  function NotAbove(m: real): real -> bool { v => v <= m }

  function NotBelow(m: real): real -> bool { v => v >= m }

  /** At least half of the values are not above m, and at least half are not below it. */
  predicate Halves(s: seq<real>, m: real) {
    2 * Count(s, NotAbove(m)) >= |s| && 2 * Count(s, NotBelow(m)) >= |s|
  }

  /** In a sorted sequence whatever precedes position k is at most s[k], and so on. */
  lemma {:induction false} CountBelow(s: seq<real>, k: nat, m: real)
    requires k <= |s| && forall i | 0 <= i < k :: s[i] <= m
    ensures Count(s, NotAbove(m)) >= k
  {
    if k > 0 { CountBelow(s[1..], k - 1, m); }
  }

  lemma {:induction false} CountAbove(s: seq<real>, k: nat, m: real)
    requires k <= |s| && forall i | k <= i < |s| :: s[i] >= m
    ensures Count(s, NotBelow(m)) >= |s| - k
  {
    if s != [] { CountAbove(s[1..], if k > 0 then k - 1 else 0, m); }
  }

  lemma SortedHalves(sorted: seq<real>, m: real)
    requires Sorted(sorted, Le) && sorted != []
    requires var mid := |sorted| / 2;
             if |sorted| % 2 == 0 then sorted[mid - 1] <= m <= sorted[mid] else m == sorted[mid]
    ensures Halves(sorted, m)
  {
    var mid := |sorted| / 2;
    assert forall i | 0 <= i < mid :: Le(sorted[i], sorted[mid]) && (i < mid - 1 ==> Le(sorted[i], sorted[mid - 1]));
    assert forall i | mid < i < |sorted| :: Le(sorted[mid], sorted[i]);
    CountBelow(sorted, if |sorted| % 2 == 0 then mid else mid + 1, m);
    CountAbove(sorted, mid, m);
  }

  /** The median is the mean of the two middle values of any sorted arrangement, which for
      an odd number are one and the same. */
  lemma MedianIsMiddle(values: seq<real>, sorted: seq<real>)
    requires values != [] && multiset(values) == multiset(sorted) && Sorted(sorted, Le)
    ensures |sorted| == |values|
    ensures Median(values) == Some((sorted[(|values| - 1) / 2] + sorted[|values| / 2]) / 2.0)
  {
    SortedIs(values, sorted);
    SortPermutes(values, Le);
    assert |values| % 2 == 1 ==> (|values| - 1) / 2 == |values| / 2;
  }

  lemma SortedIs(values: seq<real>, sorted: seq<real>)
    requires multiset(values) == multiset(sorted) && Sorted(sorted, Le)
    ensures SortBy(values, Le) == sorted
  {
    SortPermutes(values, Le);
    SortSorts(values, Le);
    SortedUnique(SortBy(values, Le), sorted, Le);
  }

  /** The median is missing only for no values; otherwise at least half of the values are
      not above it and at least half are not below it. */
  lemma MedianHalves(values: seq<real>)
    ensures Median(values) == None <==> values == []
    ensures Median(values).Some? ==> Halves(values, Median(values).value)
  {
    if values != [] {
      var sorted, mid := SortBy(values, Le), |values| / 2;
      SortPermutes(values, Le);
      SortSorts(values, Le);
      CountSorted(values, Le, NotAbove(Median(values).value));
      CountSorted(values, Le, NotBelow(Median(values).value));
      assert |values| % 2 == 0 ==> Le(sorted[mid - 1], sorted[mid]);
      SortedHalves(sorted, Median(values).value);
    }
  }

  function HasAsk(key: string): Row -> bool { r => ScopeKey(r) == key && (r.lowAsk.Finite? || r.bestAsk.Finite?) }

  function HasOffer(key: string): Row -> bool { r => ScopeKey(r) == key && r.bestOffer.Finite? }

  function HasSale(key: string): Row -> bool { r => ScopeKey(r) == key && r.lastPurchasePrice.Finite? }

  lemma GroupCounts(rows: seq<Row>, key: string)
    ensures |GroupOf(rows, key).lowAsks| == Count(rows, HasAsk(key))
    ensures |GroupOf(rows, key).bestOffers| == Count(rows, HasOffer(key))
    ensures |GroupOf(rows, key).lastSales| == Count(rows, HasSale(key))
  {
    FilterMapLength(rows, AsksOf(key), HasAsk(key));
    FilterMapLength(rows, OffersOf(key), HasOffer(key));
    FilterMapLength(rows, SalesOf(key), HasSale(key));
  }

  /** The counts are the numbers of the key's rows that have an ask, an offer and a sale. */
  lemma MarketCounts(rows: seq<Row>, key: string)
    requires key in MarketOf(rows)
    ensures MarketOf(rows)[key].askCount == Count(rows, HasAsk(key))
    ensures MarketOf(rows)[key].offerCount == Count(rows, HasOffer(key))
    ensures MarketOf(rows)[key].saleCount == Count(rows, HasSale(key))
  {
    GroupCounts(rows, key);
  }

  /** The last sale is, to the nearest hundredth, a value with at least half of the key's
      sales on either side, and is missing exactly when the key has none. */
  lemma MarketSales(rows: seq<Row>, key: string)
    requires key in MarketOf(rows)
    ensures var lastSale, sales := MarketOf(rows)[key].lastSale, FilterMap(rows, SalesOf(key));
            && (lastSale == None <==> sales == [])
            && (lastSale.Some? ==>
                  && (exists k :: lastSale.value == Hundredths(k))
                  && exists v :: -0.005 <= lastSale.value - v <= 0.005 && Halves(sales, v) && Median(sales) == Some(v))
  {
    var sales := FilterMap(rows, SalesOf(key));
    MedianHalves(sales);
    if Median(sales).Some? {
      var v := Median(sales).value;
      ToFixed2IsHundredths(v);
      assert -0.005 <= ToFixed2(v) - v <= 0.005 && Halves(sales, v);
    }
  }

  // ---------------------------------------------------------------- row order does not matter

  lemma MinMaxPermuted(a: seq<real>, b: seq<real>)
    requires multiset(a) == multiset(b)
    ensures MinOf(a) == MinOf(b) && MaxOf(a) == MaxOf(b)
    ensures |a| == |b|
  {
    MinOfIsMinimum(a);
    MinOfIsMinimum(b);
    MaxOfIsMaximum(a);
    MaxOfIsMaximum(b);
    assert |multiset(a)| == |multiset(b)|;
    assert forall v :: v in a <==> v in multiset(a);
    assert forall v :: v in b <==> v in multiset(b);
  }

  lemma SortPermuted(a: seq<real>, b: seq<real>)
    requires multiset(a) == multiset(b)
    ensures SortBy(a, Le) == SortBy(b, Le)
  {
    SortPermutes(a, Le);
    SortPermutes(b, Le);
    SortSorts(a, Le);
    SortSorts(b, Le);
    SortedUnique(SortBy(a, Le), SortBy(b, Le), Le);
  }

  lemma MedianPermuted(a: seq<real>, b: seq<real>)
    requires multiset(a) == multiset(b)
    ensures Median(a) == Median(b)
  {
    assert |a| == |multiset(a)| == |multiset(b)| == |b|;
    SortPermuted(a, b);
  }

  lemma SummaryIgnoresRowOrder(a: seq<Row>, b: seq<Row>, key: string)
    requires multiset(a) == multiset(b)
    ensures Summary(key, GroupOf(a, key)) == Summary(key, GroupOf(b, key))
  {
    FilterMapPermuted(a, b, AsksOf(key));
    FilterMapPermuted(a, b, OffersOf(key));
    FilterMapPermuted(a, b, SalesOf(key));
    MinMaxPermuted(GroupOf(a, key).lowAsks, GroupOf(b, key).lowAsks);
    MinMaxPermuted(GroupOf(a, key).bestOffers, GroupOf(b, key).bestOffers);
    MinMaxPermuted(GroupOf(a, key).lastSales, GroupOf(b, key).lastSales);
    MedianPermuted(GroupOf(a, key).lastSales, GroupOf(b, key).lastSales);
  }

  /** The whole map is the same for the same rows in any order. */
  lemma MarketIgnoresRowOrder(a: seq<Row>, b: seq<Row>)
    requires multiset(a) == multiset(b)
    ensures MarketOf(a) == MarketOf(b)
  {
    assert forall r :: r in a <==> r in multiset(a);
    assert forall r :: r in b <==> r in multiset(b);
    assert KeysOf(a) == KeysOf(b);
    forall key | key in KeysOf(a) ensures Summary(key, GroupOf(a, key)) == Summary(key, GroupOf(b, key)) {
      SummaryIgnoresRowOrder(a, b, key);
    }
  }
}
