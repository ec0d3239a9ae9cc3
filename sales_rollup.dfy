/**
 * The daily sales rollup: store sales left-joined to website sales and to
 * vendor sales, summed per store and calendar day, then given a rolling
 * seven-row sum and a competition rank per store, ordered by store and day.
 *
 * PRICE is an integer number of cents; PRICE, QUANTITY, STORE_ID and
 * TIMESTAMP are never NULL.
 */
module SalesRollup {
  import opened Wrappers
  import opened Calendar
  import opened Relational
  import opened Grouping

  /** A TIMESTAMP split into its calendar day and the time within the day. */
  datatype Timestamp = Timestamp(date: Date, timeOfDay: nat)

  /** A row of `sales_stores`. */
  datatype StoreSale = StoreSale(
    storeId: int, ascenderId: Option<string>, price: int, quantity: int, timestamp: Timestamp, id: Option<string>)

  /** A row of `sales_website`; its other columns are never selected. */
  datatype WebsiteSale = WebsiteSale(ascenderId: Option<string>)

  /** A row of `sales_vendors`, with the columns the rollup reads. */
  datatype VendorSale = VendorSale(id: Option<string>, vendorId: Option<string>)

  /** A row of `joined_sales`. */
  datatype JoinedSale = JoinedSale(
    storeId: int, ascenderId: Option<string>, price: int, quantity: int, timestamp: Timestamp,
    id: Option<string>, vendorId: Option<string>)

  // ---------------------------------------------------------------------------
  // joined_sales

  function StoreAscender(s: StoreSale): Option<string>
  {
    s.ascenderId
  }

  function WebsiteAscender(w: WebsiteSale): Option<string>
  {
    w.ascenderId
  }

  function StoreKey(s: StoreSale): Option<string>
  {
    s.id
  }

  /** `ss.ID` of a row of the first join. */
  function PairStoreKey(p: (StoreSale, Option<WebsiteSale>)): Option<string>
  {
    p.0.id
  }

  function VendorKey(v: VendorSale): Option<string>
  {
    v.id
  }

  /** The selected columns: the store sale's six and `sv.VENDOR_ID`. */
  function Project(r: ((StoreSale, Option<WebsiteSale>), Option<VendorSale>)): JoinedSale
  {
    var ss := r.0.0;
    JoinedSale(ss.storeId, ss.ascenderId, ss.price, ss.quantity, ss.timestamp, ss.id,
               if r.1.Some? then r.1.value.vendorId else None)
  }

  /** `sales_stores LEFT JOIN sales_website ON ASCENDER_ID LEFT JOIN sales_vendors ON ID`. */
  function JoinedSales(stores: seq<StoreSale>, website: seq<WebsiteSale>, vendors: seq<VendorSale>): seq<JoinedSale>
  {
    var withWebsite := LeftJoin(stores, website, StoreAscender, WebsiteAscender);
    ProjectAll(LeftJoin(withWebsite, vendors, PairStoreKey, VendorKey))
  }

  function ProjectAll(rows: seq<((StoreSale, Option<WebsiteSale>), Option<VendorSale>)>): seq<JoinedSale>
  {
    seq(|rows|, i requires 0 <= i < |rows| => Project(rows[i]))
  }

  lemma ProjectAllAppend(x: seq<((StoreSale, Option<WebsiteSale>), Option<VendorSale>)>, y: seq<((StoreSale, Option<WebsiteSale>), Option<VendorSale>)>)
    ensures ProjectAll(x + y) == ProjectAll(x) + ProjectAll(y)
  {
  }

  /** The number of joined rows a store row must produce: max(1, website matches) * max(1, vendor matches). */
  function StoreFanOut(s: StoreSale, website: seq<WebsiteSale>, vendors: seq<VendorSale>): nat
  {
    FanOut(s, website, StoreAscender, WebsiteAscender) * FanOut(s, vendors, StoreKey, VendorKey)
  }

  function ExpectedJoinSize(stores: seq<StoreSale>, website: seq<WebsiteSale>, vendors: seq<VendorSale>): nat
  {
    if stores == [] then 0 else StoreFanOut(stores[0], website, vendors) + ExpectedJoinSize(stores[1..], website, vendors)
  }

  /** A row of the first join finds the vendors of its store row. */
  lemma {:induction false} PairMatchesStore(p: (StoreSale, Option<WebsiteSale>), vendors: seq<VendorSale>)
    ensures Matches(p, vendors, PairStoreKey, VendorKey) == Matches(p.0, vendors, StoreKey, VendorKey)
  {
    if vendors != [] {
      PairMatchesStore(p, vendors[1..]);
    }
  }

  /** Rows of the first join that all carry store row `s` each fan out like `s` in the second join. */
  lemma {:induction false} UniformJoinSize(rows: seq<(StoreSale, Option<WebsiteSale>)>, s: StoreSale, vendors: seq<VendorSale>)
    requires forall i :: 0 <= i < |rows| ==> rows[i].0 == s
    ensures JoinSize(rows, vendors, PairStoreKey, VendorKey) == |rows| * FanOut(s, vendors, StoreKey, VendorKey)
  {
    if rows != [] {
      var f := FanOut(s, vendors, StoreKey, VendorKey);
      PairMatchesStore(rows[0], vendors);
      assert FanOut(rows[0], vendors, PairStoreKey, VendorKey) == f;
      assert forall i :: 0 <= i < |rows[1..]| ==> rows[1..][i] == rows[i + 1];
      UniformJoinSize(rows[1..], s, vendors);
      assert JoinSize(rows, vendors, PairStoreKey, VendorKey) == f + (|rows| - 1) * f;
    }
  }

  /**
   * Join cardinality: every store row yields max(1, a) * max(1, b) joined rows,
   * a its website matches and b its vendor matches, so no store row is lost.
   */
  lemma {:induction false} JoinedSalesCardinality(stores: seq<StoreSale>, website: seq<WebsiteSale>, vendors: seq<VendorSale>)
    ensures |JoinedSales(stores, website, vendors)| == ExpectedJoinSize(stores, website, vendors)
    ensures ExpectedJoinSize(stores, website, vendors) >= |stores|
  {
    var withWebsite := LeftJoin(stores, website, StoreAscender, WebsiteAscender);
    LeftJoinCardinality(withWebsite, vendors, PairStoreKey, VendorKey);
    JoinSizeOfFirstJoin(stores, website, vendors);
  }

  /** The join works store row by store row: joining a concatenation joins each part in turn, in order. */
  lemma JoinedSalesAppend(a: seq<StoreSale>, b: seq<StoreSale>, website: seq<WebsiteSale>, vendors: seq<VendorSale>)
    ensures JoinedSales(a + b, website, vendors) == JoinedSales(a, website, vendors) + JoinedSales(b, website, vendors)
  {
    var wa := LeftJoin(a, website, StoreAscender, WebsiteAscender);
    var wb := LeftJoin(b, website, StoreAscender, WebsiteAscender);
    LeftJoinAppend(a, b, website, StoreAscender, WebsiteAscender);
    LeftJoinAppend(wa, wb, vendors, PairStoreKey, VendorKey);
    ProjectAllAppend(LeftJoin(wa, vendors, PairStoreKey, VendorKey), LeftJoin(wb, vendors, PairStoreKey, VendorKey));
  }

  /** One store row yields max(1, a) * max(1, b) joined rows, a its website matches and b its vendor matches. */
  lemma JoinedSalesOneStore(s: StoreSale, website: seq<WebsiteSale>, vendors: seq<VendorSale>)
    ensures |JoinedSales([s], website, vendors)| == StoreFanOut(s, website, vendors)
  {
    JoinedSalesCardinality([s], website, vendors);
    assert [s][1..] == [];
  }

  lemma {:induction false} JoinSizeOfFirstJoin(stores: seq<StoreSale>, website: seq<WebsiteSale>, vendors: seq<VendorSale>)
    ensures JoinSize(LeftJoin(stores, website, StoreAscender, WebsiteAscender), vendors, PairStoreKey, VendorKey)
      == ExpectedJoinSize(stores, website, vendors)
    ensures ExpectedJoinSize(stores, website, vendors) >= |stores|
  {
    if stores != [] {
      var s := stores[0];
      var head := JoinRow(s, website, StoreAscender, WebsiteAscender);
      var tail := LeftJoin(stores[1..], website, StoreAscender, WebsiteAscender);
      JoinRowShape(s, website, StoreAscender, WebsiteAscender);
      JoinSizeAppend(head, tail, vendors, PairStoreKey, VendorKey);
      UniformJoinSize(head, s, vendors);
      JoinSizeOfFirstJoin(stores[1..], website, vendors);
    }
  }

  /** `r` is store row `s` with the VENDOR_ID of one of its vendor matches when it has any, and NULL when it has none. */
  ghost predicate JoinedFrom(r: JoinedSale, s: StoreSale, vendors: seq<VendorSale>)
  {
    && r.storeId == s.storeId && r.ascenderId == s.ascenderId && r.price == s.price
    && r.quantity == s.quantity && r.timestamp == s.timestamp && r.id == s.id
    && (r.vendorId.Some? ==> exists v :: v in vendors && KeysMatch(s.id, v.id) && v.vendorId == r.vendorId)
    && (Matches(s, vendors, StoreKey, VendorKey) != [] ==>
          exists v :: v in vendors && KeysMatch(s.id, v.id) && v.vendorId == r.vendorId)
    && (Matches(s, vendors, StoreKey, VendorKey) == [] ==> r.vendorId.None?)
  }

  /** Every joined row is a store row with its own columns and a VENDOR_ID of a vendor sharing its ID. */
  lemma JoinedRowsFromStores(stores: seq<StoreSale>, website: seq<WebsiteSale>, vendors: seq<VendorSale>)
    ensures forall j :: 0 <= j < |JoinedSales(stores, website, vendors)| ==>
      exists i :: 0 <= i < |stores| && JoinedFrom(JoinedSales(stores, website, vendors)[j], stores[i], vendors)
  {
    var withWebsite := LeftJoin(stores, website, StoreAscender, WebsiteAscender);
    var withVendors := LeftJoin(withWebsite, vendors, PairStoreKey, VendorKey);
    var out := JoinedSales(stores, website, vendors);
    LeftJoinPairsMatches(stores, website, StoreAscender, WebsiteAscender);
    LeftJoinPairsMatches(withWebsite, vendors, PairStoreKey, VendorKey);
    forall j | 0 <= j < |out| ensures exists i :: 0 <= i < |stores| && JoinedFrom(out[j], stores[i], vendors) {
      var r := withVendors[j];
      assert JoinedPair(r, withWebsite, vendors, PairStoreKey, VendorKey);
      var w :| 0 <= w < |withWebsite| && withWebsite[w] == r.0;
      assert JoinedPair(withWebsite[w], stores, website, StoreAscender, WebsiteAscender);
      var i :| 0 <= i < |stores| && stores[i] == r.0.0;
      PairMatchesStore(r.0, vendors);
      assert JoinedFrom(out[j], stores[i], vendors);
    }
  }

  /** Every store row appears in the joined rows. */
  lemma JoinedSalesKeepStores(stores: seq<StoreSale>, website: seq<WebsiteSale>, vendors: seq<VendorSale>)
    ensures forall i :: 0 <= i < |stores| ==>
      exists j :: 0 <= j < |JoinedSales(stores, website, vendors)| && JoinedFrom(JoinedSales(stores, website, vendors)[j], stores[i], vendors)
  {
    var withWebsite := LeftJoin(stores, website, StoreAscender, WebsiteAscender);
    var withVendors := LeftJoin(withWebsite, vendors, PairStoreKey, VendorKey);
    var out := JoinedSales(stores, website, vendors);
    LeftJoinKeepsLeftRows(stores, website, StoreAscender, WebsiteAscender);
    LeftJoinKeepsLeftRows(withWebsite, vendors, PairStoreKey, VendorKey);
    LeftJoinPairsMatches(withWebsite, vendors, PairStoreKey, VendorKey);
    forall i | 0 <= i < |stores|
      ensures exists j :: 0 <= j < |out| && JoinedFrom(out[j], stores[i], vendors)
    {
      assert Carries(withWebsite, stores[i]);
      var w :| 0 <= w < |withWebsite| && withWebsite[w].0 == stores[i];
      assert Carries(withVendors, withWebsite[w]);
      var j :| 0 <= j < |withVendors| && withVendors[j].0 == withWebsite[w];
      assert JoinedPair(withVendors[j], withWebsite, vendors, PairStoreKey, VendorKey);
      PairMatchesStore(withWebsite[w], vendors);
      assert JoinedFrom(out[j], stores[i], vendors);
    }
  }

  // ---------------------------------------------------------------------------
  // daily_sales

  /** A (STORE_ID, SALE_DATE) group key. */
  datatype DayKey = DayKey(storeId: int, saleDate: Date)

  /** ORDER BY STORE_ID, SALE_DATE. */
  predicate KeyLess(a: DayKey, b: DayKey)
  {
    a.storeId < b.storeId || (a.storeId == b.storeId && DateLess(a.saleDate, b.saleDate))
  }

  /** A row of `daily_sales`. */
  datatype DailySale = DailySale(storeId: int, saleDate: Date, totalSales: int)

  function KeyOf(r: DailySale): DayKey
  {
    DayKey(r.storeId, r.saleDate)
  }

  /** `CAST(DATE_TRUNC('day', TIMESTAMP) AS DATE)` and `PRICE * QUANTITY` of a joined row. */
  function Revenue(j: JoinedSale): (DayKey, int)
  {
    (DayKey(j.storeId, j.timestamp.date), j.price * j.quantity)
  }

  function Revenues(joined: seq<JoinedSale>): seq<(DayKey, int)>
  {
    seq(|joined|, i requires 0 <= i < |joined| => Revenue(joined[i]))
  }

  /** `SUM(PRICE * QUANTITY) ... GROUP BY STORE_ID, day`, one row per group in (store, day) order. */
  function DailySales(joined: seq<JoinedSale>): seq<DailySale>
  {
    var gs := GroupSum(Revenues(joined), KeyLess);
    seq(|gs|, i requires 0 <= i < |gs| => DailySale(gs[i].key.storeId, gs[i].key.saleDate, gs[i].total))
  }

  /** The sum of PRICE * QUANTITY over the joined rows of store `s` on day `d`. */
  function DayTotal(joined: seq<JoinedSale>, s: int, d: Date): int
  {
    if joined == [] then 0
    else
      var last := joined[|joined| - 1];
      DayTotal(joined[..|joined| - 1], s, d) + (if last.storeId == s && last.timestamp.date == d then last.price * last.quantity else 0)
  }

  /** Some joined row is a sale of store `s` on day `d`. */
  ghost predicate SoldOn(joined: seq<JoinedSale>, s: int, d: Date)
  {
    exists j :: 0 <= j < |joined| && joined[j].storeId == s && joined[j].timestamp.date == d
  }

  ghost predicate HasDay(daily: seq<DailySale>, s: int, d: Date)
  {
    exists i :: 0 <= i < |daily| && daily[i].storeId == s && daily[i].saleDate == d
  }

  /** Rows strictly ascending by (STORE_ID, SALE_DATE), hence one row per pair. */
  ghost predicate SortedByStoreDay(daily: seq<DailySale>)
  {
    forall i, j :: 0 <= i < j < |daily| ==> KeyLess(KeyOf(daily[i]), KeyOf(daily[j]))
  }

  lemma KeyLessIsStrictTotal()
    ensures StrictTotalOrder(KeyLess)
  {
    forall a: DayKey, b: DayKey, c: DayKey
      ensures !KeyLess(a, a)
      ensures KeyLess(a, b) && KeyLess(b, c) ==> KeyLess(a, c)
      ensures a != b ==> KeyLess(a, b) || KeyLess(b, a)
    {
      DateLessIsStrictTotal(a.saleDate, b.saleDate, c.saleDate);
    }
  }

  lemma {:induction false} RevenueSums(joined: seq<JoinedSale>, s: int, d: Date)
    ensures SumFor(Revenues(joined), DayKey(s, d)) == DayTotal(joined, s, d)
  {
    if joined != [] {
      assert Revenues(joined)[..|joined| - 1] == Revenues(joined[..|joined| - 1]);
      RevenueSums(joined[..|joined| - 1], s, d);
    }
  }

  /**
   * `daily_sales`: rows strictly ascending by (store, day), so at most one row
   * per pair; a row exactly for each (store, day) with a joined sale; and each
   * row's total the sum of PRICE * QUANTITY over that store's joined rows of that day.
   */
  lemma DailySalesCorrect(joined: seq<JoinedSale>)
    ensures SortedByStoreDay(DailySales(joined))
    ensures forall s, d :: HasDay(DailySales(joined), s, d) <==> SoldOn(joined, s, d)
    ensures forall i :: 0 <= i < |DailySales(joined)| ==>
      DailySales(joined)[i].totalSales == DayTotal(joined, DailySales(joined)[i].storeId, DailySales(joined)[i].saleDate)
  {
    var items := Revenues(joined);
    var gs := GroupSum(items, KeyLess);
    var daily := DailySales(joined);
    KeyLessIsStrictTotal();
    GroupSumCorrect(items, KeyLess);
    assert forall i :: 0 <= i < |daily| ==> KeyOf(daily[i]) == gs[i].key;
    forall i | 0 <= i < |daily|
      ensures daily[i].totalSales == DayTotal(joined, daily[i].storeId, daily[i].saleDate)
    {
      RevenueSums(joined, daily[i].storeId, daily[i].saleDate);
    }
    forall s, d ensures HasDay(daily, s, d) <==> SoldOn(joined, s, d) {
      if HasDay(daily, s, d) {
        var i :| 0 <= i < |daily| && daily[i].storeId == s && daily[i].saleDate == d;
        assert gs[i].key in KeySet(gs);
        var j :| 0 <= j < |items| && items[j].0 == gs[i].key;
      }
      if SoldOn(joined, s, d) {
        var j :| 0 <= j < |joined| && joined[j].storeId == s && joined[j].timestamp.date == d;
        assert items[j].0 in ItemKeys(items);
        var i :| 0 <= i < |gs| && gs[i].key == DayKey(s, d);
        assert daily[i].storeId == s && daily[i].saleDate == d;
      }
    }
  }

  // ---------------------------------------------------------------------------
  // SUM(total_sales) OVER (PARTITION BY STORE_ID ORDER BY SALE_DATE ROWS BETWEEN 6 PRECEDING AND CURRENT ROW)

  /** The frame reaches this many rows back from the current row. */
  const PRECEDING: nat := 6

  /** PARTITION BY STORE_ID: the rows of store `s`, in table order. */
  function Partition(rows: seq<DailySale>, s: int): seq<DailySale>
  {
    if rows == [] then []
    else Partition(rows[..|rows| - 1], s) + (if rows[|rows| - 1].storeId == s then [rows[|rows| - 1]] else [])
  }

  function TotalOf(rows: seq<DailySale>): int
  {
    if rows == [] then 0 else TotalOf(rows[..|rows| - 1]) + rows[|rows| - 1].totalSales
  }

  /**
   * The frame of `width` rows ending at row n-1, over a table sorted by store:
   * walks back from row n-1 while the rows still belong to store `s`.
   */
  function FrameSum(daily: seq<DailySale>, s: int, n: nat, width: nat): int
    requires n <= |daily|
  {
    if n == 0 || width == 0 || daily[n - 1].storeId != s then 0
    else daily[n - 1].totalSales + FrameSum(daily, s, n - 1, width - 1)
  }

  /** `rolling_7d_sales` of row k. */
  function Rolling7d(daily: seq<DailySale>, k: nat): int
    requires k < |daily|
  {
    FrameSum(daily, daily[k].storeId, k + 1, PRECEDING + 1)
  }

  /** The position of row k within its store's partition. */
  function PositionIn(daily: seq<DailySale>, k: nat): nat
    requires k < |daily|
  {
    |Partition(daily[..k], daily[k].storeId)|
  }

  /** The last (at most) `width` rows. */
  function Last(rows: seq<DailySale>, width: nat): seq<DailySale>
  {
    if width >= |rows| then rows else rows[|rows| - width..]
  }

  ghost predicate StoreSorted(daily: seq<DailySale>)
  {
    forall i, j :: 0 <= i < j < |daily| ==> daily[i].storeId <= daily[j].storeId
  }

  lemma SortedByStore(daily: seq<DailySale>)
    requires SortedByStoreDay(daily)
    ensures StoreSorted(daily)
  {
  }

  lemma {:induction false} PartitionMembers(rows: seq<DailySale>, s: int)
    ensures forall x :: x in Partition(rows, s) <==> x in rows && x.storeId == s
  {
    if rows != [] {
      var init := rows[..|rows| - 1];
      PartitionMembers(init, s);
      assert rows == init + [rows[|rows| - 1]];
    }
  }

  lemma {:induction false} PartitionOfOthers(rows: seq<DailySale>, s: int)
    requires forall i :: 0 <= i < |rows| ==> rows[i].storeId != s
    ensures Partition(rows, s) == []
  {
    if rows != [] {
      PartitionOfOthers(rows[..|rows| - 1], s);
    }
  }

  lemma TotalOfSnoc(rows: seq<DailySale>, x: DailySale)
    ensures TotalOf(rows + [x]) == TotalOf(rows) + x.totalSales
  {
    assert (rows + [x])[..|rows|] == rows;
  }

  /** Extending a prefix by one row extends its partition by that row when it belongs to the store. */
  lemma PartitionSnoc(daily: seq<DailySale>, n: nat, s: int)
    requires 0 < n <= |daily|
    ensures Partition(daily[..n], s) ==
      Partition(daily[..n - 1], s) + (if daily[n - 1].storeId == s then [daily[n - 1]] else [])
  {
    assert daily[..n][..n - 1] == daily[..n - 1];
  }

  lemma LastSnoc(rows: seq<DailySale>, x: DailySale, width: nat)
    requires width > 0
    ensures Last(rows + [x], width) == Last(rows, width - 1) + [x]
  {
    if width - 1 < |rows| {
      assert (rows + [x])[|rows| + 1 - width..] == rows[|rows| - (width - 1)..] + [x];
    }
  }

  /** A prefix that ends below store `s` in a store-sorted table has no rows of `s`. */
  lemma PrefixBelowStore(daily: seq<DailySale>, s: int, n: nat)
    requires 0 < n <= |daily| && StoreSorted(daily) && daily[n - 1].storeId < s
    ensures Partition(daily[..n], s) == []
  {
    forall i | 0 <= i < n ensures daily[..n][i].storeId != s {
      assert daily[i].storeId <= daily[n - 1].storeId;
    }
    PartitionOfOthers(daily[..n], s);
  }

  /** Walking back over a store-sorted table sums the last `width` rows of the store's partition so far. */
  lemma {:induction false} FrameSumIsSuffixSum(daily: seq<DailySale>, s: int, n: nat, width: nat)
    requires n <= |daily| && StoreSorted(daily)
    requires n == 0 || daily[n - 1].storeId <= s
    ensures FrameSum(daily, s, n, width) == TotalOf(Last(Partition(daily[..n], s), width))
  {
    if n == 0 {
      assert daily[..0] == [];
    } else if daily[n - 1].storeId != s {
      PrefixBelowStore(daily, s, n);
    } else {
      var part := Partition(daily[..n - 1], s);
      PartitionSnoc(daily, n, s);
      if width > 0 {
        FrameSumIsSuffixSum(daily, s, n - 1, width - 1);
        LastSnoc(part, daily[n - 1], width);
        TotalOfSnoc(Last(part, width - 1), daily[n - 1]);
      } else {
        assert Last(part + [daily[n - 1]], 0) == [];
      }
    }
  }

  lemma {:induction false} PartitionPrefix(rows: seq<DailySale>, m: nat, s: int)
    requires m <= |rows|
    ensures |Partition(rows[..m], s)| <= |Partition(rows, s)|
    ensures Partition(rows[..m], s) == Partition(rows, s)[..|Partition(rows[..m], s)|]
  {
    if m < |rows| {
      var init := rows[..|rows| - 1];
      assert init[..m] == rows[..m];
      PartitionPrefix(init, m, s);
    } else {
      assert rows[..m] == rows;
    }
  }

  /** The frame of row k: the rows of its store from max(0, p - 6) to p, p its position in the partition. */
  function Frame(daily: seq<DailySale>, k: nat): seq<DailySale>
    requires k < |daily|
  {
    var part := Partition(daily, daily[k].storeId);
    var pos := PositionIn(daily, k);
    var lo := if pos < PRECEDING then 0 else pos - PRECEDING;
    if pos < |part| then part[lo..pos + 1] else []
  }

  /**
   * `rolling_7d_sales` of the row at position p of its store's date-ordered
   * partition is the sum of `total_sales` over positions max(0, p - 6)..p;
   * the frame holds p + 1 rows until it reaches seven, then exactly seven.
   */
  lemma RollingWindow(daily: seq<DailySale>, k: nat)
    requires SortedByStoreDay(daily) && k < |daily|
    ensures PositionIn(daily, k) < |Partition(daily, daily[k].storeId)|
    ensures Partition(daily, daily[k].storeId)[PositionIn(daily, k)] == daily[k]
    ensures Rolling7d(daily, k) == TotalOf(Frame(daily, k))
    ensures |Frame(daily, k)| == if PositionIn(daily, k) < PRECEDING then PositionIn(daily, k) + 1 else PRECEDING + 1
  {
    var s := daily[k].storeId;
    var part := Partition(daily, s);
    var pos := PositionIn(daily, k);
    PositionInPartition(daily, k);
    SortedByStore(daily);
    FrameSumIsSuffixSum(daily, s, k + 1, PRECEDING + 1);
    LastOfPrefix(part, pos, PRECEDING + 1);
  }

  /** Row k sits at its position in its store's partition, after the store's earlier rows. */
  lemma PositionInPartition(daily: seq<DailySale>, k: nat)
    requires k < |daily|
    ensures PositionIn(daily, k) < |Partition(daily, daily[k].storeId)|
    ensures Partition(daily, daily[k].storeId)[PositionIn(daily, k)] == daily[k]
    ensures Partition(daily[..k + 1], daily[k].storeId) == Partition(daily, daily[k].storeId)[..PositionIn(daily, k) + 1]
  {
    var s := daily[k].storeId;
    PartitionSnoc(daily, k + 1, s);
    assert daily[..k + 1][..k] == daily[..k];
    PartitionPrefix(daily, k + 1, s);
  }

  /** The last `width` rows of the first pos + 1 rows. */
  lemma LastOfPrefix(part: seq<DailySale>, pos: nat, width: nat)
    requires pos < |part| && width > 0
    ensures Last(part[..pos + 1], width) == part[(if pos + 1 < width then 0 else pos + 1 - width)..pos + 1]
  {
    if pos + 1 <= width {
      assert part[..pos + 1] == part[0..pos + 1];
    } else {
      assert part[..pos + 1][pos + 1 - width..] == part[pos + 1 - width..pos + 1];
    }
  }

  /** At the first date of a store the rolling sum is that date's own total. */
  lemma RollingFirstDay(daily: seq<DailySale>, k: nat)
    requires SortedByStoreDay(daily) && k < |daily|
    requires PositionIn(daily, k) == 0
    ensures Rolling7d(daily, k) == daily[k].totalSales
  {
    RollingWindow(daily, k);
    var f := Frame(daily, k);
    assert f == [] + [daily[k]];
    TotalOfSnoc([], daily[k]);
  }

  /** Each store's partition is in strictly ascending date order and holds all and only that store's rows. */
  lemma {:induction false} PartitionByDate(daily: seq<DailySale>, s: int)
    requires SortedByStoreDay(daily)
    ensures forall i, j :: 0 <= i < j < |Partition(daily, s)| ==>
      DateLess(Partition(daily, s)[i].saleDate, Partition(daily, s)[j].saleDate)
    ensures forall x :: x in Partition(daily, s) <==> x in daily && x.storeId == s
  {
    PartitionMembers(daily, s);
    if daily != [] {
      var init := daily[..|daily| - 1];
      var last := daily[|daily| - 1];
      PartitionByDate(init, s);
      PartitionMembers(init, s);
      var prev := Partition(init, s);
      if last.storeId == s {
        forall i | 0 <= i < |prev| ensures DateLess(prev[i].saleDate, last.saleDate) {
          assert prev[i] in init;
          var a :| 0 <= a < |init| && init[a] == prev[i];
          assert KeyLess(KeyOf(daily[a]), KeyOf(daily[|daily| - 1]));
        }
      }
    }
  }

  // ---------------------------------------------------------------------------
  // RANK() OVER (PARTITION BY STORE_ID ORDER BY total_sales DESC)

  function Totals(rows: seq<DailySale>): seq<int>
  {
    seq(|rows|, i requires 0 <= i < |rows| => rows[i].totalSales)
  }

  function InsertDesc(x: int, xs: seq<int>): seq<int>
  {
    if xs == [] || x >= xs[0] then [x] + xs else [xs[0]] + InsertDesc(x, xs[1..])
  }

  /** ORDER BY total_sales DESC. */
  function SortDesc(xs: seq<int>): seq<int>
  {
    if xs == [] then [] else InsertDesc(xs[0], SortDesc(xs[1..]))
  }

  /** The index of the first element equal to `v`: where the peers of `v` begin. */
  function PeerStart(ys: seq<int>, v: int): nat
  {
    if ys == [] || ys[0] == v then 0 else 1 + PeerStart(ys[1..], v)
  }

  /** `sales_rank` of row k: one plus the number of rows ordered before its first peer. */
  function SalesRank(daily: seq<DailySale>, k: nat): nat
    requires k < |daily|
  {
    1 + PeerStart(SortDesc(Totals(Partition(daily, daily[k].storeId))), daily[k].totalSales)
  }

  /** How many values exceed `v`. */
  function CountAbove(xs: seq<int>, v: int): nat
  {
    if xs == [] then 0 else (if xs[0] > v then 1 else 0) + CountAbove(xs[1..], v)
  }

  function CountEqual(xs: seq<int>, v: int): nat
  {
    if xs == [] then 0 else (if xs[0] == v then 1 else 0) + CountEqual(xs[1..], v)
  }

  /** How many values lie strictly between `lo` and `hi`. */
  function CountBetween(xs: seq<int>, lo: int, hi: int): nat
  {
    if xs == [] then 0 else (if lo < xs[0] < hi then 1 else 0) + CountBetween(xs[1..], lo, hi)
  }

  ghost predicate Descending(ys: seq<int>)
  {
    forall i, j :: 0 <= i < j < |ys| ==> ys[i] >= ys[j]
  }

  /** Inserting adds exactly `x` to the values. */
  lemma {:induction false} InsertDescKeeps(x: int, xs: seq<int>)
    ensures multiset(InsertDesc(x, xs)) == multiset(xs) + multiset{x}
  {
    if xs != [] && x < xs[0] {
      InsertDescKeeps(x, xs[1..]);
      assert xs == [xs[0]] + xs[1..];
    }
  }
  /** Inserting a value under a bound keeps every value under it. */
  lemma {:induction false} InsertDescBounded(x: int, xs: seq<int>, b: int)
    requires x <= b && forall i :: 0 <= i < |xs| ==> xs[i] <= b
    ensures forall i :: 0 <= i < |InsertDesc(x, xs)| ==> InsertDesc(x, xs)[i] <= b
  {
    if xs != [] && x < xs[0] {
      InsertDescBounded(x, xs[1..], b);
    }
  }
  /** Inserting into a descending list keeps it descending. */
  lemma {:induction false} InsertDescSorted(x: int, xs: seq<int>)
    requires Descending(xs)
    ensures Descending(InsertDesc(x, xs))
  {
    var out := InsertDesc(x, xs);
    if xs == [] || x >= xs[0] {
      assert out == [x] + xs;
      forall i, j | 0 <= i < j < |out| ensures out[i] >= out[j] {
        assert out[j] == xs[j - 1];
        if i > 0 {
          assert out[i] == xs[i - 1];
        }
      }
    } else {
      var tail := xs[1..];
      assert Descending(tail) by {
        forall i, j | 0 <= i < j < |tail| ensures tail[i] >= tail[j] {
          assert tail[i] == xs[i + 1] && tail[j] == xs[j + 1];
        }
      }
      InsertDescSorted(x, tail);
      InsertDescBounded(x, tail, xs[0]);
      var rest := InsertDesc(x, tail);
      assert out == [xs[0]] + rest;
      forall i, j | 0 <= i < j < |out| ensures out[i] >= out[j] {
        assert out[j] == rest[j - 1];
        if i > 0 {
          assert out[i] == rest[i - 1];
        }
      }
    }
  }

  /** Sorting descending keeps every value and puts them in non-increasing order. */
  lemma {:induction false} SortDescCorrect(xs: seq<int>)
    ensures Descending(SortDesc(xs))
    ensures multiset(SortDesc(xs)) == multiset(xs)
  {
    if xs != [] {
      SortDescCorrect(xs[1..]);
      InsertDescKeeps(xs[0], SortDesc(xs[1..]));
      InsertDescSorted(xs[0], SortDesc(xs[1..]));
      assert xs == [xs[0]] + xs[1..];
    }
  }

  lemma {:induction false} CountAboveInsert(x: int, xs: seq<int>, v: int)
    ensures CountAbove(InsertDesc(x, xs), v) == CountAbove(xs, v) + (if x > v then 1 else 0)
  {
    if xs != [] && x < xs[0] {
      CountAboveInsert(x, xs[1..], v);
    }
  }

  lemma {:induction false} CountAboveSort(xs: seq<int>, v: int)
    ensures CountAbove(SortDesc(xs), v) == CountAbove(xs, v)
  {
    if xs != [] {
      CountAboveSort(xs[1..], v);
      CountAboveInsert(xs[0], SortDesc(xs[1..]), v);
    }
  }

  /** In a descending list holding `v`, the peers of `v` begin after exactly the values above it. */
  lemma {:induction false} PeerStartCountsAbove(ys: seq<int>, v: int)
    requires Descending(ys) && v in ys
    ensures PeerStart(ys, v) == CountAbove(ys, v)
  {
    if ys[0] == v {
      CountAboveNone(ys, v);
    } else {
      assert forall i :: 0 <= i < |ys[1..]| ==> ys[1..][i] == ys[i + 1];
      PeerStartCountsAbove(ys[1..], v);
    }
  }

  lemma {:induction false} CountAboveNone(xs: seq<int>, v: int)
    requires forall i :: 0 <= i < |xs| ==> xs[i] <= v
    ensures CountAbove(xs, v) == 0
  {
    if xs != [] {
      assert forall i :: 0 <= i < |xs[1..]| ==> xs[1..][i] == xs[i + 1];
      CountAboveNone(xs[1..], v);
    }
  }

  lemma {:induction false} CountAboveBelowLength(xs: seq<int>, v: int)
    requires v in xs
    ensures CountAbove(xs, v) < |xs|
  {
    if xs[0] != v {
      CountAboveBelowLength(xs[1..], v);
    } else {
      CountAboveAtMostLength(xs[1..], v);
    }
  }

  lemma {:induction false} CountAboveAtMostLength(xs: seq<int>, v: int)
    ensures CountAbove(xs, v) <= |xs|
  {
    if xs != [] {
      CountAboveAtMostLength(xs[1..], v);
    }
  }

  /** Below `hi`, the values above `lo` are those above `hi`, those equal to `hi` and those in between. */
  lemma {:induction false} CountAboveSplit(xs: seq<int>, lo: int, hi: int)
    requires lo < hi
    ensures CountAbove(xs, lo) == CountAbove(xs, hi) + CountEqual(xs, hi) + CountBetween(xs, lo, hi)
  {
    if xs != [] {
      CountAboveSplit(xs[1..], lo, hi);
    }
  }

  lemma {:induction false} CountBetweenNone(xs: seq<int>, lo: int, hi: int)
    requires forall i :: 0 <= i < |xs| ==> !(lo < xs[i] < hi)
    ensures CountBetween(xs, lo, hi) == 0
  {
    if xs != [] {
      assert forall i :: 0 <= i < |xs[1..]| ==> xs[1..][i] == xs[i + 1];
      CountBetweenNone(xs[1..], lo, hi);
    }
  }

  lemma OwnTotalInPartition(daily: seq<DailySale>, k: nat)
    requires k < |daily|
    ensures daily[k].totalSales in Totals(Partition(daily, daily[k].storeId))
  {
    var part := Partition(daily, daily[k].storeId);
    PartitionMembers(daily, daily[k].storeId);
    assert daily[k] in part;
    var i :| 0 <= i < |part| && part[i] == daily[k];
    assert Totals(part)[i] == daily[k].totalSales;
  }

  /** `sales_rank` is one plus the number of rows of the same store with a strictly greater total. */
  lemma RankCountsAbove(daily: seq<DailySale>, k: nat)
    requires k < |daily|
    ensures SalesRank(daily, k) == 1 + CountAbove(Totals(Partition(daily, daily[k].storeId)), daily[k].totalSales)
  {
    var totals := Totals(Partition(daily, daily[k].storeId));
    var v := daily[k].totalSales;
    OwnTotalInPartition(daily, k);
    SortDescCorrect(totals);
    assert v in multiset(SortDesc(totals));
    PeerStartCountsAbove(SortDesc(totals), v);
    CountAboveSort(totals, v);
  }

  /** Rows of one store with equal totals share their rank. */
  lemma RankTies(daily: seq<DailySale>, k: nat, k': nat)
    requires k < |daily| && k' < |daily|
    requires daily[k].storeId == daily[k'].storeId && daily[k].totalSales == daily[k'].totalSales
    ensures SalesRank(daily, k) == SalesRank(daily, k')
  {
    RankCountsAbove(daily, k);
    RankCountsAbove(daily, k');
  }

  /** The rank lies in 1..(number of rows of the store), and the store's largest total has rank 1. */
  lemma RankRange(daily: seq<DailySale>, k: nat)
    requires k < |daily|
    ensures 1 <= SalesRank(daily, k) <= |Partition(daily, daily[k].storeId)|
    ensures (forall i :: 0 <= i < |daily| && daily[i].storeId == daily[k].storeId ==> daily[i].totalSales <= daily[k].totalSales)
      ==> SalesRank(daily, k) == 1
  {
    var part := Partition(daily, daily[k].storeId);
    var totals := Totals(part);
    RankCountsAbove(daily, k);
    OwnTotalInPartition(daily, k);
    CountAboveBelowLength(totals, daily[k].totalSales);
    if forall i :: 0 <= i < |daily| && daily[i].storeId == daily[k].storeId ==> daily[i].totalSales <= daily[k].totalSales {
      PartitionMembers(daily, daily[k].storeId);
      forall i | 0 <= i < |totals| ensures totals[i] <= daily[k].totalSales {
        assert part[i] in daily;
      }
      CountAboveNone(totals, daily[k].totalSales);
    }
  }

  /**
   * Competition ranking: when no total of the store lies strictly between the
   * totals of rows k' and k, the lower one's rank is k's rank plus the number
   * of rows tied with k.
   */
  lemma RankGap(daily: seq<DailySale>, k: nat, k': nat)
    requires k < |daily| && k' < |daily|
    requires daily[k].storeId == daily[k'].storeId && daily[k'].totalSales < daily[k].totalSales
    requires forall i :: 0 <= i < |daily| && daily[i].storeId == daily[k].storeId ==>
      !(daily[k'].totalSales < daily[i].totalSales < daily[k].totalSales)
    ensures SalesRank(daily, k') ==
      SalesRank(daily, k) + CountEqual(Totals(Partition(daily, daily[k].storeId)), daily[k].totalSales)
  {
    var part := Partition(daily, daily[k].storeId);
    var totals := Totals(part);
    RankCountsAbove(daily, k);
    RankCountsAbove(daily, k');
    CountAboveSplit(totals, daily[k'].totalSales, daily[k].totalSales);
    PartitionMembers(daily, daily[k].storeId);
    forall i | 0 <= i < |totals| ensures !(daily[k'].totalSales < totals[i] < daily[k].totalSales) {
      assert part[i] in daily;
    }
    CountBetweenNone(totals, daily[k'].totalSales, daily[k].totalSales);
  }

  // ---------------------------------------------------------------------------
  // The final SELECT ... ORDER BY STORE_ID, SALE_DATE

  /** A row of the rollup. */
  datatype RollupRow = RollupRow(storeId: int, saleDate: Date, totalSales: int, rolling7dSales: int, salesRank: nat)

  /** Both windows over `daily_sales`, which is already in (store, day) order. */
  function Rollup(daily: seq<DailySale>): seq<RollupRow>
  {
    seq(|daily|, k requires 0 <= k < |daily| =>
      RollupRow(daily[k].storeId, daily[k].saleDate, daily[k].totalSales, Rolling7d(daily, k), SalesRank(daily, k)))
  }

  /** The whole rollup query. */
  function SalesRollup(stores: seq<StoreSale>, website: seq<WebsiteSale>, vendors: seq<VendorSale>): seq<RollupRow>
  {
    Rollup(DailySales(JoinedSales(stores, website, vendors)))
  }

  /** Row k of the rollup is row k of `daily` with its two window values as the reference definitions give them. */
  ghost predicate WindowedRow(r: RollupRow, daily: seq<DailySale>, k: nat)
    requires k < |daily|
  {
    && r.storeId == daily[k].storeId && r.saleDate == daily[k].saleDate && r.totalSales == daily[k].totalSales
    && r.rolling7dSales == TotalOf(Frame(daily, k))
    && r.salesRank == 1 + CountAbove(Totals(Partition(daily, daily[k].storeId)), daily[k].totalSales)
  }

  /** The windows add two columns to each row of a sorted `daily` and change nothing else. */
  lemma RollupWindows(daily: seq<DailySale>)
    requires SortedByStoreDay(daily)
    ensures |Rollup(daily)| == |daily|
    ensures forall k :: 0 <= k < |daily| ==> WindowedRow(Rollup(daily)[k], daily, k)
  {
    forall k | 0 <= k < |daily| ensures WindowedRow(Rollup(daily)[k], daily, k) {
      RollingWindow(daily, k);
      RankCountsAbove(daily, k);
    }
  }

  /**
   * The rollup has one row exactly for each (store, day) with a joined sale, in
   * strictly ascending (STORE_ID, SALE_DATE) order; each row's total is the sum
   * of PRICE * QUANTITY over that store's joined rows of that day, and its
   * window columns are the rolling frame sum and the competition rank.
   */
  lemma SalesRollupCorrect(stores: seq<StoreSale>, website: seq<WebsiteSale>, vendors: seq<VendorSale>)
    ensures var joined := JoinedSales(stores, website, vendors);
      var daily := DailySales(joined);
      var out := SalesRollup(stores, website, vendors);
      && |out| == |daily|
      && SortedByStoreDay(daily)
      && (forall s, d :: HasDay(daily, s, d) <==> SoldOn(joined, s, d))
      && (forall k :: 0 <= k < |out| ==> out[k].totalSales == DayTotal(joined, out[k].storeId, out[k].saleDate))
      && (forall k :: 0 <= k < |out| ==> WindowedRow(out[k], daily, k))
  {
    var joined := JoinedSales(stores, website, vendors);
    DailySalesCorrect(joined);
    RollupWindows(DailySales(joined));
  }
}
