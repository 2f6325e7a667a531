/** The read-only reports: the order counts per status, the injection
    moulding cost list and the material usage summary. Each is a function of
    the document and the query. */
module Reports {
  import opened Json
  import opened Records
  import opened Sorting
  import opened Store
  import opened Orders

  // ---------------------------------------------------------------------
  // Order counts per status

  const InProgress: string := "生产中"
  const Done: string := "已完成"

  datatype Counts = Counts(total: nat, pending: nat, inProgress: nat, done: nat)

  /** The three per-type counts the stats handler answers. */
  datatype Report = Report(injection: Counts, slush: Counts, spray: Counts)

  function StatusPattern(status: string): Record { map["status" := Str(status)] }

  /** `arr.filter(o => o.status === status).length`. */
  function CountStatus(orders: seq<Record>, status: string): nat {
    |Select(orders, StatusPattern(status))|
  }

  /** `stat(type)`: every order, and those in each of the three states. */
  function StatusCounts(orders: seq<Record>): Counts {
    Counts(|orders|, CountStatus(orders, Pending), CountStatus(orders, InProgress), CountStatus(orders, Done))
  }

  function Stats(d: Data): Report {
    Report(StatusCounts(d.injection.orders), StatusCounts(d.slush.orders), StatusCounts(d.spray.orders))
  }

  /** An order in one of the three states the report names. */
  predicate KnownStatus(o: Record) {
    Get(o, "status") == Str(Pending) || Get(o, "status") == Str(InProgress) || Get(o, "status") == Str(Done)
  }

  function Tally(c: Counts): nat { c.pending + c.inProgress + c.done }

  /** The three states never count more orders than there are, and they
      account for all of them exactly when every order is in one of them. */
  lemma {:induction false} CountsCover(orders: seq<Record>)
    ensures Tally(StatusCounts(orders)) <= |orders|
    ensures Tally(StatusCounts(orders)) == |orders| <==> forall o :: o in orders ==> KnownStatus(o)
  {
    if orders != [] {
      var o, rest := orders[0], orders[1..];
      CountsCover(rest);
      assert Pending[0] != InProgress[0] && Pending[0] != Done[0] && InProgress[0] != Done[0];
      var c := StatusCounts(orders);
      var c' := StatusCounts(rest);
      MatchesOne(o, "status", Str(Pending));
      MatchesOne(o, "status", Str(InProgress));
      MatchesOne(o, "status", Str(Done));
      assert Tally(c) == Tally(c') + (if KnownStatus(o) then 1 else 0);
      assert forall x :: x in orders <==> x == o || x in rest;
    }
  }

  /** The counts of each state over two tables add up. */
  lemma CountsConcat(a: seq<Record>, b: seq<Record>, status: string)
    ensures CountStatus(a + b, status) == CountStatus(a, status) + CountStatus(b, status)
  {
    SelectConcat(a, b, StatusPattern(status));
  }

  /** createOrder adds one order to its type's total, and to its pending
      count exactly when the order arrives without a status or as pending;
      the other types' counts stay. */
  lemma CreateOrderCounts(d: Data, t: OrderType, header: Record, items: seq<Record>, now: string)
    ensures var before := StatusCounts(d.Get(t).orders);
      var after := StatusCounts(CreateOrder(d, t, header, items, now).Get(t).orders);
      && after.total == before.total + 1
      && after.pending == before.pending + (if Or(Get(header, "status"), Str(Pending)) == Str(Pending) then 1 else 0)
    ensures forall u :: u != t ==> StatusCounts(CreateOrder(d, t, header, items, now).Get(u).orders) == StatusCounts(d.Get(u).orders)
  {
    var o := NewOrder(d.nextId, header, now);
    assert CreateOrder(d, t, header, items, now).Get(t).orders == d.Get(t).orders + [o];
    CountsConcat(d.Get(t).orders, [o], Pending);
    assert Get(o, "status") == Or(Get(header, "status"), Str(Pending));
    MatchesOne(o, "status", Str(Pending));
  }

  // ---------------------------------------------------------------------
  // Injection moulding costs

  /** One line of the cost list: an item with its order's header fields. */
  datatype CostRow = CostRow(
    orderNumber: Value, docNumber: Value, date: Value, workshop: Value,
    moldId: Value, moldName: Value, injectionCost: Value, notes: Value)

  function CostRowOf(o: Record, it: Record): CostRow {
    CostRow(
      Or(Get(o, "order_number"), Str("")), Or(Get(o, "doc_number"), Str("")),
      Or(Get(o, "date"), Str("")), Or(Get(o, "workshop"), Str("")),
      Or(Get(it, "mold_id"), Str("")), Or(Get(it, "mold_name"), Str("")),
      Or(Get(it, "injection_cost"), Null), Or(Get(it, "notes"), Str("")))
  }

  /** `(o.date || '').startsWith(month)`. */
  predicate DatedIn(o: Record, month: string) {
    StartsWith(Text(Get(o, "date")), month)
  }

  /** `orders.filter(o => (o.date || '').startsWith(month))`. */
  function InMonth(orders: seq<Record>, month: string): (res: seq<Record>)
    ensures forall o :: o in res <==> o in orders && DatedIn(o, month)
  {
    if orders == [] then []
    else if DatedIn(orders[0], month) then [orders[0]] + InMonth(orders[1..], month)
    else InMonth(orders[1..], month)
  }

  /** The orders of the list: all of them, or those dated in the month. */
  function MonthOrders(d: Data, month: string): seq<Record> {
    if month == "" then d.injection.orders else InMonth(d.injection.orders, month)
  }

  /** The (order, item) pairs the nested `forEach` visits: the orders in
      turn, each with its items by position. */
  function Pairs(orders: seq<Record>, items: seq<Record>): seq<(Record, Record)> {
    if orders == [] then []
    else
      var o := orders[|orders| - 1];
      var its := ItemsOf(items, IdOf(o));
      Pairs(orders[..|orders| - 1], items) + seq(|its|, k requires 0 <= k < |its| => (o, its[k]))
  }

  function CostRows(orders: seq<Record>, items: seq<Record>): seq<CostRow> {
    RowsOf(Pairs(orders, items))
  }

  /** One cost line per order-and-item pair, in the pairs' order. */
  function RowsOf(ps: seq<(Record, Record)>): seq<CostRow> {
    seq(|ps|, i requires 0 <= i < |ps| => CostRowOf(ps[i].0, ps[i].1))
  }

  /** The injection-costs handler. */
  function InjectionCosts(d: Data, month: string): seq<CostRow> {
    CostRows(MonthOrders(d, month), d.injection.items)
  }

  /** The list pairs each order with exactly the items that belong to it. */
  lemma {:induction false} PairsSpec(orders: seq<Record>, items: seq<Record>)
    ensures forall p :: p in Pairs(orders, items) <==>
      (p.0 in orders && p.1 in items && Get(p.1, "order_id") == IdOf(p.0))
  {
    if orders != [] {
      var front := orders[..|orders| - 1];
      var o := orders[|orders| - 1];
      PairsSpec(front, items);
      PairsStep(orders, items);
    }
  }

  /** The pairs of a table, from the pairs of all but its last order. */
  lemma PairsStep(orders: seq<Record>, items: seq<Record>)
    requires orders != []
    requires forall p :: p in Pairs(orders[..|orders| - 1], items) <==>
      (p.0 in orders[..|orders| - 1] && p.1 in items && Get(p.1, "order_id") == IdOf(p.0))
    ensures forall p :: p in Pairs(orders, items) <==>
      (p.0 in orders && p.1 in items && Get(p.1, "order_id") == IdOf(p.0))
  {
    var front := orders[..|orders| - 1];
    var o := orders[|orders| - 1];
    PairsLast(orders, items);
    ItemsOfMembers(items, IdOf(o));
    assert orders == front + [o];
    forall p: (Record, Record) ensures p in Pairs(orders, items) <==>
      (p.0 in orders && p.1 in items && Get(p.1, "order_id") == IdOf(p.0))
    {
      assert p.0 in orders <==> p.0 in front || p.0 == o;
      if p.0 == o && p.1 in items && Get(p.1, "order_id") == IdOf(p.0) {
        assert p.1 in ItemsOf(items, IdOf(o));
      }
    }
  }

  /** The pairs of the last order are that order with each of its items. */
  lemma PairsLast(orders: seq<Record>, items: seq<Record>)
    requires orders != []
    ensures var o := orders[|orders| - 1];
      forall p :: p in Pairs(orders, items) <==>
        p in Pairs(orders[..|orders| - 1], items) || (p.0 == o && p.1 in ItemsOf(items, IdOf(o)))
  {
    var o := orders[|orders| - 1];
    var its := ItemsOf(items, IdOf(o));
    var tail := seq(|its|, k requires 0 <= k < |its| => (o, its[k]));
    assert Pairs(orders, items) == Pairs(orders[..|orders| - 1], items) + tail;
    forall p: (Record, Record) | p.0 == o && p.1 in its ensures p in tail {
      var k :| 0 <= k < |its| && its[k] == p.1;
      assert tail[k] == p;
    }
  }

  /** Every line of the list comes from an order of the month and one of
      its items, and every such pair gives a line. */
  lemma InjectionCostsSpec(d: Data, month: string)
    ensures forall o, it ::
      o in MonthOrders(d, month) && it in d.injection.items && Get(it, "order_id") == IdOf(o) ==>
        CostRowOf(o, it) in InjectionCosts(d, month)
    ensures forall row :: row in InjectionCosts(d, month) ==>
      exists p :: p in Pairs(MonthOrders(d, month), d.injection.items) && row == CostRowOf(p.0, p.1)
    ensures forall o :: o in MonthOrders(d, month) <==> o in d.injection.orders && DatedIn(o, month)
  {
    var orders := MonthOrders(d, month);
    var ps := Pairs(orders, d.injection.items);
    var rows := InjectionCosts(d, month);
    PairsSpec(orders, d.injection.items);
    forall o, it | o in orders && it in d.injection.items && Get(it, "order_id") == IdOf(o)
      ensures CostRowOf(o, it) in rows
    {
      assert (o, it) in ps;
      var i :| 0 <= i < |ps| && ps[i] == (o, it);
      assert rows[i] == CostRowOf(o, it);
    }
    forall row | row in rows
      ensures exists p :: p in ps && row == CostRowOf(p.0, p.1)
    {
      var i :| 0 <= i < |rows| && rows[i] == row;
      assert ps[i] in ps;
    }
    if month == "" {
      assert forall o :: DatedIn(o, month);
    }
  }

  /** Given a month, every line's order date is a string in that month. */
  lemma InjectionCostsInMonth(d: Data, month: string)
    requires month != ""
    ensures forall row :: row in InjectionCosts(d, month) ==> row.date.Str? && StartsWith(row.date.s, month)
  {
    var orders := MonthOrders(d, month);
    var ps := Pairs(orders, d.injection.items);
    var rows := InjectionCosts(d, month);
    PairsSpec(orders, d.injection.items);
    forall i | 0 <= i < |rows|
      ensures rows[i].date.Str? && StartsWith(rows[i].date.s, month)
    {
      assert ps[i] in ps;
      DatedRow(ps[i].0, ps[i].1, month);
    }
  }

  lemma DatedRow(o: Record, it: Record, month: string)
    requires month != "" && DatedIn(o, month)
    ensures CostRowOf(o, it).date == Get(o, "date")
    ensures CostRowOf(o, it).date.Str? && StartsWith(CostRowOf(o, it).date.s, month)
  {
  }

  /** The month filter keeps the list order and each order as often as it
      is listed: filtering two runs of orders filters each in turn, and one
      order stays exactly when it is dated in the month. */
  lemma {:induction false} InMonthConcat(a: seq<Record>, b: seq<Record>, month: string)
    ensures InMonth(a + b, month) == InMonth(a, month) + InMonth(b, month)
    ensures forall o :: InMonth([o], month) == if DatedIn(o, month) then [o] else []
  {
    if a != [] {
      assert (a + b)[1..] == a[1..] + b;
      InMonthConcat(a[1..], b, month);
    } else {
      assert a + b == b;
    }
    forall o ensures InMonth([o], month) == if DatedIn(o, month) then [o] else [] {
      assert [o][1..] == [];
    }
  }

  /** The pairs one order contributes: the order with each of its items. */
  function OrderPairs(o: Record, items: seq<Record>): seq<(Record, Record)> {
    var its := ItemsOf(items, IdOf(o));
    seq(|its|, k requires 0 <= k < |its| => (o, its[k]))
  }

  /** Appending an order appends its pairs. */
  lemma PairsSnoc(orders: seq<Record>, o: Record, items: seq<Record>)
    ensures Pairs(orders + [o], items) == Pairs(orders, items) + OrderPairs(o, items)
  {
    assert (orders + [o])[..|orders|] == orders;
  }

  /** The pairs of two runs of orders are the pairs of the first run
      followed by those of the second: the orders are visited in list order. */
  lemma {:induction false} PairsConcat(a: seq<Record>, b: seq<Record>, items: seq<Record>)
    ensures Pairs(a + b, items) == Pairs(a, items) + Pairs(b, items)
    decreases |b|
  {
    if b == [] {
      assert a + b == a;
    } else {
      var front, o := b[..|b| - 1], b[|b| - 1];
      assert b == front + [o];
      PairsConcat(a, front, items);
      PairsConcatStep(a, front, o, items);
    }
  }

  /** One more order at the end of the second run keeps the pairs of the
      joined runs split between the two. */
  lemma PairsConcatStep(a: seq<Record>, front: seq<Record>, o: Record, items: seq<Record>)
    requires Pairs(a + front, items) == Pairs(a, items) + Pairs(front, items)
    ensures Pairs(a + (front + [o]), items) == Pairs(a, items) + Pairs(front + [o], items)
  {
    Regroup(a, front, [o]);
    PairsSnoc(a + front, o, items);
    PairsSnoc(front, o, items);
    Regroup(Pairs(a, items), Pairs(front, items), OrderPairs(o, items));
  }

  /** Joining sequences does not depend on grouping. */
  lemma Regroup<T>(x: seq<T>, y: seq<T>, z: seq<T>)
    ensures (x + y) + z == x + (y + z)
  {
  }

  /** One order is visited with each of its items in turn, in the order the
      item list is sorted in. */
  lemma PairsOne(o: Record, items: seq<Record>)
    ensures var its := ItemsOf(items, IdOf(o));
      |Pairs([o], items)| == |its| && forall k :: 0 <= k < |its| ==> Pairs([o], items)[k] == (o, its[k])
  {
    assert [o][..0] == [];
  }

  /** The cost list of two runs of orders is the list of the first run
      followed by that of the second. */
  lemma CostRowsConcat(a: seq<Record>, b: seq<Record>, items: seq<Record>)
    ensures CostRows(a + b, items) == CostRows(a, items) + CostRows(b, items)
  {
    PairsConcat(a, b, items);
    var pa, pb := Pairs(a, items), Pairs(b, items);
    RowsOfConcat(pa, pb);
  }

  /** Turning pairs into lines, one by one, commutes with joining. */
  lemma RowsOfConcat(pa: seq<(Record, Record)>, pb: seq<(Record, Record)>)
    ensures RowsOf(pa + pb) == RowsOf(pa) + RowsOf(pb)
  {
    var l, r := RowsOf(pa + pb), RowsOf(pa) + RowsOf(pb);
    assert |l| == |r|;
    forall i | 0 <= i < |l| ensures l[i] == r[i] {
      if i < |pa| {
        assert (pa + pb)[i] == pa[i];
      } else {
        assert (pa + pb)[i] == pb[i - |pa|];
      }
    }
  }

  /** The lines of one order: one per item it owns, in `sort_order`, each
      with the order's header fields. */
  lemma CostRowsOne(o: Record, items: seq<Record>)
    ensures var its := ItemsOf(items, IdOf(o));
      |CostRows([o], items)| == |its| && forall k :: 0 <= k < |its| ==> CostRows([o], items)[k] == CostRowOf(o, its[k])
  {
    PairsOne(o, items);
  }

  /** Independent reference: how many stored items the orders own, each
      order counted as often as it is listed. */
  function OwnedCount(orders: seq<Record>, items: seq<Record>): nat {
    if orders == [] then 0
    else OwnedCount(orders[..|orders| - 1], items) + |Select(items, OwnerPattern(IdOf(orders[|orders| - 1])))|
  }

  /** An order's attached items are as many as the stored items it owns. */
  lemma ItemsOfCount(items: seq<Record>, v: Value)
    ensures |ItemsOf(items, v)| == |Select(items, OwnerPattern(v))|
  {
    ItemsOfSpec(items, v);
    assert |multiset(ItemsOf(items, v))| == |multiset(Select(items, OwnerPattern(v)))|;
  }

  /** The cost list has one line per stored item of each listed order. */
  lemma {:induction false} CostRowsCount(orders: seq<Record>, items: seq<Record>)
    ensures |CostRows(orders, items)| == OwnedCount(orders, items)
  {
    if orders != [] {
      var front := orders[..|orders| - 1];
      var o := orders[|orders| - 1];
      CostRowsCount(front, items);
      assert orders == front + [o];
      CostRowsConcat(front, [o], items);
      CostRowsOne(o, items);
      ItemsOfCount(items, IdOf(o));
    }
  }

  /** The injection-costs handler answers one line per stored item of each
      order of the month (each order when no month is given). */
  lemma InjectionCostsCount(d: Data, month: string)
    ensures |InjectionCosts(d, month)| == OwnedCount(MonthOrders(d, month), d.injection.items)
  {
    CostRowsCount(MonthOrders(d, month), d.injection.items);
  }

  // ---------------------------------------------------------------------
  // Material usage summary

  /** One material's line: its position, price and notes, and the weight
      and amount the warehouse recorded against it. */
  datatype Stat = Stat(seqNo: nat, material: Value, unitPrice: Value, notes: Value, weight: Number, amount: Number)

  /** The `stats` object: its keys in insertion order and the entry of each. */
  datatype Table = Table(keys: seq<Value>, entries: map<Value, Stat>)

  /** Each key once, exactly the keys of the entries, each entry filed under
      its own material. */
  predicate WellFormed(tb: Table) {
    && (forall i, j :: 0 <= i < j < |tb.keys| ==> tb.keys[i] != tb.keys[j])
    && (forall k :: k in tb.entries ==> k in tb.keys)
    && (forall k :: k in tb.keys ==> k in tb.entries)
    && (forall k :: k in tb.entries ==> tb.entries[k].material == k)
  }

  /** `stats[k] = s`: a new key goes last, an existing one keeps its place. */
  function Put(tb: Table, k: Value, s: Stat): (res: Table)
    requires WellFormed(tb) && s.material == k
    ensures WellFormed(res)
    ensures res.entries == tb.entries[k := s]
    ensures res.keys == if k in tb.entries then tb.keys else tb.keys + [k]
  {
    Table(if k in tb.entries then tb.keys else tb.keys + [k], tb.entries[k := s])
  }

  /** The entry the price at position `i` writes. */
  function PriceStat(i: nat, p: Record): Stat {
    Stat(i + 1, Get(p, "material"), Get(p, "unit_price"), Or(Get(p, "notes"), Str("")), Fin(0.0), Fin(0.0))
  }

  /** The entry a material missing from the price table starts with. */
  function FreshStat(size: nat, m: Value): Stat {
    Stat(size + 1, m, Num(0.0), Str(""), Fin(0.0), Fin(0.0))
  }

  /** The `material_prices.forEach`: one entry per priced material. */
  function Seed(prices: seq<Record>): (tb: Table)
    ensures WellFormed(tb)
  {
    if prices == [] then Table([], map[])
    else
      var n := |prices| - 1;
      Put(Seed(prices[..n]), Get(prices[n], "material"), PriceStat(n, prices[n]))
  }

  /** The order filter passes the order: dated in the month, and its order
      and document numbers together contain the lower-cased search. */
  predicate Passes(o: Record, month: string, q: string) {
    && (month == "" || DatedIn(o, month))
    && (q == "" || Includes(ToLower(Text(Get(o, "order_number")) + Text(Get(o, "doc_number"))), q))
  }

  /** `validOrderIds`: no filter when neither a month nor a search is given,
      otherwise the ids of the injection orders that pass. */
  function OrderFilter(orders: seq<Record>, month: string, search: string): Option<set<Value>> {
    if month == "" && search == "" then None
    else Some(set o | o in orders && Passes(o, month, ToLower(search)) :: IdOf(o))
  }

  /** One more order visited by the filter pass. */
  lemma PassingSnoc(orders: seq<Record>, i: nat, month: string, q: string)
    requires i < |orders|
    ensures (set o | o in orders[..i + 1] && Passes(o, month, q) :: IdOf(o))
         == (set o | o in orders[..i] && Passes(o, month, q) :: IdOf(o))
            + (if Passes(orders[i], month, q) then {IdOf(orders[i])} else {})
  {
    assert orders[..i + 1] == orders[..i] + [orders[i]];
  }

  /** An item the summary adds up: it names a material, and its order passes
      the filter. */
  predicate Counted(it: Record, filter: Option<set<Value>>) {
    Truthy(Get(it, "material")) && (filter.None? || Get(it, "order_id") in filter.value)
  }

  /** `+(v || 0)`. */
  function Amount(v: Value): Number {
    if Truthy(v) then ToNumber(v) else Fin(0.0)
  }

  /** The two totals a line carries, and the item field each adds up. */
  datatype Column = Weight | Money

  function Field(c: Column): string {
    match c
    case Weight => "actual_weight_kg"
    case Money => "actual_amount_hkd"
  }

  function Measure(s: Stat, c: Column): Number {
    match c
    case Weight => s.weight
    case Money => s.amount
  }

  /** One pass of the `injection_items.forEach`. */
  function AddItem(tb: Table, it: Record, filter: Option<set<Value>>): (res: Table)
    requires WellFormed(tb)
    ensures WellFormed(res)
  {
    if !Counted(it, filter) then tb
    else
      var m := Get(it, "material");
      var e := if m in tb.entries then tb.entries[m] else FreshStat(|tb.keys|, m);
      Put(tb, m, e.(weight := Add(e.weight, Amount(Get(it, Field(Weight)))),
                    amount := Add(e.amount, Amount(Get(it, Field(Money))))))
  }

  function Accumulate(tb: Table, items: seq<Record>, filter: Option<set<Value>>): (res: Table)
    requires WellFormed(tb)
    ensures WellFormed(res)
  {
    if items == [] then tb
    else AddItem(Accumulate(tb, items[..|items| - 1], filter), items[|items| - 1], filter)
  }

  /** `Object.values(stats)`. */
  function Values(tb: Table): seq<Stat>
    requires WellFormed(tb)
  {
    seq(|tb.keys|, i requires 0 <= i < |tb.keys| => tb.entries[tb.keys[i]])
  }

  /** The material-stats handler. */
  function MaterialStats(d: Data, month: string, search: string): seq<Stat> {
    Values(Accumulate(Seed(d.materialPrices), d.injection.items, OrderFilter(d.injection.orders, month, search)))
  }

  /** Independent reference: what the counted items add up to for one
      material in one column. */
  function Total(items: seq<Record>, filter: Option<set<Value>>, m: Value, c: Column): Number {
    if items == [] then Fin(0.0)
    else
      var it := items[|items| - 1];
      Add(Total(items[..|items| - 1], filter, m, c), ItemAmount(it, filter, m, c))
  }

  function PricedMaterials(prices: seq<Record>): set<Value> {
    set p | p in prices :: Get(p, "material")
  }

  function CountedMaterials(items: seq<Record>, filter: Option<set<Value>>): set<Value> {
    set it | it in items && Counted(it, filter) :: Get(it, "material")
  }

  /** The price at position `i` is the last one for its material. */
  predicate LastPrice(prices: seq<Record>, i: int) {
    0 <= i < |prices| && forall j :: i < j < |prices| ==> Get(prices[j], "material") != Get(prices[i], "material")
  }

  predicate DistinctMaterials(prices: seq<Record>) {
    forall i, j :: 0 <= i < j < |prices| ==> Get(prices[i], "material") != Get(prices[j], "material")
  }

  /** Line i carries position i + 1. */
  predicate Numbered(tb: Table)
    requires WellFormed(tb)
  {
    forall i :: 0 <= i < |tb.keys| ==> tb.entries[tb.keys[i]].seqNo == i + 1
  }

  /** The price table gives one entry per material it names, with nothing
      added up yet. */
  lemma {:induction false} SeedKeys(prices: seq<Record>)
    ensures forall k :: k in Seed(prices).entries <==> k in PricedMaterials(prices)
    ensures forall k :: k in Seed(prices).entries ==> Seed(prices).entries[k].weight == Fin(0.0)
    ensures forall k :: k in Seed(prices).entries ==> Seed(prices).entries[k].amount == Fin(0.0)
  {
    if prices != [] {
      var n := |prices| - 1;
      var front := prices[..n];
      SeedKeys(front);
      assert prices == front + [prices[n]];
      assert forall p :: p in prices <==> p in front || p == prices[n];
    }
  }

  /** Each material's entry is written by the last price for it. */
  lemma {:induction false} SeedLast(prices: seq<Record>)
    ensures forall i :: LastPrice(prices, i) ==>
      var m := Get(prices[i], "material"); m in Seed(prices).entries && Seed(prices).entries[m] == PriceStat(i, prices[i])
  {
    if prices != [] {
      var n := |prices| - 1;
      var front := prices[..n];
      SeedLast(front);
      forall i | LastPrice(prices, i)
        ensures var m := Get(prices[i], "material"); m in Seed(prices).entries && Seed(prices).entries[m] == PriceStat(i, prices[i])
      {
        if i < n {
          assert LastPrice(front, i);
          assert Get(prices[n], "material") != Get(prices[i], "material");
        }
      }
    }
  }

  /** With each material priced once, the lines follow the price table and
      are numbered from 1. */
  lemma {:induction false} SeedNumbered(prices: seq<Record>)
    requires DistinctMaterials(prices)
    ensures Numbered(Seed(prices))
    ensures |Seed(prices).keys| == |prices|
    ensures forall i :: 0 <= i < |prices| ==> Seed(prices).keys[i] == Get(prices[i], "material")
  {
    if prices != [] {
      var n := |prices| - 1;
      var front := prices[..n];
      DistinctFront(prices);
      SeedNumbered(front);
      assert forall i :: 0 <= i < n ==> front[i] == prices[i];
      SeedStep(prices, Seed(front));
      assert Seed(prices) == Put(Seed(front), Get(prices[n], "material"), PriceStat(n, prices[n]));
    }
  }

  /** The last price of distinct materials adds its line last, numbered. */
  lemma SeedStep(prices: seq<Record>, tb: Table)
    requires prices != [] && DistinctMaterials(prices)
    requires WellFormed(tb) && Numbered(tb) && |tb.keys| == |prices| - 1
    requires forall i :: 0 <= i < |prices| - 1 ==> tb.keys[i] == Get(prices[i], "material")
    ensures var n := |prices| - 1;
      var res := Put(tb, Get(prices[n], "material"), PriceStat(n, prices[n]));
      && Numbered(res) && |res.keys| == |prices|
      && forall i :: 0 <= i < |prices| ==> res.keys[i] == Get(prices[i], "material")
  {
    var n := |prices| - 1;
    var m := Get(prices[n], "material");
    assert m !in tb.keys;
    PutFreshNumbered(tb, m, PriceStat(n, prices[n]));
  }

  lemma DistinctFront(prices: seq<Record>)
    requires DistinctMaterials(prices) && prices != []
    ensures DistinctMaterials(prices[..|prices| - 1])
  {
  }

  /** A new key put on a numbered table goes last with the next number. */
  lemma PutFreshNumbered(tb: Table, k: Value, s: Stat)
    requires WellFormed(tb) && Numbered(tb) && k !in tb.entries
    requires s.material == k && s.seqNo == |tb.keys| + 1
    ensures Numbered(Put(tb, k, s)) && Put(tb, k, s).keys == tb.keys + [k]
  {
    var res := Put(tb, k, s);
    forall i | 0 <= i < |res.keys| ensures res.entries[res.keys[i]].seqNo == i + 1 {
      if i < |tb.keys| {
        assert res.keys[i] == tb.keys[i] != k;
      }
    }
  }

  /** The fields of a line the items never change. */
  predicate SameHeading(a: Stat, b: Stat) {
    a.seqNo == b.seqNo && a.material == b.material && a.unitPrice == b.unitPrice && a.notes == b.notes
  }

  /** `res` keeps every line of `tb` in its place and with its heading,
      and any line it adds is priced at 0 with empty notes. */
  predicate Extends(tb: Table, res: Table) {
    && |tb.keys| <= |res.keys| && res.keys[..|tb.keys|] == tb.keys
    && (forall k :: k in tb.entries ==> k in res.entries && SameHeading(res.entries[k], tb.entries[k]))
    && (forall k :: k in res.entries && k !in tb.entries ==>
          res.entries[k].unitPrice == Num(0.0) && res.entries[k].notes == Str(""))
  }

  lemma ExtendsTrans(a: Table, b: Table, c: Table)
    requires Extends(a, b) && Extends(b, c)
    ensures Extends(a, c)
  {
    assert c.keys[..|a.keys|] == c.keys[..|b.keys|][..|a.keys|];
  }

  /** The line one counted item writes. */
  function Bumped(tb: Table, it: Record): Stat {
    var m := Get(it, "material");
    var e := if m in tb.entries then tb.entries[m] else FreshStat(|tb.keys|, m);
    e.(weight := Add(e.weight, Amount(Get(it, Field(Weight)))),
       amount := Add(e.amount, Amount(Get(it, Field(Money)))))
  }

  lemma AddItemPut(tb: Table, it: Record, filter: Option<set<Value>>)
    requires WellFormed(tb)
    ensures Counted(it, filter) ==> AddItem(tb, it, filter) == Put(tb, Get(it, "material"), Bumped(tb, it))
    ensures !Counted(it, filter) ==> AddItem(tb, it, filter) == tb
  {
  }

  /** `if (!stats[m]) stats[m] = {...}` followed by the two `+=`: the line
      the counted item writes. */
  lemma BumpLine(tb: Table, it: Record, keys: seq<Value>, entries: map<Value, Stat>)
    requires WellFormed(tb)
    requires var m := Get(it, "material");
      && keys == (if m in tb.entries then tb.keys else tb.keys + [m])
      && entries == (if m in tb.entries then tb.entries else tb.entries[m := FreshStat(|tb.keys|, m)])
    ensures var m := Get(it, "material");
      && m in entries
      && var e := entries[m];
         Table(keys, entries[m := e.(weight := Add(e.weight, Amount(Get(it, Field(Weight)))),
                                     amount := Add(e.amount, Amount(Get(it, Field(Money)))))])
         == Put(tb, m, Bumped(tb, it))
  {
    var m := Get(it, "material");
    var b := Bumped(tb, it);
    if m !in tb.entries {
      assert entries[m := b] == tb.entries[m := b];
    }
  }

  lemma AccumulateSnoc(tb: Table, items: seq<Record>, j: nat, filter: Option<set<Value>>)
    requires WellFormed(tb) && j < |items|
    ensures Accumulate(tb, items[..j + 1], filter) == AddItem(Accumulate(tb, items[..j], filter), items[j], filter)
  {
    assert items[..j + 1][..j] == items[..j];
  }

  /** One item: it adds its material when counted, and nothing else. */
  lemma AddItemKeys(tb: Table, it: Record, filter: Option<set<Value>>)
    requires WellFormed(tb)
    ensures Extends(tb, AddItem(tb, it, filter))
    ensures forall k :: k in AddItem(tb, it, filter).entries <==>
      k in tb.entries || (Counted(it, filter) && Get(it, "material") == k)
  {
    AddItemPut(tb, it, filter);
    if Counted(it, filter) {
      var m := Get(it, "material");
      var res := Put(tb, m, Bumped(tb, it));
      if m in tb.entries {
        assert SameHeading(Bumped(tb, it), tb.entries[m]);
      } else {
        assert res.keys[..|tb.keys|] == tb.keys;
      }
    }
  }

  /** One item keeps the lines numbered. */
  lemma AddItemNumbered(tb: Table, it: Record, filter: Option<set<Value>>)
    requires WellFormed(tb) && Numbered(tb)
    ensures Numbered(AddItem(tb, it, filter))
  {
    AddItemPut(tb, it, filter);
    var m := Get(it, "material");
    if Counted(it, filter) && m !in tb.entries {
      AppendNumbered(tb, Put(tb, m, Bumped(tb, it)), m);
    } else if Counted(it, filter) {
      assert Put(tb, m, Bumped(tb, it)).keys == tb.keys;
    }
  }

  /** A line appended to a numbered table with the next number keeps it numbered. */
  lemma AppendNumbered(tb: Table, res: Table, m: Value)
    requires WellFormed(tb) && WellFormed(res) && m !in tb.entries
    requires res.keys == tb.keys + [m] && res.entries[m].seqNo == |tb.keys| + 1
    requires forall k :: k in tb.entries ==> res.entries[k].seqNo == tb.entries[k].seqNo
    ensures Numbered(tb) ==> Numbered(res)
  {
    if Numbered(tb) {
      forall i | 0 <= i < |res.keys| ensures res.entries[res.keys[i]].seqNo == i + 1 {
        if i < |tb.keys| {
          assert res.keys[i] == tb.keys[i];
        }
      }
    }
  }

  /** One item adds its amounts to its material's line. */
  lemma AddItemTotals(tb: Table, it: Record, filter: Option<set<Value>>, c: Column)
    requires WellFormed(tb)
    ensures forall k :: k in AddItem(tb, it, filter).entries ==>
      Measure(AddItem(tb, it, filter).entries[k], c) == Add(Base(tb, k, c), ItemAmount(it, filter, k, c))
  {
    forall k | k in AddItem(tb, it, filter).entries
      ensures Measure(AddItem(tb, it, filter).entries[k], c) == Add(Base(tb, k, c), ItemAmount(it, filter, k, c))
    {
      AddItemTotal(tb, it, filter, c, k);
    }
  }

  /** What one item adds to material `k`'s total. */
  function ItemAmount(it: Record, filter: Option<set<Value>>, k: Value, c: Column): Number {
    if Counted(it, filter) && Get(it, "material") == k then Amount(Get(it, Field(c))) else Fin(0.0)
  }

  lemma AddItemTotal(tb: Table, it: Record, filter: Option<set<Value>>, c: Column, k: Value)
    requires WellFormed(tb) && k in AddItem(tb, it, filter).entries
    ensures Measure(AddItem(tb, it, filter).entries[k], c) == Add(Base(tb, k, c), ItemAmount(it, filter, k, c))
  {
    var res := AddItem(tb, it, filter);
    var m := Get(it, "material");
    if Counted(it, filter) && k == m {
      var e := if m in tb.entries then tb.entries[m] else FreshStat(|tb.keys|, m);
      assert Measure(e, c) == Base(tb, m, c);
      var w, a := Amount(Get(it, Field(Weight))), Amount(Get(it, Field(Money)));
      assert res.entries[m] == e.(weight := Add(e.weight, w), amount := Add(e.amount, a));
    } else {
      assert res.entries[k] == tb.entries[k];
      AddZero(Base(tb, k, c));
    }
  }

  lemma AddZero(x: Number)
    ensures Add(x, Fin(0.0)) == x && Add(Fin(0.0), x) == x
  {
  }

  lemma AddAssoc(x: Number, y: Number, z: Number)
    ensures Add(Add(x, y), z) == Add(x, Add(y, z))
  {
  }

  /** Adding up the items keeps every existing line in its place and with
      its heading, adds a line exactly for each newly counted material,
      priced at 0 with empty notes, and keeps the numbering. */
  lemma AccumulateKeys(tb: Table, items: seq<Record>, filter: Option<set<Value>>)
    requires WellFormed(tb)
    ensures Extends(tb, Accumulate(tb, items, filter))
    ensures forall k :: k in Accumulate(tb, items, filter).entries <==> k in tb.entries || k in CountedMaterials(items, filter)
    ensures Numbered(tb) ==> Numbered(Accumulate(tb, items, filter))
  {
    AccumulateExtends(tb, items, filter);
    AccumulateDomain(tb, items, filter);
    if Numbered(tb) {
      AccumulateNumbered(tb, items, filter);
    }
  }

  lemma {:induction false} AccumulateExtends(tb: Table, items: seq<Record>, filter: Option<set<Value>>)
    requires WellFormed(tb)
    ensures Extends(tb, Accumulate(tb, items, filter))
  {
    if items != [] {
      var n := |items| - 1;
      var mid := Accumulate(tb, items[..n], filter);
      AccumulateExtends(tb, items[..n], filter);
      AddItemKeys(mid, items[n], filter);
      ExtendsTrans(tb, mid, Accumulate(tb, items, filter));
    }
  }

  lemma {:induction false} AccumulateDomain(tb: Table, items: seq<Record>, filter: Option<set<Value>>)
    requires WellFormed(tb)
    ensures forall k :: k in Accumulate(tb, items, filter).entries <==> k in tb.entries || k in CountedMaterials(items, filter)
  {
    if items != [] {
      var n := |items| - 1;
      var front := items[..n];
      AccumulateDomain(tb, front, filter);
      AddItemKeys(Accumulate(tb, front, filter), items[n], filter);
      assert items == front + [items[n]];
      assert forall it :: it in items <==> it in front || it == items[n];
    }
  }

  lemma {:induction false} AccumulateNumbered(tb: Table, items: seq<Record>, filter: Option<set<Value>>)
    requires WellFormed(tb) && Numbered(tb)
    ensures Numbered(Accumulate(tb, items, filter))
  {
    if items != [] {
      var n := |items| - 1;
      AccumulateNumbered(tb, items[..n], filter);
      AddItemNumbered(Accumulate(tb, items[..n], filter), items[n], filter);
    }
  }

  /** Nothing counted for a material adds up to 0. */
  lemma {:induction false} TotalNone(items: seq<Record>, filter: Option<set<Value>>, m: Value, c: Column)
    requires m !in CountedMaterials(items, filter)
    ensures Total(items, filter, m, c) == Fin(0.0)
  {
    if items != [] {
      var n := |items| - 1;
      assert items[n] in items;
      assert forall it :: it in items[..n] ==> it in items;
      TotalNone(items[..n], filter, m, c);
    }
  }

  /** What a line holds before the items are added: its entry's total, or 0
      for a material without one. */
  function Base(tb: Table, k: Value, c: Column): Number {
    if k in tb.entries then Measure(tb.entries[k], c) else Fin(0.0)
  }

  /** Every line ends up holding what it started with plus the reference
      total of its material. */
  lemma {:induction false} AccumulateTotals(tb: Table, items: seq<Record>, filter: Option<set<Value>>, c: Column)
    requires WellFormed(tb)
    ensures forall k :: k in Accumulate(tb, items, filter).entries ==>
      Measure(Accumulate(tb, items, filter).entries[k], c) == Add(Base(tb, k, c), Total(items, filter, k, c))
  {
    if items != [] {
      var n := |items| - 1;
      var front := items[..n];
      var it := items[n];
      AccumulateTotals(tb, front, filter, c);
      AccumulateKeys(tb, front, filter);
      var mid := Accumulate(tb, front, filter);
      AddItemTotals(mid, it, filter, c);
      AddItemKeys(mid, it, filter);
      forall k | k in Accumulate(tb, items, filter).entries
        ensures Measure(Accumulate(tb, items, filter).entries[k], c) == Add(Base(tb, k, c), Total(items, filter, k, c))
      {
        var a := ItemAmount(it, filter, k, c);
        assert Total(items, filter, k, c) == Add(Total(front, filter, k, c), a);
        if k in mid.entries {
          AddAssoc(Base(tb, k, c), Total(front, filter, k, c), a);
        } else {
          TotalNone(front, filter, k, c);
          AddZero(a);
        }
      }
    }
  }

  function RowMaterials(rows: seq<Stat>): set<Value> {
    set s | s in rows :: s.material
  }

  lemma ValuesSpec(tb: Table)
    requires WellFormed(tb)
    ensures |Values(tb)| == |tb.keys|
    ensures forall s :: s in Values(tb) <==> exists k :: k in tb.entries && tb.entries[k] == s
    ensures RowMaterials(Values(tb)) == tb.entries.Keys
    ensures forall i, j :: 0 <= i < j < |Values(tb)| ==> Values(tb)[i].material != Values(tb)[j].material
  {
    var rows := Values(tb);
    forall s | s in rows ensures exists k :: k in tb.entries && tb.entries[k] == s {
      var i :| 0 <= i < |rows| && rows[i] == s;
      assert tb.keys[i] in tb.entries;
    }
    forall k | k in tb.entries ensures tb.entries[k] in rows && k in RowMaterials(rows) {
      var i :| 0 <= i < |tb.keys| && tb.keys[i] == k;
      assert rows[i] == tb.entries[k];
    }
  }

  /** The summary has one line per material that is priced or counted,
      each material once. */
  lemma MaterialStatsLines(d: Data, month: string, search: string)
    ensures RowMaterials(MaterialStats(d, month, search))
      == PricedMaterials(d.materialPrices) + CountedMaterials(d.injection.items, OrderFilter(d.injection.orders, month, search))
    ensures var rows := MaterialStats(d, month, search);
      forall i, j :: 0 <= i < j < |rows| ==> rows[i].material != rows[j].material
  {
    var f := OrderFilter(d.injection.orders, month, search);
    var seed := Seed(d.materialPrices);
    SeedKeys(d.materialPrices);
    AccumulateKeys(seed, d.injection.items, f);
    ValuesSpec(Accumulate(seed, d.injection.items, f));
  }

  /** Each line's weight and amount are the reference totals, over the
      counted items, of its material. */
  lemma MaterialStatsTotals(d: Data, month: string, search: string)
    ensures forall s :: s in MaterialStats(d, month, search) ==>
      s.weight == Total(d.injection.items, OrderFilter(d.injection.orders, month, search), s.material, Weight)
    ensures forall s :: s in MaterialStats(d, month, search) ==>
      s.amount == Total(d.injection.items, OrderFilter(d.injection.orders, month, search), s.material, Money)
  {
    var items := d.injection.items;
    var f := OrderFilter(d.injection.orders, month, search);
    var seed := Seed(d.materialPrices);
    var tb := Accumulate(seed, items, f);
    SeedKeys(d.materialPrices);
    AccumulateTotals(seed, items, f, Weight);
    AccumulateTotals(seed, items, f, Money);
    ValuesSpec(tb);
    forall s | s in Values(tb)
      ensures s.weight == Total(items, f, s.material, Weight)
      ensures s.amount == Total(items, f, s.material, Money)
    {
      var k :| k in tb.entries && tb.entries[k] == s;
      AddZero(Total(items, f, k, Weight));
      AddZero(Total(items, f, k, Money));
    }
  }

  /** A priced material's line keeps the position, price and notes of its
      last price; any other material is priced at 0 with empty notes. */
  lemma MaterialStatsHeadings(d: Data, month: string, search: string)
    ensures forall s, i ::
      s in MaterialStats(d, month, search) && LastPrice(d.materialPrices, i) && Get(d.materialPrices[i], "material") == s.material ==>
        SameHeading(s, PriceStat(i, d.materialPrices[i]))
    ensures forall s :: s in MaterialStats(d, month, search) && s.material !in PricedMaterials(d.materialPrices) ==>
      s.unitPrice == Num(0.0) && s.notes == Str("")
  {
    var prices := d.materialPrices;
    var f := OrderFilter(d.injection.orders, month, search);
    var seed := Seed(prices);
    var tb := Accumulate(seed, d.injection.items, f);
    SeedKeys(prices);
    SeedLast(prices);
    AccumulateKeys(seed, d.injection.items, f);
    ValuesSpec(tb);
    forall s, i | s in Values(tb) && LastPrice(prices, i) && Get(prices[i], "material") == s.material
      ensures SameHeading(s, PriceStat(i, prices[i]))
    {
      var k :| k in tb.entries && tb.entries[k] == s;
      assert prices[i] in prices;
    }
  }

  /** With each material priced once, the summary starts with the price
      table's materials in order and numbers its lines from 1. */
  lemma MaterialStatsNumbered(d: Data, month: string, search: string)
    requires DistinctMaterials(d.materialPrices)
    ensures var rows := MaterialStats(d, month, search);
      && |d.materialPrices| <= |rows|
      && (forall i :: 0 <= i < |rows| ==> rows[i].seqNo == i + 1)
      && (forall i :: 0 <= i < |d.materialPrices| ==> rows[i].material == Get(d.materialPrices[i], "material"))
  {
    var prices := d.materialPrices;
    var f := OrderFilter(d.injection.orders, month, search);
    var seed := Seed(prices);
    var tb := Accumulate(seed, d.injection.items, f);
    SeedNumbered(prices);
    AccumulateKeys(seed, d.injection.items, f);
    forall i | 0 <= i < |prices| ensures tb.entries[tb.keys[i]].material == Get(prices[i], "material") {
      assert tb.keys[i] == tb.keys[..|seed.keys|][i];
    }
  }
}
