/** The order and item tables of one order type and what the handlers do to
    them: list, get, create, update, delete, status patch and item-field
    patch. Each operation is a function from the document before the request
    to the document after it. */
module Orders {
  import opened Json
  import opened Records
  import opened Sorting
  import opened Store

  /** The status an order gets when it is created without one. */
  const Pending: string := "待生产"

  /** `i.order_id === v`. */
  function OwnerPattern(v: Value): Record { map["order_id" := v] }

  /** An order together with its items, as the get handlers answer it. */
  datatype OrderView = OrderView(order: Record, items: seq<Record>)

  /** `items.filter(i => i.order_id === v).sort((a, b) => a.sort_order - b.sort_order)`. */
  function ItemsOf(items: seq<Record>, v: Value): seq<Record> {
    SortBy(Select(items, OwnerPattern(v)), "sort_order", false)
  }

  /** `getOrderById`: the first order with the id and its items. */
  function GetOrderById(d: Data, t: OrderType, id: int): Option<OrderView> {
    var tb := d.Get(t);
    match Lookup(tb.orders, IdPattern(id))
    case None => None
    case Some(o) => Some(OrderView(o, ItemsOf(tb.items, Num(id as real))))
  }

  /** `getOrders`: every order, newest id first, each with its items. */
  function GetOrders(d: Data, t: OrderType): seq<OrderView> {
    var tb := d.Get(t);
    var sorted := SortBy(tb.orders, "id", true);
    seq(|sorted|, i requires 0 <= i < |sorted| => OrderView(sorted[i], ItemsOf(tb.items, IdOf(sorted[i]))))
  }

  /** `{ id, ...header, status: header.status || '待生产', created_at: now, updated_at: now }`. */
  function NewOrder(id: nat, header: Record, now: string): Record {
    map["id" := Num(id as real)] + header
    + map["status" := Or(Get(header, "status"), Str(Pending)), "created_at" := Str(now), "updated_at" := Str(now)]
  }

  /** `{ id, order_id, sort_order: k, ...it }`: the caller's fields come last. */
  function NewItem(id: nat, orderId: Value, k: nat, it: Record): Record {
    map["id" := Num(id as real), "order_id" := orderId, "sort_order" := Num(k as real)] + it
  }

  /** The items pushed by one `items.forEach`, with ids from `first` on. */
  function NewItems(items: seq<Record>, orderId: Value, first: nat): (res: seq<Record>)
    ensures |res| == |items|
  {
    seq(|items|, k requires 0 <= k < |items| => NewItem(first + k, orderId, k, items[k]))
  }

  /** No input item overrides the id or the owner the server assigns. */
  predicate NoIdKeys(items: seq<Record>) {
    forall k :: 0 <= k < |items| ==> "id" !in items[k] && "order_id" !in items[k]
  }

  /** No input item overrides the position the server assigns. */
  predicate NoSortKeys(items: seq<Record>) {
    forall k :: 0 <= k < |items| ==> "sort_order" !in items[k]
  }

  /** `createOrder`. */
  function CreateOrder(d: Data, t: OrderType, header: Record, items: seq<Record>, now: string): Data {
    d.With(t, Tables(d.Get(t).orders + [NewOrder(d.nextId, header, now)],
                     d.Get(t).items + NewItems(items, Num(d.nextId as real), d.nextId + 1)))
     .(nextId := d.nextId + 1 + |items|)
  }

  /** `{ ...o, ...header, updated_at: now }`. */
  function MergeHeader(o: Record, header: Record, now: string): Record {
    o + header + map["updated_at" := Str(now)]
  }

  /** The item table after `items` replaced the items of order `id`: the
      other items in their order, then the new ones with ids from `first` on. */
  function ReplaceItems(table: seq<Record>, id: int, items: seq<Record>, first: nat): seq<Record> {
    Reject(table, OwnerPattern(Num(id as real))) + NewItems(items, Num(id as real), first)
  }

  /** `updateOrder`: None when no order has the id (the handler's null);
      `items` is None when the request carries no items array. */
  function UpdateOrder(d: Data, t: OrderType, id: int, header: Record, items: Option<seq<Record>>, now: string): Option<Data> {
    match Find(d.Get(t).orders, IdPattern(id))
    case None => None
    case Some(i) =>
      var orders := d.Get(t).orders[i := MergeHeader(d.Get(t).orders[i], header, now)];
      match items
      case None => Some(d.With(t, Tables(orders, d.Get(t).items)))
      case Some(its) =>
        Some(d.With(t, Tables(orders, ReplaceItems(d.Get(t).items, id, its, d.nextId))).(nextId := d.nextId + |its|))
  }

  /** `deleteOrder`: drop the orders with the id and the items they own. */
  function DeleteOrder(d: Data, t: OrderType, id: int): Data {
    var tb := d.Get(t);
    d.With(t, Tables(Reject(tb.orders, IdPattern(id)), Reject(tb.items, OwnerPattern(Num(id as real)))))
  }

  /** `updateStatus`: nothing happens when no order has the id. */
  function UpdateStatus(d: Data, t: OrderType, id: int, status: Value, now: string): Data {
    var tb := d.Get(t);
    match Find(tb.orders, IdPattern(id))
    case None => d
    case Some(i) =>
      d.With(t, Tables(tb.orders[i := tb.orders[i]["status" := status]["updated_at" := Str(now)]], tb.items))
  }

  /** The fields an item patch may write: all but `id`, `order_id`, `sort_order`. */
  function PatchFields(u: Record): Record {
    u - {"id", "order_id", "sort_order"}
  }

  /** `i.id === +u.id && i.order_id === +orderId`; None when `+u.id` is NaN. */
  function PatchTarget(u: Record, orderId: int): Option<Record> {
    match ToNumber(Get(u, "id"))
    case NaN => None
    case Fin(x) => Some(map["id" := Num(x), "order_id" := Num(orderId as real)])
  }

  /** One update of the item-patch handler: `Object.assign` on the first match. */
  function PatchItem(items: seq<Record>, orderId: int, u: Record): (res: seq<Record>)
    ensures |res| == |items|
  {
    match PatchTarget(u, orderId)
    case None => items
    case Some(p) =>
      match Find(items, p)
      case None => items
      case Some(i) => items[i := items[i] + PatchFields(u)]
  }

  /** `updates.forEach(...)`: the updates applied in order. */
  function PatchItems(items: seq<Record>, orderId: int, updates: seq<Record>): (res: seq<Record>)
    ensures |res| == |items|
  {
    if updates == [] then items
    else PatchItem(PatchItems(items, orderId, updates[..|updates| - 1]), orderId, updates[|updates| - 1])
  }

  /** The item-patch handler on the document. */
  function PatchOrderItems(d: Data, t: OrderType, orderId: int, updates: seq<Record>): Data {
    var tb := d.Get(t);
    d.With(t, Tables(tb.orders, PatchItems(tb.items, orderId, updates)))
  }

  // ---------------------------------------------------------------------
  // createOrder

  function IdRange(first: nat, n: nat): seq<Value> {
    seq(n, k requires 0 <= k < n => Num((first + k) as real))
  }

  lemma {:induction false} IdRangeMinted(first: nat, n: nat)
    ensures multiset(IdRange(first, n)) == Minted(first, n)
  {
    if n > 0 {
      var last := Num((first + n - 1) as real);
      IdRangeSnoc(first, n);
      IdRangeMinted(first, n - 1);
      MintedSnoc(first, n);
      assert multiset(IdRange(first, n)) == multiset(IdRange(first, n - 1)) + multiset{last};
    }
  }

  lemma MintedSnoc(first: nat, n: nat)
    requires n > 0
    ensures Minted(first, n) == Minted(first, n - 1) + multiset{Num((first + n - 1) as real)}
  {
  }

  lemma IdRangeSnoc(first: nat, n: nat)
    requires n > 0
    ensures IdRange(first, n) == IdRange(first, n - 1) + [Num((first + n - 1) as real)]
  {
    assert IdRange(first, n) == IdRange(first, n - 1) + [Num((first + n - 1) as real)];
  }

  lemma NewItemFields(id: nat, orderId: Value, k: nat, it: Record)
    ensures "id" !in it ==> IdOf(NewItem(id, orderId, k, it)) == Num(id as real)
    ensures "order_id" !in it ==> Get(NewItem(id, orderId, k, it), "order_id") == orderId
    ensures "sort_order" !in it ==> Get(NewItem(id, orderId, k, it), "sort_order") == Num(k as real)
    ensures forall f :: f in it ==> NewItem(id, orderId, k, it)[f] == it[f]
  {
  }

  /** The ids the new items carry are the next ones drawn from the counter. */
  lemma NewItemsIds(items: seq<Record>, orderId: Value, first: nat)
    requires NoIdKeys(items)
    ensures Ids(NewItems(items, orderId, first)) == Minted(first, |items|)
  {
    var news := NewItems(items, orderId, first);
    forall k | 0 <= k < |items| ensures IdSeq(news)[k] == IdRange(first, |items|)[k] {
      NewItemFields(first + k, orderId, k, items[k]);
    }
    assert IdSeq(news) == IdRange(first, |items|);
    IdRangeMinted(first, |items|);
  }

  /** Every new item belongs to the order it was created for, and to no other. */
  lemma NewItemsOwned(items: seq<Record>, orderId: Value, first: nat, v: Value)
    requires NoIdKeys(items)
    ensures forall r :: r in NewItems(items, orderId, first) ==> (Matches(r, OwnerPattern(v)) <==> v == orderId)
  {
    var news := NewItems(items, orderId, first);
    forall r | r in news ensures Matches(r, OwnerPattern(v)) <==> v == orderId {
      var k :| 0 <= k < |news| && news[k] == r;
      NewItemFields(first + k, orderId, k, items[k]);
      MatchesOne(r, "order_id", v);
    }
  }

  /** The new items are in `sort_order` already. */
  lemma NewItemsOrdered(items: seq<Record>, orderId: Value, first: nat)
    requires NoSortKeys(items)
    ensures Ordered(NewItems(items, orderId, first), "sort_order", false)
  {
    var news := NewItems(items, orderId, first);
    forall i, j | 0 <= i < j < |news| ensures !Precedes(news[j], news[i], "sort_order", false) {
      NewItemFields(first + j, orderId, j, items[j]);
      NewItemFields(first + i, orderId, i, items[i]);
    }
  }

  /** Reading back a table whose items of `v` are exactly `news`, already in
      position order. */
  lemma ItemsOfAppended(old_: seq<Record>, news: seq<Record>, v: Value)
    requires forall r :: r in old_ ==> !Matches(r, OwnerPattern(v))
    requires forall r :: r in news ==> Matches(r, OwnerPattern(v))
    requires Ordered(news, "sort_order", false)
    ensures ItemsOf(old_ + news, v) == news
  {
    SelectConcat(old_, news, OwnerPattern(v));
    SelectNone(old_, OwnerPattern(v));
    SelectAll(news, OwnerPattern(v));
    assert Select(old_ + news, OwnerPattern(v)) == news;
    SortByOrdered(news, "sort_order", false);
  }

  /** Under the invariant no order or item refers to the next id yet. */
  lemma NothingAtNextId(d: Data, t: OrderType)
    requires Valid(d)
    ensures forall r :: r in d.Get(t).orders ==> !Matches(r, IdPattern(d.nextId))
    ensures forall r :: r in d.Get(t).items ==> !Matches(r, OwnerPattern(Num(d.nextId as real)))
  {
    SplitIds(d, t);
    forall r | r in d.Get(t).orders ensures !Matches(r, IdPattern(d.nextId)) {
      IdIn(d.Get(t).orders, r);
      MatchesOne(r, "id", Num(d.nextId as real));
    }
    forall r | r in d.Get(t).items ensures !Matches(r, OwnerPattern(Num(d.nextId as real))) {
      IdFromOwner(d, t, r);
      MatchesOne(r, "order_id", Num(d.nextId as real));
    }
  }

  lemma FindAppended(s: seq<Record>, r: Record, p: Record)
    requires forall x :: x in s ==> !Matches(x, p)
    requires Matches(r, p)
    ensures Find(s + [r], p) == Some(|s|)
  {
    assert (s + [r])[|s|] == r;
    forall j | 0 <= j < |s| ensures !Matches((s + [r])[j], p) {
      assert (s + [r])[j] == s[j];
    }
  }

  /** What createOrder stores for the order: it goes last, takes the old
      `nextId`, its status defaults to pending and it is stamped with the
      time; the counter grows by one per entity. */
  lemma CreateOrderAssigns(d: Data, t: OrderType, header: Record, items: seq<Record>, now: string)
    requires "id" !in header
    ensures var d2 := CreateOrder(d, t, header, items, now);
      var orders := d2.Get(t).orders;
      && d2.nextId == d.nextId + 1 + |items|
      && orders[..|orders| - 1] == d.Get(t).orders
      && IdOf(orders[|orders| - 1]) == Num(d.nextId as real)
      && Get(orders[|orders| - 1], "status") == Or(Get(header, "status"), Str(Pending))
      && Get(orders[|orders| - 1], "created_at") == Str(now)
  {
    var orders := d.Get(t).orders + [NewOrder(d.nextId, header, now)];
    CreateOrderTables(d, t, header, items, now);
    assert orders[..|orders| - 1] == d.Get(t).orders;
  }

  /** What createOrder stores for the items: the old items, then one new
      item per input item, in input order. */
  lemma CreateOrderAssignsItems(d: Data, t: OrderType, header: Record, items: seq<Record>, now: string)
    ensures var its := CreateOrder(d, t, header, items, now).Get(t).items;
      var n := |d.Get(t).items|;
      && |its| == n + |items| && its[..n] == d.Get(t).items
      && its[n..] == NewItems(items, Num(d.nextId as real), d.nextId + 1)
  {
    var n := |d.Get(t).items|;
    var its := d.Get(t).items + NewItems(items, Num(d.nextId as real), d.nextId + 1);
    CreateOrderTables(d, t, header, items, now);
    assert its[..n] == d.Get(t).items;
    assert its[n..] == NewItems(items, Num(d.nextId as real), d.nextId + 1);
  }

  /** Item k of the pushed items takes id `first + k`, belongs to the order,
      sits at position k and keeps the caller's fields. */
  lemma NewItemsAssign(items: seq<Record>, owner: Value, first: nat)
    requires NoIdKeys(items) && NoSortKeys(items)
    ensures var news := NewItems(items, owner, first);
      forall k :: 0 <= k < |items| ==>
        && IdOf(news[k]) == Num((first + k) as real)
        && Get(news[k], "order_id") == owner
        && Get(news[k], "sort_order") == Num(k as real)
        && forall f :: f in items[k] ==> news[k][f] == items[k][f]
  {
    forall k | 0 <= k < |items|
      ensures var r := NewItems(items, owner, first)[k];
        && IdOf(r) == Num((first + k) as real)
        && Get(r, "order_id") == owner
        && Get(r, "sort_order") == Num(k as real)
        && forall f :: f in items[k] ==> r[f] == items[k][f]
    {
      NewItemFields(first + k, owner, k, items[k]);
    }
  }

  /** The tables createOrder leaves behind: the old rows, then the new ones;
      the other types' tables untouched. */
  lemma CreateOrderTables(d: Data, t: OrderType, header: Record, items: seq<Record>, now: string)
    ensures var d2 := CreateOrder(d, t, header, items, now);
      var tb2 := Tables(d.Get(t).orders + [NewOrder(d.nextId, header, now)],
                        d.Get(t).items + NewItems(items, Num(d.nextId as real), d.nextId + 1));
      && d2.Get(t) == tb2
      && d2.nextId == d.nextId + 1 + |items|
      && (forall u :: u != t ==> d2.Get(u) == d.Get(u))
      && AllIds(d2) == OtherIds(d, t) + TableIds(tb2)
  {
    var tb2 := Tables(d.Get(t).orders + [NewOrder(d.nextId, header, now)],
                      d.Get(t).items + NewItems(items, Num(d.nextId as real), d.nextId + 1));
    WithNextOf(d, t, tb2, d.nextId + 1 + |items|, CreateOrder(d, t, header, items, now));
  }

  /** Reading the new order back gives the order and exactly the input items,
      in input order. */
  lemma CreateOrderReadBack(d: Data, t: OrderType, header: Record, items: seq<Record>, now: string)
    requires Valid(d) && "id" !in header && NoIdKeys(items) && NoSortKeys(items)
    ensures GetOrderById(CreateOrder(d, t, header, items, now), t, d.nextId)
         == Some(OrderView(NewOrder(d.nextId, header, now), NewItems(items, Num(d.nextId as real), d.nextId + 1)))
  {
    NothingAtNextId(d, t);
    CreateOrderFindsOrder(d, t, header, items, now);
    CreateOrderFindsItems(d, t, header, items, now);
  }

  lemma CreateOrderFindsOrder(d: Data, t: OrderType, header: Record, items: seq<Record>, now: string)
    requires forall r :: r in d.Get(t).orders ==> !Matches(r, IdPattern(d.nextId))
    requires "id" !in header
    ensures Lookup(CreateOrder(d, t, header, items, now).Get(t).orders, IdPattern(d.nextId))
         == Some(NewOrder(d.nextId, header, now))
  {
    CreateOrderTables(d, t, header, items, now);
    LookupAppended(d.Get(t).orders, NewOrder(d.nextId, header, now), d.nextId);
  }

  lemma CreateOrderFindsItems(d: Data, t: OrderType, header: Record, items: seq<Record>, now: string)
    requires forall r :: r in d.Get(t).items ==> !Matches(r, OwnerPattern(Num(d.nextId as real)))
    requires NoIdKeys(items) && NoSortKeys(items)
    ensures ItemsOf(CreateOrder(d, t, header, items, now).Get(t).items, Num(d.nextId as real))
         == NewItems(items, Num(d.nextId as real), d.nextId + 1)
  {
    CreateOrderTables(d, t, header, items, now);
    NewItemsReadBack(d.Get(t).items, items, d.nextId);
  }

  /** What the get handler answers, from what `find` and the item filter give. */
  lemma ReadBack(d: Data, t: OrderType, id: int, o: Record, items: seq<Record>)
    requires Lookup(d.Get(t).orders, IdPattern(id)) == Some(o)
    requires ItemsOf(d.Get(t).items, Num(id as real)) == items
    ensures GetOrderById(d, t, id) == Some(OrderView(o, items))
  {
  }

  lemma LookupAppended(orders: seq<Record>, o: Record, id: nat)
    requires forall r :: r in orders ==> !Matches(r, IdPattern(id))
    requires Get(o, "id") == Num(id as real)
    ensures Lookup(orders + [o], IdPattern(id)) == Some(o)
  {
    MatchesOne(o, "id", Num(id as real));
    FindAppended(orders, o, IdPattern(id));
  }

  lemma NewItemsReadBack(old_: seq<Record>, items: seq<Record>, id: nat)
    requires forall r :: r in old_ ==> !Matches(r, OwnerPattern(Num(id as real)))
    requires NoIdKeys(items) && NoSortKeys(items)
    ensures ItemsOf(old_ + NewItems(items, Num(id as real), id + 1), Num(id as real))
         == NewItems(items, Num(id as real), id + 1)
  {
    NewItemsOwned(items, Num(id as real), id + 1, Num(id as real));
    NewItemsOrdered(items, Num(id as real), id + 1);
    ItemsOfAppended(old_, NewItems(items, Num(id as real), id + 1), Num(id as real));
  }

  /** Under the invariant an item's owner id is an id below `nextId`. */
  lemma IdFromOwner(d: Data, t: OrderType, it: Record)
    requires Valid(d) && it in d.Get(t).items
    ensures var v := Get(it, "order_id"); v.Num? && v.n < d.nextId as real
  {
    var r := IdFrom(d.Get(t).orders, Get(it, "order_id"));
    IdIn(d.Get(t).orders, r);
    SplitIds(d, t);
  }

  lemma NewOrderFields(id: nat, header: Record, now: string)
    requires "id" !in header
    ensures IdOf(NewOrder(id, header, now)) == Num(id as real)
  {
  }

  /** The ids of a table after appending one order and some items. */
  lemma AppendIds(tb: Tables, o: Record, news: seq<Record>)
    ensures TableIds(Tables(tb.orders + [o], tb.items + news)) == TableIds(tb) + (multiset{IdOf(o)} + Ids(news))
  {
    IdsConcat(tb.orders, [o]);
    IdsConcat(tb.items, news);
    assert IdSeq([o]) == [IdOf(o)];
  }

  /** createOrder adds the ids it draws and nothing else. */
  lemma CreateOrderIds(d: Data, t: OrderType, header: Record, items: seq<Record>, now: string)
    requires "id" !in header && NoIdKeys(items)
    ensures AllIds(CreateOrder(d, t, header, items, now))
         == AllIds(d) + (multiset{Num(d.nextId as real)} + Minted(d.nextId + 1, |items|))
  {
    var o := NewOrder(d.nextId, header, now);
    var news := NewItems(items, Num(d.nextId as real), d.nextId + 1);
    calc {
      AllIds(CreateOrder(d, t, header, items, now));
      == { CreateOrderTables(d, t, header, items, now); }
      OtherIds(d, t) + TableIds(Tables(d.Get(t).orders + [o], d.Get(t).items + news));
      == { AppendIds(d.Get(t), o, news); }
      OtherIds(d, t) + (TableIds(d.Get(t)) + (multiset{IdOf(o)} + Ids(news)));
      == { NewOrderFields(d.nextId, header, now);
           NewItemsIds(items, Num(d.nextId as real), d.nextId + 1);
           SplitIds(d, t);
           Regroup(OtherIds(d, t), TableIds(d.Get(t)), AllIds(d), multiset{IdOf(o)} + Ids(news),
                   multiset{Num(d.nextId as real)} + Minted(d.nextId + 1, |items|)); }
      AllIds(d) + (multiset{Num(d.nextId as real)} + Minted(d.nextId + 1, |items|));
    }
  }

  /** Appending an order and items that all belong to it keeps the tables owned. */
  lemma AppendOwned(tb: Tables, o: Record, news: seq<Record>)
    requires Owned(tb)
    requires forall it :: it in news ==> Get(it, "order_id") == IdOf(o)
    ensures Owned(Tables(tb.orders + [o], tb.items + news))
  {
    IdsConcat(tb.orders, [o]);
    assert IdSeq([o]) == [IdOf(o)];
  }

  /** Every item of a createOrder result has an owner among the orders. */
  lemma CreateOrderOwners(d: Data, t: OrderType, header: Record, items: seq<Record>, now: string)
    requires NoOrphans(d) && "id" !in header && NoIdKeys(items)
    ensures NoOrphans(CreateOrder(d, t, header, items, now))
  {
    var o := NewOrder(d.nextId, header, now);
    var news := NewItems(items, Num(d.nextId as real), d.nextId + 1);
    var tb2 := Tables(d.Get(t).orders + [o], d.Get(t).items + news);
    assert CreateOrder(d, t, header, items, now) == d.With(t, tb2).(nextId := d.nextId + 1 + |items|);
    NewOrderFields(d.nextId, header, now);
    NewItemsOwned(items, Num(d.nextId as real), d.nextId + 1, Num(d.nextId as real));
    forall it | it in news ensures Get(it, "order_id") == IdOf(o) {
      MatchesOne(it, "order_id", Num(d.nextId as real));
    }
    assert Owned(d.Get(t));
    AppendOwned(d.Get(t), o, news);
    OwnedWith(d, t, tb2, d.nextId + 1 + |items|);
  }

  /** createOrder keeps every id in the document distinct and below `nextId`,
      and every item owned by an order. */
  lemma CreateOrderKeepsValid(d: Data, t: OrderType, header: Record, items: seq<Record>, now: string)
    requires Valid(d) && "id" !in header && NoIdKeys(items)
    ensures Valid(CreateOrder(d, t, header, items, now))
  {
    CreateOrderFreshIds(d, t, header, items, now);
    CreateOrderOwners(d, t, header, items, now);
  }

  /** The ids createOrder draws are fresh and below the new counter. */
  lemma CreateOrderFreshIds(d: Data, t: OrderType, header: Record, items: seq<Record>, now: string)
    requires IdsBelow(d) && IdsDistinct(d) && "id" !in header && NoIdKeys(items)
    ensures var d2 := CreateOrder(d, t, header, items, now); IdsBelow(d2) && IdsDistinct(d2)
  {
    CreateOrderIds(d, t, header, items, now);
    MintingRunKeepsIds(d, CreateOrder(d, t, header, items, now), |items|);
  }

  // ---------------------------------------------------------------------
  // updateOrder

  /** The document updateOrder leaves behind when the id is found. */
  lemma UpdateOrderShape(d: Data, t: OrderType, id: int, header: Record, items: Option<seq<Record>>, now: string)
    requires Find(d.Get(t).orders, IdPattern(id)).Some?
    ensures var tb := d.Get(t);
      var i := Find(tb.orders, IdPattern(id)).value;
      var orders := tb.orders[i := MergeHeader(tb.orders[i], header, now)];
      UpdateOrder(d, t, id, header, items, now)
      == Some(if items.None? then d.With(t, Tables(orders, tb.items)).(nextId := d.nextId)
              else d.With(t, Tables(orders, ReplaceItems(tb.items, id, items.value, d.nextId))).(nextId := d.nextId + |items.value|))
  {
  }

  /** Replacing a matched record by one that still matches leaves it the first match. */
  lemma FindUpdate(s: seq<Record>, i: nat, r: Record, p: Record)
    requires Find(s, p) == Some(i) && Matches(r, p)
    ensures Find(s[i := r], p) == Some(i)
  {
    var s2 := s[i := r];
    forall j | 0 <= j < i ensures !Matches(s2[j], p) {
      assert s2[j] == s[j];
    }
    assert s2[i] == r;
  }

  /** A matched order gets a shallow merge: the header's fields override, the
      fields it does not supply keep their old values, and `updated_at` is
      restamped. An absent id gives None and changes nothing. */
  lemma UpdateOrderMergesHeader(d: Data, t: OrderType, id: int, header: Record, items: Option<seq<Record>>, now: string)
    ensures var r := UpdateOrder(d, t, id, header, items, now);
      && (r.None? <==> forall o :: o in d.Get(t).orders ==> !Matches(o, IdPattern(id)))
      && (r.Some? ==>
            var i := Find(d.Get(t).orders, IdPattern(id)).value;
            var old_ := d.Get(t).orders[i];
            var orders := r.value.Get(t).orders;
            && |orders| == |d.Get(t).orders|
            && (forall j :: 0 <= j < |orders| && j != i ==> orders[j] == d.Get(t).orders[j])
            && Get(old_, "id") == Num(id as real)
            && orders[i].Keys == old_.Keys + header.Keys + {"updated_at"}
            && forall k :: k in orders[i] ==>
                 orders[i][k] == if k == "updated_at" then Str(now) else if k in header then header[k] else old_[k])
  {
    var orders := d.Get(t).orders;
    var f := Find(orders, IdPattern(id));
    if f.Some? {
      UpdateOrderShape(d, t, id, header, items, now);
      MatchesOne(orders[f.value], "id", Num(id as real));
    } else {
      forall o | o in orders ensures !Matches(o, IdPattern(id)) {
        var j :| 0 <= j < |orders| && orders[j] == o;
      }
    }
  }

  /** Without an items array the item table and the counter are left as they were. */
  lemma UpdateOrderKeepsItems(d: Data, t: OrderType, id: int, header: Record, now: string)
    requires UpdateOrder(d, t, id, header, None, now).Some?
    ensures var d2 := UpdateOrder(d, t, id, header, None, now).value;
      d2.Get(t).items == d.Get(t).items && d2.nextId == d.nextId
  {
  }

  /** The replaced order's items are exactly the new ones, in input order, and
      the items of every other order are exactly as before. */
  lemma ReplaceItemsEffect(table: seq<Record>, id: int, items: seq<Record>, first: nat)
    requires NoIdKeys(items) && NoSortKeys(items)
    ensures ItemsOf(ReplaceItems(table, id, items, first), Num(id as real)) == NewItems(items, Num(id as real), first)
    ensures forall v :: v != Num(id as real) ==>
              Select(ReplaceItems(table, id, items, first), OwnerPattern(v)) == Select(table, OwnerPattern(v))
  {
    var owner := OwnerPattern(Num(id as real));
    var kept := Reject(table, owner);
    var news := NewItems(items, Num(id as real), first);
    NewItemsOwned(items, Num(id as real), first, Num(id as real));
    NewItemsOrdered(items, Num(id as real), first);
    ItemsOfAppended(kept, news, Num(id as real));
    forall v | v != Num(id as real)
      ensures Select(kept + news, OwnerPattern(v)) == Select(table, OwnerPattern(v))
    {
      SelectConcat(kept, news, OwnerPattern(v));
      NewItemsOwned(items, Num(id as real), first, v);
      SelectNone(news, OwnerPattern(v));
      SelectAfterReject(table, "order_id", v, Num(id as real));
    }
  }

  /** With an items array every prior item of the order is gone, the new items
      carry fresh ids and positions 0..n-1 and read back in input order, and
      the items of every other order are exactly as before. */
  lemma UpdateOrderReplacesItems(d: Data, t: OrderType, id: int, header: Record, items: seq<Record>, now: string)
    requires "id" !in header && NoIdKeys(items) && NoSortKeys(items)
    requires UpdateOrder(d, t, id, header, Some(items), now).Some?
    ensures var d2 := UpdateOrder(d, t, id, header, Some(items), now).value;
      && d2.nextId == d.nextId + |items|
      && GetOrderById(d2, t, id).Some?
      && GetOrderById(d2, t, id).value.items == NewItems(items, Num(id as real), d.nextId)
      && forall v :: v != Num(id as real) ==>
           Select(d2.Get(t).items, OwnerPattern(v)) == Select(d.Get(t).items, OwnerPattern(v))
  {
    var tb := d.Get(t);
    var i := Find(tb.orders, IdPattern(id)).value;
    var merged := MergeHeader(tb.orders[i], header, now);
    var tb2 := Tables(tb.orders[i := merged], ReplaceItems(tb.items, id, items, d.nextId));
    var d2 := d.With(t, tb2).(nextId := d.nextId + |items|);
    UpdateOrderShape(d, t, id, header, Some(items), now);
    assert UpdateOrder(d, t, id, header, Some(items), now).value == d2;
    WithNext(d, t, tb2, d.nextId + |items|);
    assert Lookup(tb2.orders, IdPattern(id)) == Some(merged) by {
      MatchesOne(tb.orders[i], "id", Num(id as real));
      MatchesOne(merged, "id", Num(id as real));
      FindUpdate(tb.orders, i, merged, IdPattern(id));
    }
    ReplaceItemsEffect(tb.items, id, items, d.nextId);
    assert d2.Get(t).items == ReplaceItems(tb.items, id, items, d.nextId);
    assert d2.Get(t).orders == tb2.orders;
    ReadBack(d2, t, id, merged, NewItems(items, Num(id as real), d.nextId));
  }

  /** The ids of the tables after an order was merged and its items replaced. */
  lemma ReplaceIds(tb: Tables, i: nat, merged: Record, id: int, items: seq<Record>, first: nat)
    requires i < |tb.orders| && IdOf(merged) == IdOf(tb.orders[i]) && NoIdKeys(items)
    ensures var kept := Reject(tb.items, OwnerPattern(Num(id as real)));
      && Ids(kept) <= Ids(tb.items)
      && TableIds(Tables(tb.orders[i := merged], ReplaceItems(tb.items, id, items, first)))
         == Ids(tb.orders) + (Ids(kept) + Minted(first, |items|))
  {
    var kept := Reject(tb.items, OwnerPattern(Num(id as real)));
    IdsReject(tb.items, OwnerPattern(Num(id as real)));
    IdsUpdate(tb.orders, i, merged);
    IdsConcat(kept, NewItems(items, Num(id as real), first));
    NewItemsIds(items, Num(id as real), first);
  }

  /** The replaced tables stay owned: kept items keep their owners, new items
      belong to the merged order. */
  lemma ReplaceOwned(tb: Tables, i: nat, merged: Record, id: int, items: seq<Record>, first: nat)
    requires Owned(tb) && i < |tb.orders| && IdOf(merged) == IdOf(tb.orders[i]) && IdOf(merged) == Num(id as real)
    requires NoIdKeys(items)
    ensures Owned(Tables(tb.orders[i := merged], ReplaceItems(tb.items, id, items, first)))
  {
    var orders := tb.orders[i := merged];
    IdsUpdate(tb.orders, i, merged);
    assert orders[i] == merged;
    IdIn(orders, merged);
    NewItemsOwned(items, Num(id as real), first, Num(id as real));
    forall it | it in ReplaceItems(tb.items, id, items, first)
      ensures Get(it, "order_id") in Ids(orders)
    {
      if it !in tb.items {
        MatchesOne(it, "order_id", Num(id as real));
      }
    }
  }

  /** Merging a header without an id keeps the order's id. */
  lemma MergeHeaderId(o: Record, header: Record, now: string)
    requires "id" !in header
    ensures IdOf(MergeHeader(o, header, now)) == IdOf(o)
  {
  }

  /** Replacing an order by one with the same id keeps the invariant. */
  lemma MergedKeepsValid(d: Data, t: OrderType, i: nat, merged: Record)
    requires Valid(d) && i < |d.Get(t).orders| && IdOf(merged) == IdOf(d.Get(t).orders[i])
    ensures Valid(d.With(t, Tables(d.Get(t).orders[i := merged], d.Get(t).items)).(nextId := d.nextId))
  {
    var tb := d.Get(t);
    IdsUpdate(tb.orders, i, merged);
    assert Owned(tb);
    SameIdsKeepValid(d, t, Tables(tb.orders[i := merged], tb.items));
  }

  /** Merging an order and replacing its items keeps ids distinct and below
      the counter. */
  lemma ReplacedKeepsIds(d: Data, t: OrderType, i: nat, merged: Record, id: int, items: seq<Record>)
    requires IdsBelow(d) && IdsDistinct(d) && i < |d.Get(t).orders| && NoIdKeys(items)
    requires IdOf(merged) == IdOf(d.Get(t).orders[i])
    ensures var d2 := d.With(t, Tables(d.Get(t).orders[i := merged], ReplaceItems(d.Get(t).items, id, items, d.nextId)))
                       .(nextId := d.nextId + |items|);
      IdsBelow(d2) && IdsDistinct(d2)
  {
    var tb := d.Get(t);
    var tb2 := Tables(tb.orders[i := merged], ReplaceItems(tb.items, id, items, d.nextId));
    var d2 := d.With(t, tb2).(nextId := d.nextId + |items|);
    WithNext(d, t, tb2, d.nextId + |items|);
    SplitIds(d, t);
    ReplaceIds(tb, i, merged, id, items, d.nextId);
    var kept := Ids(Reject(tb.items, OwnerPattern(Num(id as real))));
    KeepSome(OtherIds(d, t), Ids(tb.orders), Ids(tb.items), kept, AllIds(d), Minted(d.nextId, |items|));
    MintingKeepsIds(d, d2, OtherIds(d, t) + (Ids(tb.orders) + kept), Minted(d.nextId, |items|));
  }

  /** Merging an order and replacing its items keeps every item owned. */
  lemma ReplacedKeepsOwners(d: Data, t: OrderType, i: nat, merged: Record, id: int, items: seq<Record>)
    requires NoOrphans(d) && i < |d.Get(t).orders| && NoIdKeys(items)
    requires IdOf(merged) == IdOf(d.Get(t).orders[i]) && IdOf(merged) == Num(id as real)
    ensures NoOrphans(d.With(t, Tables(d.Get(t).orders[i := merged], ReplaceItems(d.Get(t).items, id, items, d.nextId)))
                       .(nextId := d.nextId + |items|))
  {
    var tb := d.Get(t);
    var tb2 := Tables(tb.orders[i := merged], ReplaceItems(tb.items, id, items, d.nextId));
    assert Owned(tb);
    ReplaceOwned(tb, i, merged, id, items, d.nextId);
    OwnedWith(d, t, tb2, d.nextId + |items|);
  }

  /** Merging an order and replacing its items keeps the invariant. */
  lemma ReplacedKeepsValid(d: Data, t: OrderType, i: nat, merged: Record, id: int, items: seq<Record>)
    requires Valid(d) && i < |d.Get(t).orders| && NoIdKeys(items)
    requires IdOf(merged) == IdOf(d.Get(t).orders[i]) && IdOf(merged) == Num(id as real)
    ensures Valid(d.With(t, Tables(d.Get(t).orders[i := merged], ReplaceItems(d.Get(t).items, id, items, d.nextId)))
                   .(nextId := d.nextId + |items|))
  {
    ReplacedKeepsIds(d, t, i, merged, id, items);
    ReplacedKeepsOwners(d, t, i, merged, id, items);
  }

  /** updateOrder keeps every id distinct and below `nextId`, and every item
      owned by an order. */
  lemma UpdateOrderKeepsValid(d: Data, t: OrderType, id: int, header: Record, items: Option<seq<Record>>, now: string)
    requires Valid(d) && "id" !in header && (items.Some? ==> NoIdKeys(items.value))
    requires UpdateOrder(d, t, id, header, items, now).Some?
    ensures Valid(UpdateOrder(d, t, id, header, items, now).value)
  {
    var tb := d.Get(t);
    var i := Find(tb.orders, IdPattern(id)).value;
    var merged := MergeHeader(tb.orders[i], header, now);
    UpdateOrderShape(d, t, id, header, items, now);
    MatchesOne(tb.orders[i], "id", Num(id as real));
    MergeHeaderId(tb.orders[i], header, now);
    var r := UpdateOrder(d, t, id, header, items, now).value;
    match items
    case Some(its) =>
      var d2 := d.With(t, Tables(tb.orders[i := merged], ReplaceItems(tb.items, id, its, d.nextId)))
                 .(nextId := d.nextId + |its|);
      assert r == d2;
      ReplacedKeepsValid(d, t, i, merged, id, its);
      assert Valid(d2);
    case None =>
      var d2 := d.With(t, Tables(tb.orders[i := merged], tb.items)).(nextId := d.nextId);
      assert r == d2;
      MergedKeepsValid(d, t, i, merged);
      assert Valid(d2);
  }

  // ---------------------------------------------------------------------
  // deleteOrder

  /** After a delete the id reads back as absent and its items are gone; every
      other id reads back exactly as before, and the counter is untouched. */
  lemma DeleteOrderRemoves(d: Data, t: OrderType, id: int)
    ensures var d2 := DeleteOrder(d, t, id);
      && GetOrderById(d2, t, id).None?
      && Select(d2.Get(t).items, OwnerPattern(Num(id as real))) == []
      && (forall id2 :: id2 != id ==> GetOrderById(d2, t, id2) == GetOrderById(d, t, id2))
      && (forall u :: u != t ==> d2.Get(u) == d.Get(u))
      && d2.nextId == d.nextId
  {
    var tb := d.Get(t);
    var d2 := DeleteOrder(d, t, id);
    var tb2 := Tables(Reject(tb.orders, IdPattern(id)), Reject(tb.items, OwnerPattern(Num(id as real))));
    assert d2 == d.With(t, tb2);
    assert Find(tb2.orders, IdPattern(id)).None?;
    SelectNone(tb2.items, OwnerPattern(Num(id as real)));
    forall id2 | id2 != id ensures GetOrderById(d2, t, id2) == GetOrderById(d, t, id2) {
      LookupAfterReject(tb.orders, "id", Num(id2 as real), Num(id as real));
      SelectAfterReject(tb.items, "order_id", Num(id2 as real), Num(id as real));
    }
  }

  /** With every item owned, deleting an id no order has changes nothing. */
  lemma DeleteAbsentIsNoop(d: Data, t: OrderType, id: int)
    requires NoOrphans(d)
    requires forall o :: o in d.Get(t).orders ==> IdOf(o) != Num(id as real)
    ensures DeleteOrder(d, t, id) == d
  {
    var tb := d.Get(t);
    forall o | o in tb.orders ensures !Matches(o, IdPattern(id)) {
      MatchesOne(o, "id", Num(id as real));
    }
    forall it | it in tb.items ensures !Matches(it, OwnerPattern(Num(id as real))) {
      MatchesOne(it, "order_id", Num(id as real));
      var o := IdFrom(tb.orders, Get(it, "order_id"));
    }
    RejectNone(tb.orders, IdPattern(id));
    RejectNone(tb.items, OwnerPattern(Num(id as real)));
    assert d.With(t, tb) == d;
  }

  /** An id that survives the order filter still names a surviving order. */
  lemma SurvivingOwner(orders: seq<Record>, v: Value, id: int)
    requires v in Ids(orders) && v != Num(id as real)
    ensures v in Ids(Reject(orders, IdPattern(id)))
  {
    var o := IdFrom(orders, v);
    MatchesOne(o, "id", Num(id as real));
    IdIn(Reject(orders, IdPattern(id)), o);
  }

  /** The tables of one type after a delete stay owned. */
  lemma DeleteOwned(tb: Tables, id: int)
    requires Owned(tb)
    ensures Owned(Tables(Reject(tb.orders, IdPattern(id)), Reject(tb.items, OwnerPattern(Num(id as real)))))
  {
    forall it | it in Reject(tb.items, OwnerPattern(Num(id as real)))
      ensures Get(it, "order_id") in Ids(Reject(tb.orders, IdPattern(id)))
    {
      MatchesOne(it, "order_id", Num(id as real));
      SurvivingOwner(tb.orders, Get(it, "order_id"), id);
    }
  }

  /** deleteOrder keeps every id distinct and below `nextId`, and every
      remaining item owned by a remaining order. */
  lemma DeleteOrderKeepsValid(d: Data, t: OrderType, id: int)
    requires Valid(d)
    ensures Valid(DeleteOrder(d, t, id))
  {
    var tb := d.Get(t);
    var tb2 := Tables(Reject(tb.orders, IdPattern(id)), Reject(tb.items, OwnerPattern(Num(id as real))));
    var d2 := d.With(t, tb2).(nextId := d.nextId);
    assert DeleteOrder(d, t, id) == d2;
    WithNext(d, t, tb2, d.nextId);
    SplitIds(d, t);
    IdsReject(tb.orders, IdPattern(id));
    IdsReject(tb.items, OwnerPattern(Num(id as real)));
    Shrink(OtherIds(d, t), Ids(tb.orders), Ids(tb.items), Ids(tb2.orders), Ids(tb2.items), AllIds(d));
    MintingKeepsIds(d, d2, AllIds(d2), multiset{});
    assert Owned(tb);
    DeleteOwned(tb, id);
    OwnedWith(d, t, tb2, d.nextId);
  }

  // ---------------------------------------------------------------------
  // updateStatus

  /** The first order with the id gets the status and a new `updated_at` and
      nothing else changes; without such an order nothing changes at all. */
  lemma UpdateStatusEffect(d: Data, t: OrderType, id: int, status: Value, now: string)
    ensures var d2 := UpdateStatus(d, t, id, status, now);
      var orders := d.Get(t).orders;
      && ((forall o :: o in orders ==> !Matches(o, IdPattern(id))) ==> d2 == d)
      && (forall u :: u != t ==> d2.Get(u) == d.Get(u))
      && d2.Get(t).items == d.Get(t).items && d2.nextId == d.nextId
      && |d2.Get(t).orders| == |orders|
      && forall j :: 0 <= j < |orders| ==>
           if Find(orders, IdPattern(id)) == Some(j) then
             && Get(orders[j], "id") == Num(id as real)
             && d2.Get(t).orders[j].Keys == orders[j].Keys + {"status", "updated_at"}
             && Get(d2.Get(t).orders[j], "status") == status
             && Get(d2.Get(t).orders[j], "updated_at") == Str(now)
             && forall k :: k in orders[j] && k != "status" && k != "updated_at" ==> d2.Get(t).orders[j][k] == orders[j][k]
           else d2.Get(t).orders[j] == orders[j]
  {
    var orders := d.Get(t).orders;
    var f := Find(orders, IdPattern(id));
    if f.Some? {
      MatchesOne(orders[f.value], "id", Num(id as real));
    } else {
      forall o | o in orders ensures !Matches(o, IdPattern(id)) {
        var j :| 0 <= j < |orders| && orders[j] == o;
      }
    }
  }

  /** updateStatus keeps the invariant: the patched order keeps its id. */
  lemma UpdateStatusKeepsValid(d: Data, t: OrderType, id: int, status: Value, now: string)
    requires Valid(d)
    ensures Valid(UpdateStatus(d, t, id, status, now))
  {
    var tb := d.Get(t);
    match Find(tb.orders, IdPattern(id))
    case None =>
    case Some(i) =>
      var patched := tb.orders[i]["status" := status]["updated_at" := Str(now)];
      var d2 := d.With(t, Tables(tb.orders[i := patched], tb.items)).(nextId := d.nextId);
      assert UpdateStatus(d, t, id, status, now) == d2;
      assert IdOf(patched) == IdOf(tb.orders[i]);
      MergedKeepsValid(d, t, i, patched);
  }

  // ---------------------------------------------------------------------
  // item-field patch

  /** One update writes the caller's fields, minus the three the server owns,
      into the first item with id `+u.id` of the route's order, and touches no
      other item; when there is no such item nothing changes. */
  lemma PatchItemEffect(items: seq<Record>, orderId: int, u: Record)
    ensures var res := PatchItem(items, orderId, u);
      && |res| == |items|
      && (forall j :: 0 <= j < |items| ==>
            var x := ToNumber(Get(u, "id"));
            if x.Fin? && Find(items, map["id" := Num(x.r), "order_id" := Num(orderId as real)]) == Some(j) then
              && Get(items[j], "id") == Num(x.r) && Get(items[j], "order_id") == Num(orderId as real)
              && res[j].Keys == items[j].Keys + (u.Keys - {"id", "order_id", "sort_order"})
              && forall k :: k in res[j] ==>
                   res[j][k] == if k in u && k !in {"id", "order_id", "sort_order"} then u[k] else items[j][k]
            else res[j] == items[j])
  {
    match PatchTarget(u, orderId)
    case None =>
    case Some(p) =>
      match Find(items, p)
      case None =>
      case Some(i) =>
        assert "id" in p && "order_id" in p;
  }

  /** A patch never changes an item's id, owner or position, nor the number
      of items. */
  lemma {:induction false} PatchItemsKeepServerFields(items: seq<Record>, orderId: int, updates: seq<Record>)
    ensures var res := PatchItems(items, orderId, updates);
      && |res| == |items|
      && forall j, k :: 0 <= j < |items| && k in {"id", "order_id", "sort_order"} ==> Get(res[j], k) == Get(items[j], k)
  {
    if updates != [] {
      var prev := PatchItems(items, orderId, updates[..|updates| - 1]);
      PatchItemsKeepServerFields(items, orderId, updates[..|updates| - 1]);
      PatchItemEffect(prev, orderId, updates[|updates| - 1]);
    }
  }

  /** A patch addressed to one order never touches the items of another. */
  lemma {:induction false} PatchOnlyOwnItems(items: seq<Record>, orderId: int, updates: seq<Record>)
    ensures var res := PatchItems(items, orderId, updates);
      forall j :: 0 <= j < |items| && Get(items[j], "order_id") != Num(orderId as real) ==> res[j] == items[j]
  {
    if updates != [] {
      var prev := PatchItems(items, orderId, updates[..|updates| - 1]);
      PatchOnlyOwnItems(items, orderId, updates[..|updates| - 1]);
      PatchItemsKeepServerFields(items, orderId, updates[..|updates| - 1]);
      PatchItemEffect(prev, orderId, updates[|updates| - 1]);
    }
  }

  /** The item patch keeps the invariant: ids and owners are untouched. */
  lemma PatchKeepsValid(d: Data, t: OrderType, orderId: int, updates: seq<Record>)
    requires Valid(d)
    ensures Valid(PatchOrderItems(d, t, orderId, updates))
  {
    var tb := d.Get(t);
    var res := PatchItems(tb.items, orderId, updates);
    var tb2 := Tables(tb.orders, res);
    assert PatchOrderItems(d, t, orderId, updates) == d.With(t, tb2).(nextId := d.nextId);
    PatchItemsKeepServerFields(tb.items, orderId, updates);
    assert IdSeq(res) == IdSeq(tb.items);
    assert Owned(tb);
    forall it | it in res ensures Get(it, "order_id") in Ids(tb.orders) {
      var j :| 0 <= j < |res| && res[j] == it;
      assert tb.items[j] in tb.items;
    }
    SameIdsKeepValid(d, t, tb2);
  }

  // ---------------------------------------------------------------------
  // getOrders and getOrderById

  /** The items a get handler attaches to an order: exactly the items owned by
      it, each as often as stored, in `sort_order` when those are numbers. */
  lemma ItemsOfSpec(items: seq<Record>, v: Value)
    ensures forall r :: r in ItemsOf(items, v) <==> r in items && Get(r, "order_id") == v
    ensures multiset(ItemsOf(items, v)) == multiset(Select(items, OwnerPattern(v)))
    ensures (forall r :: r in items && Get(r, "order_id") == v ==> NumericKey(r, "sort_order"))
            ==> Ordered(ItemsOf(items, v), "sort_order", false)
  {
    var sel := Select(items, OwnerPattern(v));
    ItemsOfMembers(items, v);
    if forall r :: r in items && Get(r, "order_id") == v ==> NumericKey(r, "sort_order") {
      SortByOrders(sel, "sort_order", false);
    }
  }

  /** The items attached to an order are the stored items it owns. */
  lemma ItemsOfMembers(items: seq<Record>, v: Value)
    ensures forall r :: r in ItemsOf(items, v) <==> r in items && Get(r, "order_id") == v
  {
    var sel := Select(items, OwnerPattern(v));
    forall r ensures r in sel <==> r in items && Get(r, "order_id") == v {
      MatchesOne(r, "order_id", v);
    }
    forall r ensures r in ItemsOf(items, v) <==> r in sel {
      assert r in multiset(ItemsOf(items, v)) <==> r in multiset(sel);
    }
  }

  /** getOrderById finds an order exactly when one has the id, and then the
      first one. */
  lemma GetOrderByIdSpec(d: Data, t: OrderType, id: int)
    ensures var r := GetOrderById(d, t, id);
      var orders := d.Get(t).orders;
      && (r.None? <==> forall o :: o in orders ==> IdOf(o) != Num(id as real))
      && (r.Some? ==>
            && r.value.items == ItemsOf(d.Get(t).items, Num(id as real))
            && exists j :: 0 <= j < |orders| && orders[j] == r.value.order
                 && IdOf(orders[j]) == Num(id as real)
                 && forall k :: 0 <= k < j ==> IdOf(orders[k]) != Num(id as real))
  {
    var orders := d.Get(t).orders;
    forall o ensures Matches(o, IdPattern(id)) <==> IdOf(o) == Num(id as real) {
      MatchesOne(o, "id", Num(id as real));
    }
    var f := Find(orders, IdPattern(id));
    if f.None? {
      forall o | o in orders ensures IdOf(o) != Num(id as real) {
        var j :| 0 <= j < |orders| && orders[j] == o;
      }
    } else {
      var j := f.value;
      assert orders[j] in orders;
    }
  }

  /** getOrders lists every order once, with its own items. */
  lemma GetOrdersLists(d: Data, t: OrderType)
    ensures var views := GetOrders(d, t);
      && |views| == |d.Get(t).orders|
      && multiset(seq(|views|, i requires 0 <= i < |views| => views[i].order)) == multiset(d.Get(t).orders)
      && forall i :: 0 <= i < |views| ==> views[i].items == ItemsOf(d.Get(t).items, IdOf(views[i].order))
  {
    var sorted := SortBy(d.Get(t).orders, "id", true);
    var views := GetOrders(d, t);
    assert seq(|views|, i requires 0 <= i < |views| => views[i].order) == sorted;
  }

  /** Views listed in the order of a table with strictly decreasing ids. */
  lemma ViewsNewestFirst(views: seq<OrderView>, sorted: seq<Record>)
    requires |views| == |sorted| && forall i :: 0 <= i < |views| ==> views[i].order == sorted[i]
    requires NewestFirst(sorted)
    ensures forall i, j :: 0 <= i < j < |views| ==>
      Newer(views[i].order, views[j].order)
  {
    forall i, j | 0 <= i < j < |views|
      ensures Newer(views[i].order, views[j].order)
    {
      assert views[i].order == sorted[i] && views[j].order == sorted[j];
    }
  }

  /** Under the invariant every order id is a number held once. */
  lemma OrderIdsNumeric(d: Data, t: OrderType)
    requires IdsBelow(d) && IdsDistinct(d)
    ensures forall r :: r in d.Get(t).orders ==> IdOf(r).Num?
    ensures forall v :: Ids(d.Get(t).orders)[v] <= 1
  {
    var orders := d.Get(t).orders;
    OrderTableIds(d, t);
    forall r | r in orders ensures IdOf(r).Num? {
      IdIn(orders, r);
    }
  }

  /** An order table whose ids are numbers held once is listed with strictly
      decreasing ids. */
  lemma ListedNewestFirst(d: Data, t: OrderType)
    requires forall r :: r in d.Get(t).orders ==> IdOf(r).Num?
    requires forall v :: Ids(d.Get(t).orders)[v] <= 1
    ensures var views := GetOrders(d, t);
      forall i, j :: 0 <= i < j < |views| ==>
        Newer(views[i].order, views[j].order)
  {
    var orders := d.Get(t).orders;
    SortedNewestFirst(orders);
    var sorted := SortBy(orders, "id", true);
    var views := GetOrders(d, t);
    assert forall i :: 0 <= i < |views| ==> views[i].order == sorted[i];
    ViewsNewestFirst(views, sorted);
  }

  /** Under the invariant getOrders lists newest first: ids strictly decrease. */
  lemma GetOrdersNewestFirst(d: Data, t: OrderType)
    requires IdsBelow(d) && IdsDistinct(d)
    ensures var views := GetOrders(d, t);
      forall i, j :: 0 <= i < j < |views| ==>
        Newer(views[i].order, views[j].order)
  {
    OrderIdsNumeric(d, t);
    ListedNewestFirst(d, t);
  }
}
