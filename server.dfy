/** The document as the request handlers change it: a `Doc` holds every
    table and the shared id counter, and each handler that writes is a
    method that updates them in place. Every method is proved to leave the
    document as the corresponding function of the earlier modules says, and
    to keep the id invariant `Store.Valid` whenever the inputs carry no id
    keys of their own. */
module Server {
  import opened Json
  import opened Records
  import opened Store
  import Orders
  import P = Problems
  import Q = Requisitions
  import R = Reports

  class Doc {
    var injectionOrders: seq<Record>
    var injectionItems: seq<Record>
    var slushOrders: seq<Record>
    var slushItems: seq<Record>
    var sprayOrders: seq<Record>
    var sprayItems: seq<Record>
    var problems: seq<Record>
    var materialPrices: seq<Record>
    var requisitions: seq<Record>
    var nextId: nat

    /** The document as a value, for the specification functions. */
    function Snapshot(): Data
      reads this
    {
      Data(Tables(injectionOrders, injectionItems), Tables(slushOrders, slushItems),
           Tables(sprayOrders, sprayItems), problems, materialPrices, requisitions, nextId)
    }

    /** `initData()`, with `prices` the default price list. */
    constructor (prices: seq<Record>)
      ensures Snapshot() == Data(Tables([], []), Tables([], []), Tables([], []), [], prices, [], 1)
      ensures Valid(Snapshot())
    {
      injectionOrders, injectionItems := [], [];
      slushOrders, slushItems := [], [];
      sprayOrders, sprayItems := [], [];
      problems, materialPrices, requisitions := [], prices, [];
      nextId := 1;
      new;
      EmptyValid(prices);
    }

    /** `data[`${type}_orders`] = s`. */
    method SetOrders(t: OrderType, s: seq<Record>)
      modifies this
      ensures Snapshot() == old(Snapshot()).With(t, Tables(s, old(Snapshot()).Get(t).items))
    {
      match t
      case Injection => injectionOrders := s;
      case Slush => slushOrders := s;
      case Spray => sprayOrders := s;
    }

    /** `data[`${type}_items`] = s`. */
    method SetItems(t: OrderType, s: seq<Record>)
      modifies this
      ensures Snapshot() == old(Snapshot()).With(t, Tables(old(Snapshot()).Get(t).orders, s))
    {
      match t
      case Injection => injectionItems := s;
      case Slush => slushItems := s;
      case Spray => sprayItems := s;
    }

    /** The `items.forEach` of createOrder and updateOrder: each item takes
        the next id, its owner and its position. */
    method NumberItems(items: seq<Record>, owner: Value) returns (news: seq<Record>)
      modifies this`nextId
      ensures news == Orders.NewItems(items, owner, old(nextId))
      ensures nextId == old(nextId) + |items|
      ensures Snapshot() == old(Snapshot()).(nextId := nextId)
    {
      news := [];
      var k := 0;
      while k < |items|
        invariant 0 <= k <= |items| && nextId == old(nextId) + k
        invariant news == Orders.NewItems(items[..k], owner, old(nextId))
      {
        NewItemsSnoc(items, owner, old(nextId), k);
        news := news + [Orders.NewItem(nextId, owner, k, items[k])];
        nextId := nextId + 1;
        k := k + 1;
      }
      assert items[..k] == items;
    }

    /** `createOrder(type, header, items)`: the order takes the next id, then
        each item in turn; the answer is the order read back. */
    method CreateOrder(t: OrderType, header: Record, items: seq<Record>, now: string) returns (view: Option<Orders.OrderView>)
      modifies this
      ensures Snapshot() == Orders.CreateOrder(old(Snapshot()), t, header, items, now)
      ensures view == Orders.GetOrderById(Snapshot(), t, old(nextId))
      ensures Valid(old(Snapshot())) && "id" !in header && Orders.NoIdKeys(items) ==> Valid(Snapshot())
    {
      ghost var d := Snapshot();
      var id := nextId;
      nextId := nextId + 1;
      ghost var counted := Snapshot();
      var orders := Snapshot().Get(t).orders + [Orders.NewOrder(id, header, now)];
      SetOrders(t, orders);
      ghost var mid := Snapshot();
      var news := NumberItems(items, Num(id as real));
      ghost var before := Snapshot();
      SetItems(t, Snapshot().Get(t).items + news);
      CreateOrderAssembled(d, t, header, items, now, counted, mid, before, news, Snapshot());
      view := Orders.GetOrderById(Snapshot(), t, id);
      if Valid(d) && "id" !in header && Orders.NoIdKeys(items) {
        Orders.CreateOrderKeepsValid(d, t, header, items, now);
      }
    }

    /** `updateOrder(type, id, header, items)`: None (the 404 answer) and no
        change when no order has the id; otherwise the header is merged and,
        when the request carries items, they replace the order's items. */
    method UpdateOrder(t: OrderType, id: int, header: Record, items: Option<seq<Record>>, now: string)
      returns (view: Option<Orders.OrderView>)
      modifies this
      ensures Orders.UpdateOrder(old(Snapshot()), t, id, header, items, now).None? ==>
        view.None? && Snapshot() == old(Snapshot())
      ensures Orders.UpdateOrder(old(Snapshot()), t, id, header, items, now).Some? ==>
        Snapshot() == Orders.UpdateOrder(old(Snapshot()), t, id, header, items, now).value
        && view == Orders.GetOrderById(Snapshot(), t, id)
      ensures Valid(old(Snapshot())) && "id" !in header && (items.Some? ==> Orders.NoIdKeys(items.value)) ==>
        Valid(Snapshot())
    {
      ghost var d := Snapshot();
      var orders := Snapshot().Get(t).orders;
      var found := Find(orders, IdPattern(id));
      if found.None? {
        return None;
      }
      var i := found.value;
      var merged := orders[i := Orders.MergeHeader(orders[i], header, now)];
      Orders.UpdateOrderShape(d, t, id, header, items, now);
      SetOrders(t, merged);
      if items.Some? {
        ghost var s1 := Snapshot();
        ReplaceItems(t, id, items.value);
        ReplaceAssembled(d, t, id, items.value, merged, s1, Snapshot());
      }
      view := Orders.GetOrderById(Snapshot(), t, id);
      if Valid(d) && "id" !in header && (items.Some? ==> Orders.NoIdKeys(items.value)) {
        Orders.UpdateOrderKeepsValid(d, t, id, header, items, now);
      }
    }

    /** The item half of updateOrder: the order's items are dropped, then the
        given ones are numbered and pushed. */
    method ReplaceItems(t: OrderType, id: int, its: seq<Record>)
      modifies this
      ensures Snapshot() == old(Snapshot()).With(t, Tables(old(Snapshot()).Get(t).orders,
                Orders.ReplaceItems(old(Snapshot()).Get(t).items, id, its, old(nextId)))).(nextId := old(nextId) + |its|)
    {
      var owner := Num(id as real);
      ghost var s1 := Snapshot();
      var kept := Reject(Snapshot().Get(t).items, Orders.OwnerPattern(owner));
      SetItems(t, kept);
      ghost var s2 := Snapshot();
      var news := NumberItems(its, owner);
      ghost var s3 := Snapshot();
      SetItems(t, kept + news);
      PushAssembled(t, id, its, s1, s2, s3, news, Snapshot());
    }

    /** `deleteOrder(type, id)`: the order goes, and every item it owns. */
    method DeleteOrder(t: OrderType, id: int)
      modifies this
      ensures Snapshot() == Orders.DeleteOrder(old(Snapshot()), t, id)
      ensures Valid(old(Snapshot())) ==> Valid(Snapshot())
    {
      ghost var d := Snapshot();
      SetOrders(t, Reject(Snapshot().Get(t).orders, IdPattern(id)));
      SetItems(t, Reject(Snapshot().Get(t).items, Orders.OwnerPattern(Num(id as real))));
      if Valid(d) {
        Orders.DeleteOrderKeepsValid(d, t, id);
      }
    }

    /** `updateStatus(type, id, status)`: the first order with the id gets
        the status and a new `updated_at`; an absent id changes nothing. */
    method UpdateStatus(t: OrderType, id: int, status: Value, now: string)
      modifies this
      ensures Snapshot() == Orders.UpdateStatus(old(Snapshot()), t, id, status, now)
      ensures Valid(old(Snapshot())) ==> Valid(Snapshot())
    {
      ghost var d := Snapshot();
      var orders := Snapshot().Get(t).orders;
      var found := Find(orders, IdPattern(id));
      if found.Some? {
        var i := found.value;
        SetOrders(t, orders[i := orders[i]["status" := status]["updated_at" := Str(now)]]);
      }
      if Valid(d) {
        Orders.UpdateStatusKeepsValid(d, t, id, status, now);
      }
    }

    /** `PATCH /api/:type/:id/items`: each update in turn is merged into the
        first item of the order with its id. */
    method PatchItems(t: OrderType, orderId: int, updates: seq<Record>)
      modifies this
      ensures Snapshot() == Orders.PatchOrderItems(old(Snapshot()), t, orderId, updates)
      ensures Valid(old(Snapshot())) ==> Valid(Snapshot())
    {
      ghost var d := Snapshot();
      var k := 0;
      while k < |updates|
        invariant 0 <= k <= |updates|
        invariant Snapshot() == d.With(t, Tables(d.Get(t).orders, Orders.PatchItems(d.Get(t).items, orderId, updates[..k])))
      {
        var u := updates[k];
        var items := Snapshot().Get(t).items;
        assert updates[..k + 1][..k] == updates[..k];
        match Orders.PatchTarget(u, orderId) {
          case None =>
          case Some(p) =>
            var found := Find(items, p);
            if found.Some? {
              var j := found.value;
              SetItems(t, items[j := items[j] + Orders.PatchFields(u)]);
            }
        }
        k := k + 1;
      }
      assert updates[..k] == updates;
      if Valid(d) {
        Orders.PatchKeepsValid(d, t, orderId, updates);
      }
    }

    /** `POST /api/problems`: the problem takes the next id. */
    method CreateProblem(body: Record, now: string) returns (p: Record)
      modifies this
      ensures (Snapshot(), p) == P.CreateProblem(old(Snapshot()), body, now)
      ensures Valid(old(Snapshot())) ==> Valid(Snapshot())
    {
      ghost var d := Snapshot();
      p := P.NewProblem(nextId, body, now);
      nextId := nextId + 1;
      problems := problems + [p];
      assert (Snapshot(), p) == P.CreateProblem(d, body, now);
      if Valid(d) {
        P.CreateProblemKeepsValid(d, body, now);
      }
    }

    /** `PATCH /api/problems/:id/resolve`: None (the 404 answer) and no
        change when no problem has the id. */
    method ResolveProblem(id: int, now: string) returns (p: Option<Record>)
      modifies this
      ensures P.ResolveProblem(old(Snapshot()), id, now).None? ==> p.None? && Snapshot() == old(Snapshot())
      ensures P.ResolveProblem(old(Snapshot()), id, now).Some? ==>
        p.Some? && P.ResolveProblem(old(Snapshot()), id, now).value == (Snapshot(), p.value)
      ensures Valid(old(Snapshot())) ==> Valid(Snapshot())
    {
      ghost var d := Snapshot();
      var found := Find(problems, IdPattern(id));
      if found.None? {
        return None;
      }
      var i := found.value;
      var resolved := problems[i]["status" := Str(P.Resolved)]["resolved_at" := Str(now)];
      problems := problems[i := resolved];
      p := Some(resolved);
      if Valid(d) {
        P.ResolveProblemKeepsValid(d, id, now);
      }
    }

    /** `PUT /api/material-prices`: the price table is replaced as sent. */
    method ReplaceMaterialPrices(prices: seq<Record>) returns (res: seq<Record>)
      modifies this
      ensures Snapshot() == old(Snapshot()).(materialPrices := prices) && res == prices
      ensures Valid(old(Snapshot())) ==> Valid(Snapshot())
    {
      ghost var d := Snapshot();
      materialPrices := prices;
      res := materialPrices;
      if Valid(d) {
        PricesKeepValid(d, prices);
      }
    }

    /** The largest sequence number of the day among the requisitions held. */
    static method LastSequence(held: seq<Record>, stamp: string) returns (top: nat)
      ensures top == Q.MaxSequence(held, stamp)
    {
      top := 0;
      var i := 0;
      while i < |held|
        invariant 0 <= i <= |held|
        invariant top == Q.MaxSequence(held[..i], stamp)
      {
        assert held[..i + 1][..i] == held[..i];
        var k := Q.SequenceOf(Text(Get(held[i], "req_number")), stamp);
        if k > top {
          top := k;
        }
        i := i + 1;
      }
      assert held[..i] == held;
    }

    /** `POST /api/requisitions`, with the corrected numbering: a pass over
        the held requisitions finds the day's largest sequence number, and
        the new requisition takes the next one and the next id. */
    method CreateRequisition(body: Record, now: string) returns (r: Record)
      modifies this
      ensures (Snapshot(), r) == Q.CreateRequisition(old(Snapshot()), body, now)
      ensures Valid(old(Snapshot())) ==> Valid(Snapshot())
    {
      ghost var d := Snapshot();
      var top := LastSequence(requisitions, Q.DateStamp(now));
      r := Issue(top + 1, body, now);
      CreateAssembled(d, body, now, top, Snapshot(), r);
    }

    /** `dayReqs.length`: a pass over the held requisitions counts those
        whose number mentions the day. */
    static method CountDay(held: seq<Record>, stamp: string) returns (n: nat)
      ensures n == Q.DayCount(held, stamp)
    {
      n := 0;
      var i := 0;
      while i < |held|
        invariant 0 <= i <= |held|
        invariant n == Q.DayCount(held[..i], stamp)
      {
        assert held[..i + 1][..i] == held[..i];
        if Q.SameDay(held[i], stamp) {
          n := n + 1;
        }
        i := i + 1;
      }
      assert held[..i] == held;
    }

    /** `POST /api/requisitions` as written: the day's count of held numbers
        plus one becomes the sequence number, and the new requisition takes
        the next id. */
    method CreateRequisitionAsWritten(body: Record, now: string) returns (r: Record)
      modifies this
      ensures (Snapshot(), r) == Q.CreateRequisitionAsWritten(old(Snapshot()), body, now)
      ensures Valid(old(Snapshot())) ==> Valid(Snapshot())
    {
      ghost var d := Snapshot();
      var n := CountDay(requisitions, Q.DateStamp(now));
      r := Issue(n + 1, body, now);
      AsWrittenAssembled(d, body, now, n, Snapshot(), r);
    }

    /** The requisition numbered `seqNo` takes the next id and is appended. */
    method Issue(seqNo: nat, body: Record, now: string) returns (r: Record)
      modifies this
      ensures (Snapshot(), r) == Q.Issue(old(Snapshot()), seqNo, body, now)
      ensures Valid(old(Snapshot())) ==> Valid(Snapshot())
    {
      ghost var d := Snapshot();
      r := Q.NewRequisition(nextId, seqNo, body, now);
      nextId := nextId + 1;
      requisitions := requisitions + [r];
      IssueAssembled(d, seqNo, body, now, Snapshot(), r);
      if Valid(d) {
        Q.IssueKeepsValid(d, seqNo, body, now);
      }
    }

    /** `PATCH /api/requisitions/:id/status`: None (the 404 answer) and no
        change when no requisition has the id. */
    method PatchRequisition(id: int, status: Value, now: string) returns (r: Option<Record>)
      modifies this
      ensures Q.PatchRequisition(old(Snapshot()), id, status, now).None? ==> r.None? && Snapshot() == old(Snapshot())
      ensures Q.PatchRequisition(old(Snapshot()), id, status, now).Some? ==>
        r.Some? && Q.PatchRequisition(old(Snapshot()), id, status, now).value == (Snapshot(), r.value)
      ensures Valid(old(Snapshot())) ==> Valid(Snapshot())
    {
      ghost var d := Snapshot();
      var found := Find(requisitions, IdPattern(id));
      if found.None? {
        return None;
      }
      var i := found.value;
      var patched := requisitions[i]["status" := status];
      if status == Str(Q.Issued) {
        patched := patched["issued_at" := Str(now)];
      }
      requisitions := requisitions[i := patched];
      r := Some(patched);
      if Valid(d) {
        Q.PatchRequisitionKeepsValid(d, id, status, now);
      }
    }

    /** `DELETE /api/requisitions/:id`. */
    method DeleteRequisition(id: int)
      modifies this
      ensures Snapshot() == Q.DeleteRequisition(old(Snapshot()), id)
      ensures Valid(old(Snapshot())) ==> Valid(Snapshot())
    {
      ghost var d := Snapshot();
      requisitions := Reject(requisitions, IdPattern(id));
      if Valid(d) {
        Q.DeleteRequisitionKeepsValid(d, id);
      }
    }

    /** `GET /api/material-stats`: the lines seeded from the price table,
        the counted injection items added in, the lines in key order. */
    method MaterialStats(month: string, search: string) returns (rows: seq<R.Stat>)
      ensures rows == R.MaterialStats(Snapshot(), month, search)
    {
      var tb := PriceLines(materialPrices);
      var filter := OrderIds(injectionOrders, month, search);
      tb := AddItems(tb, injectionItems, filter);
      rows := Lines(tb);
    }

    /** The `material_prices.forEach`: `stats[p.material] = { seq: i + 1, ... }`. */
    static method PriceLines(prices: seq<Record>) returns (tb: R.Table)
      ensures tb == R.Seed(prices)
    {
      var keys: seq<Value> := [];
      var entries: map<Value, R.Stat> := map[];
      var i := 0;
      while i < |prices|
        invariant 0 <= i <= |prices|
        invariant R.Table(keys, entries) == R.Seed(prices[..i])
      {
        var p := prices[i];
        var m := Get(p, "material");
        assert prices[..i + 1][..i] == prices[..i];
        if m !in entries {
          keys := keys + [m];
        }
        entries := entries[m := R.PriceStat(i, p)];
        i := i + 1;
      }
      assert prices[..i] == prices;
      tb := R.Table(keys, entries);
    }

    /** `validOrderIds`: null without a month or a search, otherwise the ids
        of the injection orders that pass both. */
    static method OrderIds(orders: seq<Record>, month: string, search: string) returns (filter: Option<set<Value>>)
      ensures filter == R.OrderFilter(orders, month, search)
    {
      if month == "" && search == "" {
        return None;
      }
      var q := ToLower(search);
      var ids: set<Value> := {};
      var i := 0;
      while i < |orders|
        invariant 0 <= i <= |orders|
        invariant ids == set o | o in orders[..i] && R.Passes(o, month, q) :: IdOf(o)
      {
        R.PassingSnoc(orders, i, month, q);
        if R.Passes(orders[i], month, q) {
          ids := ids + {IdOf(orders[i])};
        }
        i := i + 1;
      }
      assert orders[..i] == orders;
      filter := Some(ids);
    }

    /** The `injection_items.forEach`: a counted item gets a line for its
        material if it has none, then adds its weight and amount to it. */
    static method AddItems(tb0: R.Table, items: seq<Record>, filter: Option<set<Value>>) returns (tb: R.Table)
      requires R.WellFormed(tb0)
      ensures tb == R.Accumulate(tb0, items, filter)
    {
      var keys, entries := tb0.keys, tb0.entries;
      var j := 0;
      while j < |items|
        invariant 0 <= j <= |items|
        invariant R.Table(keys, entries) == R.Accumulate(tb0, items[..j], filter)
        invariant R.WellFormed(R.Table(keys, entries))
      {
        R.AccumulateSnoc(tb0, items, j, filter);
        keys, entries := AddItem(keys, entries, items[j], filter);
        j := j + 1;
      }
      assert items[..j] == items;
      tb := R.Table(keys, entries);
    }

    /** One pass of the `forEach`: a counted item gets a line for its
        material if it has none, then adds its weight and amount to it. */
    static method AddItem(keys0: seq<Value>, entries0: map<Value, R.Stat>, it: Record, filter: Option<set<Value>>)
      returns (keys: seq<Value>, entries: map<Value, R.Stat>)
      requires R.WellFormed(R.Table(keys0, entries0))
      ensures R.Table(keys, entries) == R.AddItem(R.Table(keys0, entries0), it, filter)
    {
      keys, entries := keys0, entries0;
      ghost var before := R.Table(keys0, entries0);
      R.AddItemPut(before, it, filter);
      var m := Get(it, "material");
      if Truthy(m) && (filter.None? || Get(it, "order_id") in filter.value) {
        if m !in entries {
          entries := entries[m := R.FreshStat(|keys|, m)];
          keys := keys + [m];
        }
        assert keys == (if m in before.entries then before.keys else before.keys + [m]);
        R.BumpLine(before, it, keys, entries);
        var e := entries[m];
        entries := entries[m := e.(weight := Add(e.weight, R.Amount(Get(it, R.Field(R.Weight)))),
                                   amount := Add(e.amount, R.Amount(Get(it, R.Field(R.Money)))))];
      }
    }

    /** `Object.values(stats)`: the lines in key order. */
    static method Lines(tb: R.Table) returns (rows: seq<R.Stat>)
      requires R.WellFormed(tb)
      ensures rows == R.Values(tb)
    {
      rows := [];
      var i := 0;
      while i < |tb.keys|
        invariant 0 <= i <= |tb.keys|
        invariant rows == R.Values(tb)[..i]
      {
        rows := rows + [tb.entries[tb.keys[i]]];
        i := i + 1;
      }
    }
  }

  /** `initData()` satisfies the invariant. */
  lemma EmptyValid(prices: seq<Record>)
    ensures Valid(Data(Tables([], []), Tables([], []), Tables([], []), [], prices, [], 1))
  {
    assert IdSeq([]) == [];
  }

  /** createOrder's steps, pushing the order and then its items with the
      counter advanced at each, end in the document the function describes. */
  lemma CreateOrderAssembled(d: Data, t: OrderType, header: Record, items: seq<Record>, now: string,
                             counted: Data, mid: Data, before: Data, news: seq<Record>, after: Data)
    requires counted == d.(nextId := d.nextId + 1)
    requires mid == counted.With(t, Tables(counted.Get(t).orders + [Orders.NewOrder(d.nextId, header, now)], counted.Get(t).items))
    requires before == mid.(nextId := d.nextId + 1 + |items|)
    requires news == Orders.NewItems(items, Num(d.nextId as real), d.nextId + 1)
    requires after == before.With(t, Tables(before.Get(t).orders, before.Get(t).items + news))
    ensures after == Orders.CreateOrder(d, t, header, items, now)
  {
  }

  /** The item replacement's steps: the owner's items dropped, the new ones
      numbered and pushed. */
  lemma PushAssembled(t: OrderType, id: int, its: seq<Record>,
                      s1: Data, s2: Data, s3: Data, news: seq<Record>, after: Data)
    requires s2 == s1.With(t, Tables(s1.Get(t).orders, Reject(s1.Get(t).items, Orders.OwnerPattern(Num(id as real)))))
    requires s3 == s2.(nextId := s2.nextId + |its|)
    requires news == Orders.NewItems(its, Num(id as real), s2.nextId)
    requires after == s3.With(t, Tables(s3.Get(t).orders, Reject(s1.Get(t).items, Orders.OwnerPattern(Num(id as real))) + news))
    ensures after == s1.With(t, Tables(s1.Get(t).orders, Orders.ReplaceItems(s1.Get(t).items, id, its, s1.nextId))).(nextId := s1.nextId + |its|)
  {
  }

  /** updateOrder's steps when items are given: the merged header, then the
      items replaced. */
  lemma ReplaceAssembled(d: Data, t: OrderType, id: int, its: seq<Record>, merged: seq<Record>, s1: Data, after: Data)
    requires s1 == d.With(t, Tables(merged, d.Get(t).items))
    requires after == s1.With(t, Tables(s1.Get(t).orders, Orders.ReplaceItems(s1.Get(t).items, id, its, s1.nextId))).(nextId := s1.nextId + |its|)
    ensures after == d.With(t, Tables(merged, Orders.ReplaceItems(d.Get(t).items, id, its, d.nextId))).(nextId := d.nextId + |its|)
  {
  }

  /** The new requisition appended and the counter advanced, as the
      requisition functions describe it. */
  lemma IssueAssembled(d: Data, seqNo: nat, body: Record, now: string, after: Data, r: Record)
    requires r == Q.NewRequisition(d.nextId, seqNo, body, now)
    requires after == d.(requisitions := d.requisitions + [r], nextId := d.nextId + 1)
    ensures (after, r) == Q.Issue(d, seqNo, body, now)
  {
  }

  /** The requisition issued after the day's largest sequence is the
      corrected creation's. */
  lemma CreateAssembled(d: Data, body: Record, now: string, top: nat, after: Data, r: Record)
    requires top == Q.MaxSequence(d.requisitions, Q.DateStamp(now))
    requires (after, r) == Q.Issue(d, top + 1, body, now)
    ensures (after, r) == Q.CreateRequisition(d, body, now)
  {
    Q.CreateIsIssue(d, body, now, top);
  }

  /** The requisition issued after the day's count is the creation as
      written. */
  lemma AsWrittenAssembled(d: Data, body: Record, now: string, n: nat, after: Data, r: Record)
    requires n == Q.DayCount(d.requisitions, Q.DateStamp(now))
    requires (after, r) == Q.Issue(d, n + 1, body, now)
    ensures (after, r) == Q.CreateRequisitionAsWritten(d, body, now)
  {
  }

  /** Appending one more new item to the items pushed so far. */
  lemma NewItemsSnoc(items: seq<Record>, owner: Value, first: nat, k: nat)
    requires k < |items|
    ensures Orders.NewItems(items[..k + 1], owner, first)
         == Orders.NewItems(items[..k], owner, first) + [Orders.NewItem(first + k, owner, k, items[k])]
  {
  }
}
