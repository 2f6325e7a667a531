/** The loaded JSON document: three pairs of order and item tables, the
    problems, the material prices, the requisitions and the one `nextId`
    counter that every kind of entity draws its id from; and the invariant
    that makes ids global: every id in every table is distinct and below
    `nextId`, and every item belongs to an order of its own type. */
module Store {
  import opened Json
  import opened Records

  datatype OrderType = Injection | Slush | Spray

  /** `${type}_orders` and `${type}_items`. */
  datatype Tables = Tables(orders: seq<Record>, items: seq<Record>)

  datatype Data = Data(
    injection: Tables,
    slush: Tables,
    spray: Tables,
    problems: seq<Record>,
    materialPrices: seq<Record>,
    requisitions: seq<Record>,
    nextId: nat)
  {
    /** `data[`${type}_orders`]`, `data[`${type}_items`]`. */
    function Get(t: OrderType): Tables {
      match t
      case Injection => injection
      case Slush => slush
      case Spray => spray
    }

    /** The document with the tables of type `t` replaced. */
    function With(t: OrderType, tb: Tables): (d: Data)
      ensures d.Get(t) == tb
      ensures forall u :: u != t ==> d.Get(u) == Get(u)
      ensures d.problems == problems && d.materialPrices == materialPrices
      ensures d.requisitions == requisitions && d.nextId == nextId
    {
      match t
      case Injection => this.(injection := tb)
      case Slush => this.(slush := tb)
      case Spray => this.(spray := tb)
    }
  }

  /** The two id-bearing tables outside the order types. */
  datatype Side = Problems | Requisitions

  function SideRows(d: Data, s: Side): seq<Record> {
    match s
    case Problems => d.problems
    case Requisitions => d.requisitions
  }

  /** The document with one of those tables replaced. */
  function WithSide(d: Data, s: Side, rows: seq<Record>): (d2: Data)
    ensures SideRows(d2, s) == rows
    ensures forall t :: d2.Get(t) == d.Get(t)
    ensures d2.nextId == d.nextId && d2.materialPrices == d.materialPrices
    ensures s == Problems ==> d2.requisitions == d.requisitions
    ensures s == Requisitions ==> d2.problems == d.problems
  {
    match s
    case Problems => d.(problems := rows)
    case Requisitions => d.(requisitions := rows)
  }

  function TableIds(tb: Tables): multiset<Value> {
    Ids(tb.orders) + Ids(tb.items)
  }

  /** The ids of every id-bearing table of the document. */
  function AllIds(d: Data): multiset<Value> {
    TableIds(d.injection) + TableIds(d.slush) + TableIds(d.spray) + Ids(d.problems) + Ids(d.requisitions)
  }

  /** The ids outside the tables of type `t`. */
  function OtherIds(d: Data, t: OrderType): multiset<Value> {
    (if t == Injection then multiset{} else TableIds(d.injection))
    + (if t == Slush then multiset{} else TableIds(d.slush))
    + (if t == Spray then multiset{} else TableIds(d.spray))
    + Ids(d.problems) + Ids(d.requisitions)
  }

  lemma SplitIds(d: Data, t: OrderType)
    ensures AllIds(d) == OtherIds(d, t) + TableIds(d.Get(t))
  {
  }

  lemma WithIds(d: Data, t: OrderType, tb: Tables)
    ensures AllIds(d.With(t, tb)) == OtherIds(d, t) + TableIds(tb)
  {
    var d2 := d.With(t, tb);
    SplitIds(d2, t);
    assert OtherIds(d2, t) == OtherIds(d, t);
  }

  /** Replacing the tables of type `t` and moving the counter to `n`. */
  lemma WithNext(d: Data, t: OrderType, tb: Tables, n: nat)
    ensures var d2 := d.With(t, tb).(nextId := n);
      && d2.Get(t) == tb && d2.nextId == n
      && (forall u :: u != t ==> d2.Get(u) == d.Get(u))
      && AllIds(d2) == OtherIds(d, t) + TableIds(tb)
  {
    WithNextOf(d, t, tb, n, d.With(t, tb).(nextId := n));
  }

  /** The same, for a document given by name. */
  lemma WithNextOf(d: Data, t: OrderType, tb: Tables, n: nat, d2: Data)
    requires d2 == d.With(t, tb).(nextId := n)
    ensures d2.Get(t) == tb && d2.nextId == n
    ensures forall u :: u != t ==> d2.Get(u) == d.Get(u)
    ensures AllIds(d2) == OtherIds(d, t) + TableIds(tb)
  {
    var d1 := d.With(t, tb);
    WithIds(d, t, tb);
    assert AllIds(d1.(nextId := n)) == AllIds(d1);
  }

  /** The price table holds no ids: replacing it keeps the invariant. */
  lemma PricesKeepValid(d: Data, prices: seq<Record>)
    requires Valid(d)
    ensures Valid(d.(materialPrices := prices))
  {
    var d2 := d.(materialPrices := prices);
    assert AllIds(d2) == AllIds(d);
    assert forall t: OrderType :: d2.Get(t) == d.Get(t);
  }

  /** Multiset bookkeeping for an operation that adds ids to one table,
      stated on plain multisets so that no table definition is in scope. */
  lemma Regroup(other: multiset<Value>, table: multiset<Value>, all: multiset<Value>,
                added: multiset<Value>, same: multiset<Value>)
    requires all == other + table && added == same
    ensures other + (table + added) == all + same
  {
  }

  /** The same bookkeeping when the table keeps only part of its items. */
  lemma KeepSome(other: multiset<Value>, orders: multiset<Value>, items: multiset<Value>,
                 kept: multiset<Value>, all: multiset<Value>, added: multiset<Value>)
    requires all == other + (orders + items) && kept <= items
    ensures other + (orders + (kept + added)) == (other + (orders + kept)) + added
    ensures other + (orders + kept) <= all
  {
  }

  /** The same bookkeeping when both tables of one type only lose rows. */
  lemma Shrink(other: multiset<Value>, orders: multiset<Value>, items: multiset<Value>,
               orders2: multiset<Value>, items2: multiset<Value>, all: multiset<Value>)
    requires all == other + (orders + items) && orders2 <= orders && items2 <= items
    ensures other + (orders2 + items2) <= all
  {
  }

  /** The ids after one side table is replaced and the counter moved. */
  lemma SideIds(d: Data, s: Side, rows: seq<Record>, n: nat)
    ensures AllIds(WithSide(d, s, rows).(nextId := n)) + Ids(SideRows(d, s)) == AllIds(d) + Ids(rows)
  {
  }

  /** Cancelling a common part of two sums of multisets. */
  lemma Cancel(after: multiset<Value>, before: multiset<Value>, all: multiset<Value>,
               added: multiset<Value>, rows: multiset<Value>)
    requires after + before == all + rows && rows == before + added
    ensures after == all + added
  {
    forall v ensures after[v] == (all + added)[v] {
      assert (after + before)[v] == (all + rows)[v];
    }
  }

  /** Replacing a side table and moving the counter leaves the owners alone. */
  lemma SideKeepsOwners(d: Data, s: Side, rows: seq<Record>, n: nat)
    requires NoOrphans(d)
    ensures NoOrphans(WithSide(d, s, rows).(nextId := n))
  {
    var d2 := WithSide(d, s, rows).(nextId := n);
    assert forall t :: d2.Get(t) == d.Get(t);
  }

  /** Appending a row that takes the next id keeps the invariant. */
  lemma SideAppendKeepsValid(d: Data, s: Side, r: Record)
    requires Valid(d) && IdOf(r) == Num(d.nextId as real)
    ensures Valid(WithSide(d, s, SideRows(d, s) + [r]).(nextId := d.nextId + 1))
  {
    var rows := SideRows(d, s) + [r];
    SideAppendIds(d, s, r);
    SideKeepsOwners(d, s, rows, d.nextId + 1);
  }

  /** The ids after the append: the old ones and the new row's. */
  lemma SideAppendIds(d: Data, s: Side, r: Record)
    requires IdsBelow(d) && IdsDistinct(d) && IdOf(r) == Num(d.nextId as real)
    ensures var d2 := WithSide(d, s, SideRows(d, s) + [r]).(nextId := d.nextId + 1);
      IdsBelow(d2) && IdsDistinct(d2)
  {
    var d2 := WithSide(d, s, SideRows(d, s) + [r]).(nextId := d.nextId + 1);
    SideAppendAllIds(d, s, r, d.nextId + 1);
    MintingKeepsIds(d, d2, AllIds(d), multiset{IdOf(r)});
  }

  /** Appending a row adds exactly its id to the document's ids. */
  lemma SideAppendAllIds(d: Data, s: Side, r: Record, n: nat)
    ensures AllIds(WithSide(d, s, SideRows(d, s) + [r]).(nextId := n)) == AllIds(d) + multiset{IdOf(r)}
  {
    var rows := SideRows(d, s) + [r];
    SideIds(d, s, rows, n);
    IdsConcat(SideRows(d, s), [r]);
    assert IdSeq([r]) == [IdOf(r)];
    Cancel(AllIds(WithSide(d, s, rows).(nextId := n)), Ids(SideRows(d, s)), AllIds(d), multiset{IdOf(r)}, Ids(rows));
  }

  /** Replacing one side table by one holding only some of its ids keeps the
      invariant. */
  lemma SideShrinkKeepsValid(d: Data, s: Side, rows: seq<Record>)
    requires Valid(d) && Ids(rows) <= Ids(SideRows(d, s))
    ensures Valid(WithSide(d, s, rows).(nextId := d.nextId))
  {
    var d2 := WithSide(d, s, rows).(nextId := d.nextId);
    SideIds(d, s, rows, d.nextId);
    MintingKeepsIds(d, d2, AllIds(d2), multiset{});
    SideKeepsOwners(d, s, rows, d.nextId);
  }

  /** Every id is a number below `nextId`. */
  ghost predicate IdsBelow(d: Data) {
    forall v :: v in AllIds(d) ==> v.Num? && v.n < d.nextId as real
  }

  /** No id occurs twice, in one table or across tables. */
  ghost predicate IdsDistinct(d: Data) {
    forall v :: AllIds(d)[v] <= 1
  }

  /** What the invariant says about the order table of one type. */
  lemma OrderTableIds(d: Data, t: OrderType)
    requires IdsBelow(d) && IdsDistinct(d)
    ensures forall v :: v in Ids(d.Get(t).orders) ==> v.Num? && v.n < d.nextId as real
    ensures forall v :: Ids(d.Get(t).orders)[v] <= 1
  {
    SplitIds(d, t);
    forall v ensures Ids(d.Get(t).orders)[v] <= AllIds(d)[v] { }
  }

  /** Under the invariant every row of a side table has a numeric id held
      once, below `nextId`. */
  lemma SideTableIds(d: Data, s: Side)
    requires IdsBelow(d) && IdsDistinct(d)
    ensures forall r :: r in SideRows(d, s) ==> IdOf(r).Num? && IdOf(r).n < d.nextId as real
    ensures forall v :: Ids(SideRows(d, s))[v] <= 1
  {
    var rows := SideRows(d, s);
    SideIds(d, s, [], d.nextId);
    assert IdSeq([]) == [];
    assert Ids(rows) <= AllIds(d);
    forall r | r in rows ensures IdOf(r).Num? && IdOf(r).n < d.nextId as real {
      IdIn(rows, r);
    }
  }

  /** Every item's `order_id` is the id of an order of the same type. */
  ghost predicate NoOrphans(d: Data) {
    forall t: OrderType, it :: it in d.Get(t).items ==> Get(it, "order_id") in Ids(d.Get(t).orders)
  }

  /** Every item of the pair of tables has an owner among its orders. */
  ghost predicate Owned(tb: Tables) {
    forall it :: it in tb.items ==> Get(it, "order_id") in Ids(tb.orders)
  }

  /** Replacing one type's tables by owned ones keeps every item owned. */
  lemma OwnedWith(d: Data, t: OrderType, tb: Tables, n: nat)
    requires NoOrphans(d) && Owned(tb)
    ensures NoOrphans(d.With(t, tb).(nextId := n))
  {
    var d2 := d.With(t, tb).(nextId := n);
    forall u: OrderType, it | it in d2.Get(u).items
      ensures Get(it, "order_id") in Ids(d2.Get(u).orders)
    {
      if u != t {
        assert d2.Get(u) == d.Get(u);
      }
    }
  }

  ghost predicate Valid(d: Data) {
    IdsBelow(d) && IdsDistinct(d) && NoOrphans(d)
  }

  /** Replacing one type's tables by owned ones holding the same ids keeps
      the invariant. */
  lemma SameIdsKeepValid(d: Data, t: OrderType, tb: Tables)
    requires Valid(d) && Owned(tb) && TableIds(tb) == TableIds(d.Get(t))
    ensures Valid(d.With(t, tb).(nextId := d.nextId))
  {
    var d2 := d.With(t, tb).(nextId := d.nextId);
    WithNext(d, t, tb, d.nextId);
    SplitIds(d, t);
    MintingKeepsIds(d, d2, AllIds(d), multiset{});
    OwnedWith(d, t, tb, d.nextId);
  }

  /** The ids `first`, ..., `first + n - 1` drawn from the counter. */
  function Minted(first: nat, n: nat): (m: multiset<Value>)
    ensures forall v :: v in m ==> v.Num? && first as real <= v.n < (first + n) as real
    ensures forall v :: m[v] <= 1
    ensures |m| == n
  {
    if n == 0 then multiset{}
    else
      var m := Minted(first, n - 1);
      assert Num((first + n - 1) as real) !in m;
      m + multiset{Num((first + n - 1) as real)}
  }

  /** One id for an order followed by `n` for its items. */
  lemma MintedAfter(first: nat, n: nat)
    ensures var m := multiset{Num(first as real)} + Minted(first + 1, n);
      && (forall v :: v in m ==> v.Num? && first as real <= v.n < (first + 1 + n) as real)
      && (forall v :: m[v] <= 1)
  {
    assert Num(first as real) !in Minted(first + 1, n);
  }

  /** Adding one id and then `n` more, all drawn from the counter, keeps ids
      distinct and below the counter. */
  lemma MintingRunKeepsIds(d: Data, d2: Data, n: nat)
    requires IdsBelow(d) && IdsDistinct(d)
    requires AllIds(d2) == AllIds(d) + (multiset{Num(d.nextId as real)} + Minted(d.nextId + 1, n))
    requires d2.nextId == d.nextId + 1 + n
    ensures IdsBelow(d2) && IdsDistinct(d2)
  {
    FreshRun(AllIds(d), d.nextId, n);
  }

  /** Distinct ids below `lo`, joined by `lo` and the `n` ids after it, stay
      distinct and fall below `lo + 1 + n`. */
  lemma FreshRun(all: multiset<Value>, lo: nat, n: nat)
    requires forall v :: v in all ==> v.Num? && v.n < lo as real
    requires forall v :: all[v] <= 1
    ensures var all2 := all + (multiset{Num(lo as real)} + Minted(lo + 1, n));
      && (forall v :: v in all2 ==> v.Num? && v.n < (lo + 1 + n) as real)
      && (forall v :: all2[v] <= 1)
  {
    var added := multiset{Num(lo as real)} + Minted(lo + 1, n);
    MintedAfter(lo, n);
    forall v ensures (all + added)[v] <= 1 {
      if v in all {
        assert v !in added;
      }
    }
  }

  /** An operation that keeps part of the old ids and adds distinct ids
      drawn from the counter between the old and the new `nextId` keeps
      ids distinct and below `nextId`. */
  lemma MintingKeepsIds(d: Data, d2: Data, kept: multiset<Value>, added: multiset<Value>)
    requires IdsBelow(d) && IdsDistinct(d)
    requires kept <= AllIds(d) && AllIds(d2) == kept + added
    requires forall v :: v in added ==> v.Num? && d.nextId as real <= v.n < d2.nextId as real
    requires forall v :: added[v] <= 1
    requires d.nextId <= d2.nextId
    ensures IdsBelow(d2) && IdsDistinct(d2)
  {
    forall v ensures AllIds(d2)[v] <= 1 {
      if v in kept {
        assert v in AllIds(d);
        assert v !in added;
      }
    }
  }
}
