/** The array operations the handlers apply to a table of records:
    `filter` and `find` with a strict-equality test on some fields, and the
    ids a table holds. */
module Records {
  import opened Json

  /** The record agrees, under `===`, with every field of the pattern. */
  predicate Matches(r: Record, pattern: Record) {
    forall k :: k in pattern ==> Get(r, k) == pattern[k]
  }

  lemma MatchesOne(r: Record, k: string, v: Value)
    ensures Matches(r, map[k := v]) <==> Get(r, k) == v
  {
    assert k in map[k := v];
  }

  /** `o.id === +id` for a route id. */
  function IdPattern(id: int): Record { map["id" := Num(id as real)] }

  /** `s.filter(r => r.k === v && ...)`: the records matching the pattern, in order. */
  function Select(s: seq<Record>, pattern: Record): (res: seq<Record>)
    ensures |res| <= |s|
    ensures forall r :: r in res <==> r in s && Matches(r, pattern)
  {
    if s == [] then []
    else if Matches(s[0], pattern) then [s[0]] + Select(s[1..], pattern)
    else Select(s[1..], pattern)
  }

  /** `s.filter(r => !(r.k === v && ...))`: the records not matching, in order. */
  function Reject(s: seq<Record>, pattern: Record): (res: seq<Record>)
    ensures |res| <= |s|
    ensures forall r :: r in res <==> r in s && !Matches(r, pattern)
  {
    if s == [] then []
    else if Matches(s[0], pattern) then Reject(s[1..], pattern)
    else [s[0]] + Reject(s[1..], pattern)
  }

  /** `s.findIndex(...)`: the first index whose record matches, None for -1. */
  function Find(s: seq<Record>, pattern: Record): (r: Option<nat>)
    ensures r.Some? ==> r.value < |s| && Matches(s[r.value], pattern)
    ensures r.Some? ==> forall j :: 0 <= j < r.value ==> !Matches(s[j], pattern)
    ensures r.None? <==> forall j :: 0 <= j < |s| ==> !Matches(s[j], pattern)
  {
    if s == [] then None
    else if Matches(s[0], pattern) then Some(0)
    else match Find(s[1..], pattern)
      case None => None
      case Some(i) => Some(i + 1)
  }

  /** Looking a route id up finds the first record whose id is that number,
      and nothing exactly when no record has it. */
  lemma FindById(s: seq<Record>, id: int)
    ensures Find(s, IdPattern(id)).None? <==> forall r :: r in s ==> IdOf(r) != Num(id as real)
    ensures Find(s, IdPattern(id)).Some? ==>
      var i := Find(s, IdPattern(id)).value;
      IdOf(s[i]) == Num(id as real) && forall j :: 0 <= j < i ==> IdOf(s[j]) != Num(id as real)
  {
    var p := IdPattern(id);
    forall j | 0 <= j < |s| ensures Matches(s[j], p) <==> IdOf(s[j]) == Num(id as real) {
      MatchesOne(s[j], "id", Num(id as real));
    }
  }

  /** `s.find(...)`: the first matching record, None for undefined. */
  function Lookup(s: seq<Record>, pattern: Record): Option<Record> {
    match Find(s, pattern)
    case None => None
    case Some(i) => Some(s[i])
  }

  function IdOf(r: Record): Value { Get(r, "id") }

  function IdSeq(s: seq<Record>): seq<Value> {
    seq(|s|, i requires 0 <= i < |s| => IdOf(s[i]))
  }

  /** The ids a table holds, with their multiplicities. */
  function Ids(s: seq<Record>): multiset<Value> { multiset(IdSeq(s)) }

  lemma IdsConcat(a: seq<Record>, b: seq<Record>)
    ensures Ids(a + b) == Ids(a) + Ids(b)
  {
    assert IdSeq(a + b) == IdSeq(a) + IdSeq(b);
  }

  /** Replacing a record by one with the same id keeps the table's ids. */
  lemma IdsUpdate(s: seq<Record>, i: nat, r: Record)
    requires i < |s| && IdOf(r) == IdOf(s[i])
    ensures Ids(s[i := r]) == Ids(s)
  {
    assert IdSeq(s[i := r]) == IdSeq(s);
  }

  lemma IdIn(s: seq<Record>, r: Record)
    requires r in s
    ensures IdOf(r) in Ids(s)
  {
    var i :| 0 <= i < |s| && s[i] == r;
    assert IdSeq(s)[i] == IdOf(r);
  }

  lemma IdFrom(s: seq<Record>, v: Value) returns (r: Record)
    requires v in Ids(s)
    ensures r in s && IdOf(r) == v
  {
    var i :| 0 <= i < |IdSeq(s)| && IdSeq(s)[i] == v;
    r := s[i];
  }

  /** Filtering never adds ids. */
  lemma {:induction false} IdsReject(s: seq<Record>, pattern: Record)
    ensures Ids(Reject(s, pattern)) <= Ids(s)
  {
    if s != [] {
      IdsReject(s[1..], pattern);
      assert s == [s[0]] + s[1..];
      IdsConcat([s[0]], s[1..]);
      if !Matches(s[0], pattern) {
        IdsConcat([s[0]], Reject(s[1..], pattern));
      }
    }
  }

  lemma {:induction false} SelectConcat(a: seq<Record>, b: seq<Record>, pattern: Record)
    ensures Select(a + b, pattern) == Select(a, pattern) + Select(b, pattern)
  {
    if a != [] {
      assert (a + b)[1..] == a[1..] + b;
      SelectConcat(a[1..], b, pattern);
    } else {
      assert a + b == b;
    }
  }

  lemma {:induction false} RejectConcat(a: seq<Record>, b: seq<Record>, pattern: Record)
    ensures Reject(a + b, pattern) == Reject(a, pattern) + Reject(b, pattern)
  {
    if a != [] {
      assert (a + b)[1..] == a[1..] + b;
      RejectConcat(a[1..], b, pattern);
    } else {
      assert a + b == b;
    }
  }

  lemma {:induction false} SelectNone(s: seq<Record>, pattern: Record)
    requires forall r :: r in s ==> !Matches(r, pattern)
    ensures Select(s, pattern) == []
  {
    if s != [] { SelectNone(s[1..], pattern); }
  }

  lemma {:induction false} SelectAll(s: seq<Record>, pattern: Record)
    requires forall r :: r in s ==> Matches(r, pattern)
    ensures Select(s, pattern) == s
  {
    if s != [] { SelectAll(s[1..], pattern); }
  }

  lemma {:induction false} RejectNone(s: seq<Record>, pattern: Record)
    requires forall r :: r in s ==> !Matches(r, pattern)
    ensures Reject(s, pattern) == s
  {
    if s != [] { RejectNone(s[1..], pattern); }
  }

  /** Removing the records whose field `k` is `w` does not disturb the
      records whose field `k` is some other value `v`. */
  lemma {:induction false} SelectAfterReject(s: seq<Record>, k: string, v: Value, w: Value)
    requires v != w
    ensures Select(Reject(s, map[k := w]), map[k := v]) == Select(s, map[k := v])
  {
    if s != [] {
      SelectAfterReject(s[1..], k, v, w);
      assert Matches(s[0], map[k := v]) ==> !Matches(s[0], map[k := w]) by {
        if Matches(s[0], map[k := v]) {
          assert Get(s[0], k) == v;
        }
      }
    }
  }

  /** The same for `find`: looking up `v` in a table from which the records
      with `w` were removed finds what it found before. */
  lemma {:induction false} LookupAfterReject(s: seq<Record>, k: string, v: Value, w: Value)
    requires v != w
    ensures Lookup(Reject(s, map[k := w]), map[k := v]) == Lookup(s, map[k := v])
  {
    if s != [] {
      LookupAfterReject(s[1..], k, v, w);
      if Matches(s[0], map[k := v]) {
        assert Get(s[0], k) == v;
        assert !Matches(s[0], map[k := w]) by { assert Get(s[0], k) != w; }
      } else if Matches(s[0], map[k := w]) {
      } else {
      }
    }
  }

  /** Filtering never adds ids. */
  lemma {:induction false} IdsSelect(s: seq<Record>, pattern: Record)
    ensures Ids(Select(s, pattern)) <= Ids(s)
  {
    if s != [] {
      var rest := Select(s[1..], pattern);
      IdsSelect(s[1..], pattern);
      assert s == [s[0]] + s[1..];
      IdsConcat([s[0]], s[1..]);
      if Matches(s[0], pattern) {
        assert Select(s, pattern) == [s[0]] + rest;
        IdsConcat([s[0]], rest);
        SubBagPlus(Ids([s[0]]), Ids(rest), Ids(s[1..]));
      } else {
        assert Select(s, pattern) == rest;
        SubBagPlus(multiset{}, Ids(rest), Ids(s[1..]));
      }
    }
  }

  lemma SubBagPlus<T>(a: multiset<T>, b: multiset<T>, c: multiset<T>)
    requires b <= c
    ensures a + b <= a + c && b <= a + c
  {
  }

  /** `r.order_id === +q` for a query string `q`: a query that is not a
      number matches nothing. */
  predicate ForOrder(r: Record, q: string) {
    StringToNumber(q).Fin? && Get(r, "order_id") == Num(StringToNumber(q).r)
  }

  /** `s.filter(r => r.order_id === +q)`. */
  function ByOrderId(s: seq<Record>, q: string): seq<Record> {
    match StringToNumber(q)
    case NaN => []
    case Fin(x) => Select(s, map["order_id" := Num(x)])
  }

  lemma ByOrderIdSelects(s: seq<Record>, q: string)
    ensures forall r :: r in ByOrderId(s, q) <==> r in s && ForOrder(r, q)
    ensures Ids(ByOrderId(s, q)) <= Ids(s)
  {
    assert IdSeq([]) == [];
    if StringToNumber(q).Fin? {
      IdsSelect(s, map["order_id" := Num(StringToNumber(q).r)]);
      forall r | r in s ensures Matches(r, map["order_id" := Num(StringToNumber(q).r)]) <==> ForOrder(r, q) {
        MatchesOne(r, "order_id", Num(StringToNumber(q).r));
      }
    }
  }
}
