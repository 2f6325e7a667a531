/** `Array.prototype.sort` with a numeric-difference comparator
    (`(a, b) => a.k - b.k`, or `b.k - a.k` for newest first), which the list
    handlers use on ids and on `sort_order`. The sort is stable; a NaN
    difference counts as a tie. */
module Sorting {
  import opened Json
  import opened Records

  /** The comparator puts `a` strictly before `b`. */
  predicate Precedes(a: Record, b: Record, key: string, descending: bool) {
    var x := ToNumber(Get(a, key));
    var y := ToNumber(Get(b, key));
    x.Fin? && y.Fin? && (if descending then y.r < x.r else x.r < y.r)
  }

  function Insert(r: Record, s: seq<Record>, key: string, descending: bool): (res: seq<Record>)
    ensures multiset(res) == multiset(s) + multiset{r}
  {
    if s == [] then [r]
    else if Precedes(s[0], r, key, descending) then
      assert s == [s[0]] + s[1..];
      [s[0]] + Insert(r, s[1..], key, descending)
    else [r] + s
  }

  /** The stable sort: equal keys keep their input order. */
  function SortBy(s: seq<Record>, key: string, descending: bool): (res: seq<Record>)
    ensures multiset(res) == multiset(s) && |res| == |s|
  {
    if s == [] then []
    else
      assert s == [s[0]] + s[1..];
      Insert(s[0], SortBy(s[1..], key, descending), key, descending)
  }

  /** No record comes after one its comparator puts it before. */
  predicate Ordered(s: seq<Record>, key: string, descending: bool) {
    forall i, j :: 0 <= i < j < |s| ==> !Precedes(s[j], s[i], key, descending)
  }

  predicate NumericKey(r: Record, key: string) {
    ToNumber(Get(r, key)).Fin?
  }

  predicate NumericKeys(s: seq<Record>, key: string) {
    forall r :: r in s ==> NumericKey(r, key)
  }

  /** On numeric keys "not before" is transitive. */
  lemma NotPrecedesTransitive(a: Record, b: Record, c: Record, key: string, descending: bool)
    requires NumericKey(a, key) && NumericKey(b, key) && NumericKey(c, key)
    requires !Precedes(a, b, key, descending) && !Precedes(b, c, key, descending)
    ensures !Precedes(a, c, key, descending)
  {
  }

  lemma {:induction false} InsertOrdered(r: Record, t: seq<Record>, key: string, descending: bool)
    requires Ordered(t, key, descending) && NumericKeys(t, key) && NumericKey(r, key)
    ensures Ordered(Insert(r, t, key, descending), key, descending)
  {
    if t != [] {
      if Precedes(t[0], r, key, descending) {
        var tail := Insert(r, t[1..], key, descending);
        InsertOrdered(r, t[1..], key, descending);
        forall j | 0 <= j < |tail| ensures !Precedes(tail[j], t[0], key, descending) {
          assert tail[j] in multiset(tail);
          if tail[j] != r {
            assert tail[j] in multiset(t[1..]);
            var k :| 1 <= k < |t| && t[k] == tail[j];
          }
        }
        ConsOrdered(t[0], tail, key, descending);
      } else {
        forall j | 0 <= j < |t| ensures !Precedes(t[j], r, key, descending) {
          if j > 0 {
            assert t[j] in t;
            NotPrecedesTransitive(t[j], t[0], r, key, descending);
          }
        }
        ConsOrdered(r, t, key, descending);
      }
    }
  }

  /** Putting in front of an ordered table a record that none of it
      precedes keeps it ordered. */
  lemma ConsOrdered(x: Record, t: seq<Record>, key: string, descending: bool)
    requires Ordered(t, key, descending)
    requires forall j :: 0 <= j < |t| ==> !Precedes(t[j], x, key, descending)
    ensures Ordered([x] + t, key, descending)
  {
    var res := [x] + t;
    forall i, j | 0 <= i < j < |res| ensures !Precedes(res[j], res[i], key, descending) {
      assert res[j] == t[j - 1];
      if i > 0 {
        assert res[i] == t[i - 1];
      }
    }
  }

  /** With numeric keys the sort orders its result. */
  lemma {:induction false} SortByOrders(s: seq<Record>, key: string, descending: bool)
    requires NumericKeys(s, key)
    ensures Ordered(SortBy(s, key, descending), key, descending)
  {
    if s != [] {
      SortByOrders(s[1..], key, descending);
      var t := SortBy(s[1..], key, descending);
      assert NumericKeys(t, key) by {
        forall x | x in t ensures NumericKey(x, key) {
          assert x in multiset(t);
        }
      }
      InsertOrdered(s[0], t, key, descending);
    }
  }

  /** Sorting an already ordered table leaves it as it is. */
  lemma {:induction false} SortByOrdered(s: seq<Record>, key: string, descending: bool)
    requires Ordered(s, key, descending)
    ensures SortBy(s, key, descending) == s
  {
    if s != [] {
      SortByOrdered(s[1..], key, descending);
      if |s| > 1 {
        assert !Precedes(s[1], s[0], key, descending);
      }
      assert s == [s[0]] + s[1..];
    }
  }

  /** `a` has a numeric id greater than `b`'s. */
  predicate Newer(a: Record, b: Record) {
    IdOf(a).Num? && IdOf(b).Num? && IdOf(a).n > IdOf(b).n
  }

  /** Ids strictly decrease along the table. */
  predicate NewestFirst(s: seq<Record>) {
    forall i, j :: 0 <= i < j < |s| ==> Newer(s[i], s[j])
  }

  lemma IdsCons(s: seq<Record>)
    requires s != []
    ensures Ids(s) == multiset{IdOf(s[0])} + Ids(s[1..])
  {
    assert IdSeq(s) == [IdOf(s[0])] + IdSeq(s[1..]);
  }

  lemma IdsOne(r: Record)
    ensures Ids([r]) == multiset{IdOf(r)}
  {
    assert IdSeq([r]) == [IdOf(r)];
  }

  lemma {:induction false} IdsInsert(r: Record, s: seq<Record>, key: string, descending: bool)
    ensures Ids(Insert(r, s, key, descending)) == Ids(s) + multiset{IdOf(r)}
  {
    IdsOne(r);
    if s == [] {
    } else if Precedes(s[0], r, key, descending) {
      var tail := Insert(r, s[1..], key, descending);
      IdsInsert(r, s[1..], key, descending);
      assert Insert(r, s, key, descending) == [s[0]] + tail;
      assert s == [s[0]] + s[1..];
      IdsConcat([s[0]], tail);
      IdsConcat([s[0]], s[1..]);
    } else {
      assert Insert(r, s, key, descending) == [r] + s;
      IdsConcat([r], s);
    }
  }

  /** Sorting keeps the ids of a table. */
  lemma {:induction false} IdsSortBy(s: seq<Record>, key: string, descending: bool)
    ensures Ids(SortBy(s, key, descending)) == Ids(s)
  {
    if s != [] {
      IdsSortBy(s[1..], key, descending);
      IdsInsert(s[0], SortBy(s[1..], key, descending), key, descending);
      IdsCons(s);
    }
  }

  /** In a table whose ids occur at most once, two positions hold different ids. */
  lemma DistinctAt(s: seq<Record>, i: nat, j: nat)
    requires i < j < |s| && Ids(s)[IdOf(s[i])] <= 1
    ensures IdOf(s[i]) != IdOf(s[j])
  {
    var ids := IdSeq(s);
    assert ids == ids[..j] + ids[j..];
    assert ids[..j][i] == IdOf(s[i]);
    assert ids[j..][0] == IdOf(s[j]);
    assert IdOf(s[i]) in multiset(ids[..j]);
    assert IdOf(s[j]) in multiset(ids[j..]);
  }

  /** A table sorted newest first whose ids are distinct numbers has strictly
      decreasing ids. */
  lemma StrictlyNewestFirst(s: seq<Record>)
    requires forall r :: r in s ==> IdOf(r).Num?
    requires Ordered(s, "id", true) && forall v :: Ids(s)[v] <= 1
    ensures NewestFirst(s)
  {
    forall i, j | 0 <= i < j < |s| ensures Newer(s[i], s[j]) {
      assert s[i] in s && s[j] in s;
      assert !Precedes(s[j], s[i], "id", true);
      DistinctAt(s, i, j);
    }
  }

  /** Sorting newest first a table whose ids are distinct numbers gives
      strictly decreasing ids. */
  lemma SortedNewestFirst(s: seq<Record>)
    requires forall r :: r in s ==> IdOf(r).Num?
    requires forall v :: Ids(s)[v] <= 1
    ensures NewestFirst(SortBy(s, "id", true))
  {
    var sorted := SortBy(s, "id", true);
    IdsSortBy(s, "id", true);
    forall r | r in sorted ensures IdOf(r).Num? {
      assert r in multiset(sorted);
    }
    forall r | r in s ensures NumericKey(r, "id") {
      assert IdOf(r).Num?;
    }
    SortByOrders(s, "id", true);
    StrictlyNewestFirst(sorted);
  }

  /** In a newest-first table, a record whose id no other record reaches
      comes first. */
  lemma NewestHeads(s: seq<Record>, r: Record)
    requires NewestFirst(s) && r in s && IdOf(r).Num?
    requires forall x :: x in s ==> IdOf(x).Num? && IdOf(x).n <= IdOf(r).n && (IdOf(x) == IdOf(r) ==> x == r)
    ensures s[0] == r
  {
    var k :| 0 <= k < |s| && s[k] == r;
    assert k == 0 || Newer(s[0], s[k]);
    assert s[0] in s;
  }
}
