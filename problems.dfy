/** The problem reports: `GET /api/problems` (filtered by order type and
    order id, newest first), `POST /api/problems` and
    `PATCH /api/problems/:id/resolve`. */
module Problems {
  import opened Json
  import opened Records
  import opened Sorting
  import opened Store

  /** The status of a problem nobody has resolved yet. */
  const Open: string := "待处理"
  /** The status `resolve` sets. */
  const Resolved: string := "已解决"

  /** The keys a new problem record holds: the five fields taken from the
      request body and the four the server sets. */
  const ProblemKeys: set<string> := {"id", "order_type", "order_id", "order_number", "description",
                                     "reported_by", "status", "created_at", "resolved_at"}

  /** The record `POST /api/problems` builds; `order_id` goes through unary
      `+` and a NaN is stored as null. */
  function NewProblem(id: nat, body: Record, now: string): Record {
    map["id" := Num(id as real),
        "order_type" := Get(body, "order_type"),
        "order_id" := FromNumber(ToNumber(Get(body, "order_id"))),
        "order_number" := Get(body, "order_number"),
        "description" := Get(body, "description"),
        "reported_by" := Get(body, "reported_by"),
        "status" := Str(Open),
        "created_at" := Str(now),
        "resolved_at" := Null]
  }

  /** `POST /api/problems`: the new document and the problem it answers with. */
  function CreateProblem(d: Data, body: Record, now: string): (Data, Record) {
    (WithSide(d, Problems, d.problems + [NewProblem(d.nextId, body, now)]).(nextId := d.nextId + 1),
     NewProblem(d.nextId, body, now))
  }

  /** `PATCH /api/problems/:id/resolve`: None is the 404 answer. */
  function ResolveProblem(d: Data, id: int, now: string): Option<(Data, Record)> {
    match Find(d.problems, IdPattern(id))
    case None => None
    case Some(i) =>
      var p := d.problems[i]["status" := Str(Resolved)]["resolved_at" := Str(now)];
      Some((WithSide(d, Problems, d.problems[i := p]), p))
  }

  /** The query string filter `?type=&order_id=`, one problem at a time: an
      empty parameter does not filter, and an order id query that is not a
      number matches nothing. */
  predicate Listed(p: Record, typeQ: string, orderIdQ: string) {
    (typeQ == "" || Get(p, "order_type") == Str(typeQ))
    && (orderIdQ == "" || ForOrder(p, orderIdQ))
  }

  /** `GET /api/problems?type=&order_id=`. */
  function ListProblems(d: Data, typeQ: string, orderIdQ: string): seq<Record> {
    var byType := if typeQ == "" then d.problems else Select(d.problems, map["order_type" := Str(typeQ)]);
    var byOrder := if orderIdQ == "" then byType else ByOrderId(byType, orderIdQ);
    SortBy(byOrder, "id", true)
  }

  /** A new problem takes the next id, copies the five reported fields, stores
      the order id as a number (or null when it is not one), starts open and
      unresolved, and is appended; nothing else changes. */
  lemma CreateProblemEffect(d: Data, body: Record, now: string)
    ensures var (d2, p) := CreateProblem(d, body, now);
      && d2.problems == d.problems + [p]
      && d2.nextId == d.nextId + 1
      && d2.requisitions == d.requisitions && d2.materialPrices == d.materialPrices
      && (forall t :: d2.Get(t) == d.Get(t))
      && p.Keys == ProblemKeys
      && IdOf(p) == Num(d.nextId as real)
      && Get(p, "status") == Str(Open) && Get(p, "resolved_at") == Null && Get(p, "created_at") == Str(now)
      && (forall k :: k in {"order_type", "order_number", "description", "reported_by"} ==> Get(p, k) == Get(body, k))
      && (Get(p, "order_id").Num? || Get(p, "order_id") == Null)
      && (Get(body, "order_id").Num? ==> Get(p, "order_id") == Get(body, "order_id"))
      && (forall s :: Get(body, "order_id") == Str(s) && IsDigits(s) ==> Get(p, "order_id") == Num(DecimalValue(s) as real))
  {
  }

  lemma NewProblemId(id: nat, body: Record, now: string)
    ensures IdOf(NewProblem(id, body, now)) == Num(id as real)
  {
  }

  /** Reporting a problem keeps ids global and distinct. */
  lemma CreateProblemKeepsValid(d: Data, body: Record, now: string)
    requires Valid(d)
    ensures Valid(CreateProblem(d, body, now).0)
  {
    var p := NewProblem(d.nextId, body, now);
    var d2 := CreateProblem(d, body, now).0;
    assert d2 == WithSide(d, Problems, SideRows(d, Problems) + [p]).(nextId := d.nextId + 1);
    NewProblemId(d.nextId, body, now);
    SideAppendKeepsValid(d, Problems, p);
  }

  /** Resolving answers 404 exactly when no problem has the id; otherwise the
      first problem with the id is marked resolved at `now`, keeps every other
      field, and no other record changes. */
  lemma ResolveProblemEffect(d: Data, id: int, now: string)
    ensures ResolveProblem(d, id, now).None? <==> forall p :: p in d.problems ==> IdOf(p) != Num(id as real)
    ensures ResolveProblem(d, id, now).Some? ==>
      var (d2, p) := ResolveProblem(d, id, now).value;
      exists i :: 0 <= i < |d.problems|
        && IdOf(d.problems[i]) == Num(id as real)
        && (forall j :: 0 <= j < i ==> IdOf(d.problems[j]) != Num(id as real))
        && d2.problems == d.problems[i := p]
        && Get(p, "status") == Str(Resolved) && Get(p, "resolved_at") == Str(now)
        && (forall k :: k != "status" && k != "resolved_at" ==> Get(p, k) == Get(d.problems[i], k))
        && d2.nextId == d.nextId && d2.requisitions == d.requisitions
        && d2.materialPrices == d.materialPrices && (forall t :: d2.Get(t) == d.Get(t))
  {
    FindById(d.problems, id);
  }

  /** Resolving a problem a second time only moves its resolution time. */
  lemma ResolveAgain(d: Data, id: int, first: string, second: string)
    requires ResolveProblem(d, id, first).Some?
    ensures var d1 := ResolveProblem(d, id, first).value.0;
      ResolveProblem(d1, id, second) == ResolveProblem(d, id, second)
  {
    var i := Find(d.problems, IdPattern(id)).value;
    var p1 := d.problems[i]["status" := Str(Resolved)]["resolved_at" := Str(first)];
    var s1 := d.problems[i := p1];
    assert Get(p1, "id") == Get(d.problems[i], "id");
    FindSame(d.problems, i, p1, IdPattern(id));
    assert p1["status" := Str(Resolved)]["resolved_at" := Str(second)]
        == d.problems[i]["status" := Str(Resolved)]["resolved_at" := Str(second)];
    var p2 := d.problems[i]["status" := Str(Resolved)]["resolved_at" := Str(second)];
    assert s1[i := p2] == d.problems[i := p2];
  }

  /** Replacing the record `find` stopped at by one that still matches leaves
      `find`'s answer where it was. */
  lemma FindSame(s: seq<Record>, i: nat, r: Record, pattern: Record)
    requires Find(s, pattern) == Some(i)
    requires forall k :: k in pattern ==> Get(r, k) == Get(s[i], k)
    ensures Find(s[i := r], pattern) == Some(i)
  {
    var s2 := s[i := r];
    assert Matches(s2[i], pattern);
    forall j | 0 <= j < i ensures !Matches(s2[j], pattern) {
      assert s2[j] == s[j];
    }
    FindFirst(s2, i, pattern);
  }

  /** `find` answers the first index that matches. */
  lemma {:induction false} FindFirst(s: seq<Record>, i: nat, pattern: Record)
    requires i < |s| && Matches(s[i], pattern)
    requires forall j :: 0 <= j < i ==> !Matches(s[j], pattern)
    ensures Find(s, pattern) == Some(i)
  {
    if i > 0 {
      assert s[1..][i - 1] == s[i];
      forall j | 0 <= j < i - 1 ensures !Matches(s[1..][j], pattern) {
        assert s[1..][j] == s[j + 1];
      }
      FindFirst(s[1..], i - 1, pattern);
    }
  }

  /** Resolving keeps ids global and distinct. */
  lemma ResolveProblemKeepsValid(d: Data, id: int, now: string)
    requires Valid(d) && ResolveProblem(d, id, now).Some?
    ensures Valid(ResolveProblem(d, id, now).value.0)
  {
    var i := Find(d.problems, IdPattern(id)).value;
    var p := d.problems[i]["status" := Str(Resolved)]["resolved_at" := Str(now)];
    assert IdOf(p) == IdOf(d.problems[i]);
    IdsUpdate(d.problems, i, p);
    SideShrinkKeepsValid(d, Problems, d.problems[i := p]);
  }

  /** The list holds exactly the problems the query selects, no more than
      the table holds, and the whole table when nothing is asked. */
  lemma ListProblemsSelects(d: Data, typeQ: string, orderIdQ: string)
    ensures var res := ListProblems(d, typeQ, orderIdQ);
      && |res| <= |d.problems|
      && (forall p :: p in res <==> p in d.problems && Listed(p, typeQ, orderIdQ))
      && (typeQ == "" && orderIdQ == "" ==> multiset(res) == multiset(d.problems))
  {
    var byType := if typeQ == "" then d.problems else Select(d.problems, map["order_type" := Str(typeQ)]);
    var byOrder := if orderIdQ == "" then byType else ByOrderId(byType, orderIdQ);
    var res := ListProblems(d, typeQ, orderIdQ);
    assert multiset(res) == multiset(byOrder);
    forall p ensures p in res <==> p in byOrder {
      assert p in res <==> p in multiset(res);
    }
    forall p | p in d.problems
      ensures p in byOrder <==> Listed(p, typeQ, orderIdQ)
    {
      MatchesOne(p, "order_type", Str(typeQ));
      ByOrderIdSelects(byType, orderIdQ);
    }
  }

  /** Under the invariant the list is newest first: ids strictly decrease. */
  lemma ListProblemsNewestFirst(d: Data, typeQ: string, orderIdQ: string)
    requires IdsBelow(d) && IdsDistinct(d)
    ensures NewestFirst(ListProblems(d, typeQ, orderIdQ))
  {
    var byType := if typeQ == "" then d.problems else Select(d.problems, map["order_type" := Str(typeQ)]);
    var byOrder := if orderIdQ == "" then byType else ByOrderId(byType, orderIdQ);
    SideTableIds(d, Problems);
    IdsSelect(d.problems, map["order_type" := Str(typeQ)]);
    assert Ids(byType) <= Ids(d.problems);
    ByOrderIdSelects(byType, orderIdQ);
    assert Ids(byOrder) <= Ids(d.problems);
    forall r | r in byOrder ensures IdOf(r).Num? {
      IdIn(byOrder, r);
    }
    SortedNewestFirst(byOrder);
  }

  /** A problem just reported against a numeric order id heads the list of
      that order's problems. */
  lemma ReportedProblemListedFirst(d: Data, body: Record, now: string, q: string)
    requires Valid(d)
    requires q != "" && IsDigits(q) && Get(body, "order_id") == Str(q)
    ensures var (d2, p) := CreateProblem(d, body, now);
      var res := ListProblems(d2, "", q);
      |res| > 0 && res[0] == p
  {
    var (d2, p) := CreateProblem(d, body, now);
    CreateProblemEffect(d, body, now);
    CreateProblemKeepsValid(d, body, now);
    var res := ListProblems(d2, "", q);
    ListProblemsSelects(d2, "", q);
    ListProblemsNewestFirst(d2, "", q);
    SideTableIds(d, Problems);
    assert p in res;
    NewestOfAppended(d.problems, p, res, d.nextId);
    NewestHeads(res, p);
  }

  /** A record whose id is the counter outranks every record already below it. */
  lemma NewestOfAppended(rows: seq<Record>, p: Record, res: seq<Record>, n: nat)
    requires forall r :: r in rows ==> IdOf(r).Num? && IdOf(r).n < n as real
    requires IdOf(p) == Num(n as real)
    requires forall r :: r in res ==> r in rows + [p]
    ensures forall r :: r in res ==> IdOf(r).Num? && IdOf(r).n <= IdOf(p).n && (IdOf(r) == IdOf(p) ==> r == p)
  {
    forall r | r in res
      ensures IdOf(r).Num? && IdOf(r).n <= IdOf(p).n && (IdOf(r) == IdOf(p) ==> r == p)
    {
      assert r in rows || r == p;
    }
  }
}
