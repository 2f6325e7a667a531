/** The material requisitions: `GET /api/requisitions` (filtered by order id,
    newest first), `POST /api/requisitions` with its per-day numbering
    `LL-YYYYMMDD-NNN`, `PATCH /api/requisitions/:id/status` and
    `DELETE /api/requisitions/:id`. */
module Requisitions {
  import opened Json
  import opened Records
  import opened Sorting
  import opened Store

  /** The status of a requisition waiting for the warehouse. */
  const Awaiting: string := "待出库"
  /** The status that stamps `issued_at`. */
  const Issued: string := "已出库"

  /** `now.toISOString().slice(0, 10)`: the UTC day of the request. */
  function Today(now: string): string { Prefix(now, 10) }

  /** The day with its dashes removed, `YYYYMMDD`. */
  function DateStamp(now: string): string { RemoveAll(Today(now), '-') }

  /** For an ISO time `YYYY-MM-DDTHH:MM:SS.sssZ`, the stamp is the eight
      characters `YYYYMMDD`: the year, the month and the day without the two
      dashes between them. */
  lemma DateStampDigits(now: string)
    requires |now| >= 10 && now[4] == '-' && now[7] == '-'
    requires forall i :: 0 <= i < 10 && i != 4 && i != 7 ==> now[i] != '-'
    ensures DateStamp(now) == now[..4] + now[5..7] + now[8..10]
    ensures |DateStamp(now)| == 8
  {
    var y, m, dd := now[..4], now[5..7], now[8..10];
    assert Today(now) == now[..10];
    assert now[..10] == y + ['-'] + m + ['-'] + dd;
    assert '-' !in y && '-' !in m && '-' !in dd by {
      forall i | 0 <= i < 4 ensures y[i] == now[i] { }
      forall i | 0 <= i < 2 ensures m[i] == now[5 + i] && dd[i] == now[8 + i] { }
    }
    RemoveAllConcat(y + ['-'] + m + ['-'], dd, '-');
    RemoveAllConcat(y + ['-'] + m, ['-'], '-');
    RemoveAllConcat(y + ['-'], m, '-');
    RemoveAllConcat(y, ['-'], '-');
    RemoveAllAbsent(y, '-');
    RemoveAllAbsent(m, '-');
    RemoveAllAbsent(dd, '-');
  }

  /** `(r.req_number || '').includes(dateStr)`. */
  predicate SameDay(r: Record, stamp: string) {
    Includes(Text(Get(r, "req_number")), stamp)
  }

  /** The length of `dayReqs`: the requisitions whose number mentions the day. */
  function DayCount(reqs: seq<Record>, stamp: string): (n: nat)
    ensures n <= |reqs|
  {
    if reqs == [] then 0
    else DayCount(reqs[..|reqs| - 1], stamp) + (if SameDay(reqs[|reqs| - 1], stamp) then 1 else 0)
  }

  /** `String(n).padStart(3, '0')`. */
  function Suffix(n: nat): string { PadStart(DecimalString(n), 3, '0') }

  /** `LL-${dateStr}-${seq}`. */
  function ReqNumber(stamp: string, n: nat): string { "LL-" + stamp + "-" + Suffix(n) }

  /** `+(v) || 0`: a number, with NaN (and zero) read as zero. */
  function Weight(v: Value): Value {
    match ToNumber(v)
    case NaN => Num(0.0)
    case Fin(x) => Num(x)
  }

  /** `body.order_id ? +body.order_id : null`, with NaN stored as null. */
  function OrderRef(v: Value): Value {
    if Truthy(v) then FromNumber(ToNumber(v)) else Null
  }

  /** The record `POST /api/requisitions` builds from the body, numbered
      `seqNo` within its day. */
  function NewRequisition(id: nat, seqNo: nat, body: Record, now: string): Record {
    map["id" := Num(id as real),
        "req_number" := Str(ReqNumber(DateStamp(now), seqNo)),
        "date" := Or(Get(body, "date"), Str(Today(now))),
        "order_id" := OrderRef(Get(body, "order_id")),
        "order_number" := Or(Get(body, "order_number"), Str("")),
        "material" := Or(Get(body, "material"), Str("")),
        "requested_weight_kg" := Weight(Get(body, "requested_weight_kg")),
        "applicant" := Or(Get(body, "applicant"), Str("")),
        "notes" := Or(Get(body, "notes"), Str("")),
        "status" := Str(Awaiting),
        "issued_at" := Null,
        "created_at" := Str(now)]
  }

  /** Appending a new requisition numbered `seqNo`: the new document and
      the requisition `POST /api/requisitions` answers with. */
  function Issue(d: Data, seqNo: nat, body: Record, now: string): (Data, Record) {
    var r := NewRequisition(d.nextId, seqNo, body, now);
    (WithSide(d, Requisitions, d.requisitions + [r]).(nextId := d.nextId + 1), r)
  }

  /** `POST /api/requisitions` as written: the sequence number is one more
      than the number of requisitions whose number mentions the day. */
  function CreateRequisitionAsWritten(d: Data, body: Record, now: string): (Data, Record) {
    Issue(d, DayCount(d.requisitions, DateStamp(now)) + 1, body, now)
  }

  /** The sequence number a requisition number carries for the day: the
      digits after `LL-YYYYMMDD-`, or 0 when the number is not of that day. */
  function SequenceOf(s: string, stamp: string): nat {
    var head := "LL-" + stamp + "-";
    if StartsWith(s, head) && IsDigits(s[|head|..]) then DecimalValue(s[|head|..]) else 0
  }

  /** The largest sequence number issued for the day among the requisitions
      still held. */
  function MaxSequence(reqs: seq<Record>, stamp: string): nat {
    if reqs == [] then 0
    else
      var m := MaxSequence(reqs[..|reqs| - 1], stamp);
      var k := SequenceOf(Text(Get(reqs[|reqs| - 1], "req_number")), stamp);
      if k > m then k else m
  }

  /** `POST /api/requisitions` with the numbering corrected: one more than the
      largest sequence number of the day still held, so a number is never
      issued twice while its holder exists. */
  function CreateRequisition(d: Data, body: Record, now: string): (Data, Record) {
    Issue(d, MaxSequence(d.requisitions, DateStamp(now)) + 1, body, now)
  }

  /** Creating a requisition issues the number after the day's largest. */
  lemma CreateIsIssue(d: Data, body: Record, now: string, top: nat)
    requires top == MaxSequence(d.requisitions, DateStamp(now))
    ensures CreateRequisition(d, body, now) == Issue(d, top + 1, body, now)
  {
  }

  /** The requisition after `r.status = status`, with `issued_at` stamped
      when the new status is the issued one. */
  function SetStatus(r: Record, status: Value, now: string): Record {
    if status == Str(Issued) then r["status" := status]["issued_at" := Str(now)]
    else r["status" := status]
  }

  /** `PATCH /api/requisitions/:id/status`: None is the 404 answer. */
  function PatchRequisition(d: Data, id: int, status: Value, now: string): Option<(Data, Record)> {
    match Find(d.requisitions, IdPattern(id))
    case None => None
    case Some(i) =>
      var r := SetStatus(d.requisitions[i], status, now);
      Some((WithSide(d, Requisitions, d.requisitions[i := r]), r))
  }

  /** `DELETE /api/requisitions/:id`: always succeeds. */
  function DeleteRequisition(d: Data, id: int): Data {
    WithSide(d, Requisitions, Reject(d.requisitions, IdPattern(id)))
  }

  /** `GET /api/requisitions?order_id=`. */
  function ListRequisitions(d: Data, orderIdQ: string): seq<Record> {
    SortBy(if orderIdQ == "" then d.requisitions else ByOrderId(d.requisitions, orderIdQ), "id", true)
  }

  /** Decimal spellings of numbers below 1000 have at most three digits, and
      from 100 on at least three. */
  lemma DecimalLength(n: nat)
    ensures n < 1000 ==> |DecimalString(n)| <= 3
    ensures n >= 100 ==> |DecimalString(n)| >= 3
  {
    if n >= 10 {
      assert |DecimalString(n)| == |DecimalString(n / 10)| + 1;
      if n >= 100 {
        assert |DecimalString(n / 10)| == |DecimalString(n / 100)| + 1;
      }
      if n < 1000 && n / 10 >= 10 {
        assert |DecimalString(n / 10)| == |DecimalString(n / 100)| + 1;
      }
    }
  }

  /** The sequence part is three or more digits that read back as the count. */
  lemma SuffixRoundTrip(n: nat)
    ensures IsDigits(Suffix(n)) && DecimalValue(Suffix(n)) == n
    ensures |Suffix(n)| >= 3 && (n < 1000 ==> |Suffix(n)| == 3)
  {
    var s := DecimalString(n);
    DecimalRoundTrip(n);
    DecimalLength(n);
    if |s| < 3 {
      LeadingZeros(3 - |s|, s);
    }
  }

  /** A requisition number starts with `LL-`, mentions its day, and tells
      apart the sequence numbers of that day. */
  lemma ReqNumberParts(stamp: string, m: nat, n: nat)
    ensures StartsWith(ReqNumber(stamp, n), "LL-")
    ensures Includes(ReqNumber(stamp, n), stamp)
    ensures ReqNumber(stamp, m) == ReqNumber(stamp, n) ==> m == n
  {
    ReqNumberMentions(stamp, n);
    if ReqNumber(stamp, m) == ReqNumber(stamp, n) {
      ReqNumberInjective(stamp, m, n);
    }
  }

  /** The `LL-` head and the day stamp right after it. */
  lemma ReqNumberMentions(stamp: string, n: nat)
    ensures StartsWith(ReqNumber(stamp, n), "LL-")
    ensures Includes(ReqNumber(stamp, n), stamp)
  {
    var s := ReqNumber(stamp, n);
    assert s[3..3 + |stamp|] == stamp;
    assert OccursAt(s, stamp, 3);
  }

  /** The same day's numbers differ when their sequence numbers do. */
  lemma ReqNumberInjective(stamp: string, m: nat, n: nat)
    requires ReqNumber(stamp, m) == ReqNumber(stamp, n)
    ensures m == n
  {
    var k := |"LL-" + stamp + "-"|;
    assert ReqNumber(stamp, m)[k..] == Suffix(m);
    assert ReqNumber(stamp, n)[k..] == Suffix(n);
    SuffixRoundTrip(m);
    SuffixRoundTrip(n);
  }

  /** A requisition numbered for the day counts for it. */
  lemma NumberMentionsDay(r: Record, stamp: string, n: nat)
    requires Get(r, "req_number") == Str(ReqNumber(stamp, n))
    ensures SameDay(r, stamp)
  {
    ReqNumberParts(stamp, 0, n);
  }

  /** Appending a requisition counts it when its number mentions the day. */
  lemma DayCountAppend(reqs: seq<Record>, r: Record, stamp: string)
    ensures DayCount(reqs + [r], stamp) == DayCount(reqs, stamp) + (if SameDay(r, stamp) then 1 else 0)
  {
    assert (reqs + [r])[..|reqs|] == reqs;
  }

  lemma NewRequisitionId(id: nat, seqNo: nat, body: Record, now: string)
    ensures IdOf(NewRequisition(id, seqNo, body, now)) == Num(id as real)
  {
    var r := NewRequisition(id, seqNo, body, now);
    assert "id" in r && r["id"] == Num(id as real);
  }

  /** The fields the server sets on a new requisition. */
  lemma NewRequisitionServerFields(id: nat, seqNo: nat, body: Record, now: string)
    ensures var r := NewRequisition(id, seqNo, body, now);
      && IdOf(r) == Num(id as real)
      && Get(r, "req_number") == Str(ReqNumber(DateStamp(now), seqNo))
      && Get(r, "status") == Str(Awaiting) && Get(r, "issued_at") == Null && Get(r, "created_at") == Str(now)
  {
  }

  /** The text fields a new requisition takes from the body, empty when the
      body's value is falsy. */
  lemma NewRequisitionTextFields(id: nat, seqNo: nat, body: Record, now: string)
    ensures var r := NewRequisition(id, seqNo, body, now);
      forall k :: k in {"order_number", "material", "applicant", "notes"} ==>
        Get(r, k) == if Truthy(Get(body, k)) then Get(body, k) else Str("")
  {
    var r := NewRequisition(id, seqNo, body, now);
    assert "order_number" in r && r["order_number"] == Or(Get(body, "order_number"), Str(""));
    assert "material" in r && r["material"] == Or(Get(body, "material"), Str(""));
    assert "applicant" in r && r["applicant"] == Or(Get(body, "applicant"), Str(""));
    assert "notes" in r && r["notes"] == Or(Get(body, "notes"), Str(""));
  }

  /** The date defaults to the day of the request, the requested weight is
      always a number, and the order is a number or null: null when the body
      names none, the body's number when it names a nonzero one. */
  lemma NewRequisitionBodyFields(id: nat, seqNo: nat, body: Record, now: string)
    ensures var r := NewRequisition(id, seqNo, body, now);
      && Get(r, "date") == (if Truthy(Get(body, "date")) then Get(body, "date") else Str(Today(now)))
      && Get(r, "requested_weight_kg").Num?
      && (Get(body, "requested_weight_kg").Num? ==> Get(r, "requested_weight_kg") == Get(body, "requested_weight_kg"))
      && (Get(r, "order_id").Num? || Get(r, "order_id") == Null)
      && (!Truthy(Get(body, "order_id")) ==> Get(r, "order_id") == Null)
      && (Get(body, "order_id").Num? && Truthy(Get(body, "order_id")) ==> Get(r, "order_id") == Get(body, "order_id"))
  {
    var r := NewRequisition(id, seqNo, body, now);
    NewRequisitionCopies(id, seqNo, body, now);
    WeightIsNumber(Get(body, "requested_weight_kg"));
    OrderRefIsNumber(Get(body, "order_id"));
  }

  /** The converted fields, as stored. */
  lemma NewRequisitionCopies(id: nat, seqNo: nat, body: Record, now: string)
    ensures var r := NewRequisition(id, seqNo, body, now);
      && Get(r, "date") == Or(Get(body, "date"), Str(Today(now)))
      && Get(r, "requested_weight_kg") == Weight(Get(body, "requested_weight_kg"))
      && Get(r, "order_id") == OrderRef(Get(body, "order_id"))
  {
  }

  lemma WeightIsNumber(v: Value)
    ensures Weight(v).Num? && (v.Num? ==> Weight(v) == v)
  {
  }

  lemma OrderRefIsNumber(v: Value)
    ensures OrderRef(v).Num? || OrderRef(v) == Null
    ensures !Truthy(v) ==> OrderRef(v) == Null
    ensures v.Num? && Truthy(v) ==> OrderRef(v) == v
  {
  }

  /** A new requisition takes the next id and is appended; nothing else
      changes. */
  lemma IssueAppends(d: Data, seqNo: nat, body: Record, now: string)
    ensures var (d2, r) := Issue(d, seqNo, body, now);
      && r == NewRequisition(d.nextId, seqNo, body, now)
      && d2.requisitions == d.requisitions + [r]
      && d2.nextId == d.nextId + 1
      && d2.problems == d.problems && d2.materialPrices == d.materialPrices
      && (forall t :: d2.Get(t) == d.Get(t))
  {
  }

  lemma IssueIsSideAppend(d: Data, seqNo: nat, body: Record, now: string)
    ensures Issue(d, seqNo, body, now).0
      == WithSide(d, Requisitions, SideRows(d, Requisitions) + [NewRequisition(d.nextId, seqNo, body, now)]).(nextId := d.nextId + 1)
  {
  }

  /** Making a requisition keeps ids global and distinct. */
  lemma IssueKeepsValid(d: Data, seqNo: nat, body: Record, now: string)
    requires Valid(d)
    ensures Valid(Issue(d, seqNo, body, now).0)
  {
    var r := NewRequisition(d.nextId, seqNo, body, now);
    IssueIsSideAppend(d, seqNo, body, now);
    NewRequisitionId(d.nextId, seqNo, body, now);
    SideAppendKeepsValid(d, Requisitions, r);
  }

  /** What one issue leaves behind, for a result given by name. */
  lemma IssueFacts(d: Data, seqNo: nat, body: Record, now: string, d2: Data, r: Record)
    requires (d2, r) == Issue(d, seqNo, body, now)
    ensures d2.requisitions == d.requisitions + [r] && d2.nextId == d.nextId + 1
    ensures IdOf(r) == Num(d.nextId as real)
    ensures Get(r, "req_number") == Str(ReqNumber(DateStamp(now), seqNo))
  {
    IssueAppends(d, seqNo, body, now);
    NewRequisitionServerFields(d.nextId, seqNo, body, now);
  }

  /** As written, the new requisition's number mentions its day, so the day's
      count grows by one and the next requisition that day takes the next
      number. */
  lemma AsWrittenCounts(d: Data, body: Record, now: string)
    ensures var (d2, r) := CreateRequisitionAsWritten(d, body, now);
      var stamp := DateStamp(now);
      && Get(r, "req_number") == Str(ReqNumber(stamp, DayCount(d.requisitions, stamp) + 1))
      && DayCount(d2.requisitions, stamp) == DayCount(d.requisitions, stamp) + 1
  {
    var stamp := DateStamp(now);
    var n := DayCount(d.requisitions, stamp) + 1;
    var (d2, r) := CreateRequisitionAsWritten(d, body, now);
    IssueFacts(d, n, body, now, d2, r);
    NumberMentionsDay(r, stamp, n);
    DayCountAppend(d.requisitions, r, stamp);
  }

  /** What one as-written creation leaves behind, for a result given by
      name. */
  lemma AsWrittenFacts(d: Data, body: Record, now: string, d2: Data, r: Record, n: nat)
    requires (d2, r) == CreateRequisitionAsWritten(d, body, now)
    requires n == DayCount(d.requisitions, DateStamp(now)) + 1
    ensures d2.requisitions == d.requisitions + [r] && d2.nextId == d.nextId + 1
    ensures IdOf(r) == Num(d.nextId as real)
    ensures Get(r, "req_number") == Str(ReqNumber(DateStamp(now), n))
    ensures DayCount(d2.requisitions, DateStamp(now)) == n
  {
    IssueFacts(d, n, body, now, d2, r);
    NumberMentionsDay(r, DateStamp(now), n);
    DayCountAppend(d.requisitions, r, DateStamp(now));
  }

  /** As written, deleting the first of two requisitions made on one day
      makes the next requisition of that day repeat the number of the second,
      which is still held. */
  lemma DeleteReusesNumber(d: Data, b1: Record, b2: Record, b3: Record, now1: string, now2: string, now3: string,
                           d1: Data, r1: Record, d2: Data, r2: Record, d4: Data, r3: Record)
    requires Valid(d)
    requires DateStamp(now1) == DateStamp(now2) == DateStamp(now3)
    requires (d1, r1) == CreateRequisitionAsWritten(d, b1, now1)
    requires (d2, r2) == CreateRequisitionAsWritten(d1, b2, now2)
    requires (d4, r3) == CreateRequisitionAsWritten(DeleteRequisition(d2, d.nextId), b3, now3)
    ensures r2 in DeleteRequisition(d2, d.nextId).requisitions
    ensures Get(r3, "req_number") == Get(r2, "req_number")
  {
    NextIdFree(d);
    DeleteReusesFreeNumber(d, b1, b2, b3, now1, now2, now3, d1, r1, d2, r2, d4, r3);
  }

  /** The same, for a document where no requisition holds the next id. */
  lemma DeleteReusesFreeNumber(d: Data, b1: Record, b2: Record, b3: Record, now1: string, now2: string, now3: string,
                               d1: Data, r1: Record, d2: Data, r2: Record, d4: Data, r3: Record)
    requires forall r :: r in d.requisitions ==> !Matches(r, IdPattern(d.nextId))
    requires DateStamp(now1) == DateStamp(now2) == DateStamp(now3)
    requires (d1, r1) == CreateRequisitionAsWritten(d, b1, now1)
    requires (d2, r2) == CreateRequisitionAsWritten(d1, b2, now2)
    requires (d4, r3) == CreateRequisitionAsWritten(DeleteRequisition(d2, d.nextId), b3, now3)
    ensures r2 in DeleteRequisition(d2, d.nextId).requisitions
    ensures Get(r3, "req_number") == Get(r2, "req_number")
  {
    var n := DayCount(d.requisitions, DateStamp(now3));
    AsWrittenFacts(d, b1, now1, d1, r1, n + 1);
    AsWrittenFacts(d1, b2, now2, d2, r2, n + 2);
    DeleteAfterTwo(d, d1, r1, d2, r2);
    AfterDelete(d, r2, DeleteRequisition(d2, d.nextId), b3, now3, d4, r3, n);
  }

  /** Deleting the first of two requisitions appended one after the other
      leaves the table and the second. */
  lemma DeleteAfterTwo(d: Data, d1: Data, r1: Record, d2: Data, r2: Record)
    requires forall r :: r in d.requisitions ==> !Matches(r, IdPattern(d.nextId))
    requires d1.requisitions == d.requisitions + [r1] && d1.nextId == d.nextId + 1
    requires d2.requisitions == d1.requisitions + [r2]
    requires IdOf(r1) == Num(d.nextId as real) && IdOf(r2) == Num(d1.nextId as real)
    ensures DeleteRequisition(d2, d.nextId).requisitions == d.requisitions + [r2]
  {
    DeleteFirstOfTwo(d, r1, r2);
    DeleteRequisitionRows(d2, d.nextId);
  }

  /** After the delete, the table holds the second requisition, whose number
      is the next one the day's count gives. */
  lemma AfterDelete(d: Data, r2: Record, d3: Data, b3: Record, now3: string, d4: Data, r3: Record, n: nat)
    requires d3.requisitions == d.requisitions + [r2]
    requires n == DayCount(d.requisitions, DateStamp(now3))
    requires Get(r2, "req_number") == Str(ReqNumber(DateStamp(now3), n + 2))
    requires (d4, r3) == CreateRequisitionAsWritten(d3, b3, now3)
    ensures r2 in d3.requisitions
    ensures Get(r3, "req_number") == Get(r2, "req_number")
  {
    DayCountAppend(d.requisitions, r2, DateStamp(now3));
    NumberMentionsDay(r2, DateStamp(now3), n + 2);
    AsWrittenFacts(d3, b3, now3, d4, r3, n + 2);
  }

  /** Deleting a requisition touches only the requisitions. */
  lemma DeleteRequisitionRows(d: Data, id: int)
    ensures DeleteRequisition(d, id).requisitions == Reject(d.requisitions, IdPattern(id))
  {
  }

  /** Under the invariant, no held requisition has the next id. */
  lemma NextIdFree(d: Data)
    requires Valid(d)
    ensures forall r :: r in d.requisitions ==> !Matches(r, IdPattern(d.nextId))
  {
    SideTableIds(d, Requisitions);
    forall r | r in d.requisitions ensures !Matches(r, IdPattern(d.nextId)) {
      MatchesOne(r, "id", Num(d.nextId as real));
    }
  }

  /** Removing the id of the first of two appended requisitions, which no
      earlier one holds, leaves the table and the second. */
  lemma DeleteFirstOfTwo(d: Data, r1: Record, r2: Record)
    requires forall r :: r in d.requisitions ==> !Matches(r, IdPattern(d.nextId))
    requires IdOf(r1) == Num(d.nextId as real) && IdOf(r2) == Num((d.nextId + 1) as real)
    ensures Reject(d.requisitions + [r1] + [r2], IdPattern(d.nextId)) == d.requisitions + [r2]
  {
    var p := IdPattern(d.nextId);
    RejectNone(d.requisitions, p);
    MatchesOne(r1, "id", Num(d.nextId as real));
    MatchesOne(r2, "id", Num(d.nextId as real));
    RejectTwo(d.requisitions, r1, r2, p);
  }

  /** Rejecting from a table followed by a matching and a non-matching row. */
  lemma RejectTwo(rows: seq<Record>, r1: Record, r2: Record, p: Record)
    requires Matches(r1, p) && !Matches(r2, p)
    ensures Reject(rows + [r1] + [r2], p) == Reject(rows, p) + [r2]
  {
    RejectConcat(rows + [r1], [r2], p);
    RejectConcat(rows, [r1], p);
    assert Reject([r1], p) == [];
    assert Reject([r2], p) == [r2];
  }

  /** A requisition number reads back as its sequence number. */
  lemma SequenceOfReqNumber(stamp: string, n: nat)
    ensures SequenceOf(ReqNumber(stamp, n), stamp) == n
  {
    var head := "LL-" + stamp + "-";
    assert ReqNumber(stamp, n)[|head|..] == Suffix(n);
    assert ReqNumber(stamp, n)[..|head|] == head;
    SuffixRoundTrip(n);
  }

  /** A number that carries a sequence number for the day mentions the day. */
  lemma SequenceMentionsDay(s: string, stamp: string)
    requires SequenceOf(s, stamp) > 0
    ensures Includes(s, stamp)
  {
    var head := "LL-" + stamp + "-";
    assert s[3..3 + |stamp|] == head[3..3 + |stamp|] == stamp;
    assert OccursAt(s, stamp, 3);
  }

  /** No held requisition carries a sequence number above the maximum. */
  lemma {:induction false} MaxSequenceBound(reqs: seq<Record>, stamp: string, r: Record)
    requires r in reqs
    ensures SequenceOf(Text(Get(r, "req_number")), stamp) <= MaxSequence(reqs, stamp)
  {
    var init := reqs[..|reqs| - 1];
    if r != reqs[|reqs| - 1] {
      assert reqs == init + [reqs[|reqs| - 1]];
      MaxSequenceBound(init, stamp, r);
    }
  }

  /** Appending the next number of the day raises the maximum to it. */
  lemma MaxSequenceAppend(reqs: seq<Record>, r: Record, stamp: string, n: nat)
    requires Get(r, "req_number") == Str(ReqNumber(stamp, n)) && n == MaxSequence(reqs, stamp) + 1
    ensures MaxSequence(reqs + [r], stamp) == n
  {
    SequenceOfReqNumber(stamp, n);
    assert (reqs + [r])[..|reqs|] == reqs;
  }

  /** With no held number mentioning the day, the maximum is 0. */
  lemma {:induction false} MaxSequenceNone(reqs: seq<Record>, stamp: string)
    requires forall r :: r in reqs ==> !SameDay(r, stamp)
    ensures MaxSequence(reqs, stamp) == 0
  {
    if reqs != [] {
      var last := reqs[|reqs| - 1];
      assert last in reqs;
      assert forall r :: r in reqs[..|reqs| - 1] ==> r in reqs;
      MaxSequenceNone(reqs[..|reqs| - 1], stamp);
      if SequenceOf(Text(Get(last, "req_number")), stamp) > 0 {
        SequenceMentionsDay(Text(Get(last, "req_number")), stamp);
      }
    }
  }

  /** The corrected numbering never repeats the number of a held
      requisition. */
  lemma CreateRequisitionFresh(d: Data, body: Record, now: string)
    ensures var (d2, r) := CreateRequisition(d, body, now);
      forall x :: x in d.requisitions ==> Get(x, "req_number") != Get(r, "req_number")
  {
    var stamp := DateStamp(now);
    var m := MaxSequence(d.requisitions, stamp) + 1;
    NewRequisitionServerFields(d.nextId, m, body, now);
    SequenceOfReqNumber(stamp, m);
    forall x | x in d.requisitions ensures Get(x, "req_number") != Str(ReqNumber(stamp, m)) {
      MaxSequenceBound(d.requisitions, stamp, x);
    }
  }

  /** The first requisition of a day is number 001, as written and
      corrected alike. */
  lemma FirstOfDay(d: Data, body: Record, now: string)
    requires forall r :: r in d.requisitions ==> !SameDay(r, DateStamp(now))
    ensures Get(CreateRequisition(d, body, now).1, "req_number") == Str("LL-" + DateStamp(now) + "-001")
    ensures CreateRequisitionAsWritten(d, body, now) == CreateRequisition(d, body, now)
  {
    var stamp := DateStamp(now);
    MaxSequenceNone(d.requisitions, stamp);
    DayCountNone(d.requisitions, stamp);
    NewRequisitionServerFields(d.nextId, 1, body, now);
    assert DecimalString(1) == "1";
    assert Suffix(1) == "001";
  }

  /** With no held number mentioning the day, the count is 0. */
  lemma {:induction false} DayCountNone(reqs: seq<Record>, stamp: string)
    requires forall r :: r in reqs ==> !SameDay(r, stamp)
    ensures DayCount(reqs, stamp) == 0
  {
    if reqs != [] {
      assert reqs[|reqs| - 1] in reqs;
      assert forall r :: r in reqs[..|reqs| - 1] ==> r in reqs;
      DayCountNone(reqs[..|reqs| - 1], stamp);
    }
  }

  /** The corrected numbering takes the next sequence number of the day, and
      the new requisition becomes the day's highest. */
  lemma CreateRequisitionNumbers(d: Data, body: Record, now: string)
    ensures var (d2, r) := CreateRequisition(d, body, now);
      var stamp := DateStamp(now);
      && Get(r, "req_number") == Str(ReqNumber(stamp, MaxSequence(d.requisitions, stamp) + 1))
      && MaxSequence(d2.requisitions, stamp) == MaxSequence(d.requisitions, stamp) + 1
  {
    var stamp := DateStamp(now);
    var m := MaxSequence(d.requisitions, stamp) + 1;
    var res := CreateRequisition(d, body, now);
    assert res == Issue(d, m, body, now);
    IssueAppends(d, m, body, now);
    NewRequisitionServerFields(d.nextId, m, body, now);
    MaxSequenceAppend(d.requisitions, res.1, stamp, m);
  }

  /** Two requisitions made one after the other on the same day get
      consecutive, and so different, numbers. */
  lemma SameDayConsecutive(d: Data, b1: Record, b2: Record, now1: string, now2: string)
    requires DateStamp(now1) == DateStamp(now2)
    ensures var (d1, r1) := CreateRequisition(d, b1, now1);
      var (d2, r2) := CreateRequisition(d1, b2, now2);
      var stamp := DateStamp(now1);
      && Get(r1, "req_number") == Str(ReqNumber(stamp, MaxSequence(d.requisitions, stamp) + 1))
      && Get(r2, "req_number") == Str(ReqNumber(stamp, MaxSequence(d.requisitions, stamp) + 2))
      && Get(r1, "req_number") != Get(r2, "req_number")
  {
    var stamp := DateStamp(now1);
    var m := MaxSequence(d.requisitions, stamp);
    var c1 := CreateRequisition(d, b1, now1);
    CreateRequisitionNumbers(d, b1, now1);
    CreateRequisitionNumbers(c1.0, b2, now2);
    ReqNumberParts(stamp, m + 1, m + 2);
  }

  /** The status patch answers 404 exactly when no requisition has the id;
      otherwise the first with the id takes the new status, and `issued_at`
      the time of the request when that status is the issued one and its old
      value otherwise; every other field and record stays. */
  lemma PatchRequisitionEffect(d: Data, id: int, status: Value, now: string)
    ensures PatchRequisition(d, id, status, now).None? <==> forall r :: r in d.requisitions ==> IdOf(r) != Num(id as real)
    ensures PatchRequisition(d, id, status, now).Some? ==>
      var (d2, r) := PatchRequisition(d, id, status, now).value;
      exists i :: 0 <= i < |d.requisitions|
        && IdOf(d.requisitions[i]) == Num(id as real)
        && (forall j :: 0 <= j < i ==> IdOf(d.requisitions[j]) != Num(id as real))
        && d2.requisitions == d.requisitions[i := r]
        && Get(r, "status") == status
        && Get(r, "issued_at") == (if status == Str(Issued) then Str(now) else Get(d.requisitions[i], "issued_at"))
        && (forall k :: k != "status" && k != "issued_at" ==> Get(r, k) == Get(d.requisitions[i], k))
        && d2.nextId == d.nextId && d2.problems == d.problems
        && d2.materialPrices == d.materialPrices && (forall t :: d2.Get(t) == d.Get(t))
  {
    FindById(d.requisitions, id);
    var f := Find(d.requisitions, IdPattern(id));
    if f.Some? {
      SetStatusFields(d.requisitions[f.value], status, now);
    }
  }

  /** The status patch sets the status, stamps `issued_at` for the issued
      status only, and keeps every other field. */
  lemma SetStatusFields(r: Record, status: Value, now: string)
    ensures var r2 := SetStatus(r, status, now);
      && Get(r2, "status") == status
      && Get(r2, "issued_at") == (if status == Str(Issued) then Str(now) else Get(r, "issued_at"))
      && (forall k :: k != "status" && k != "issued_at" ==> Get(r2, k) == Get(r, k))
  {
  }

  /** The status patch keeps ids global and distinct. */
  lemma PatchRequisitionKeepsValid(d: Data, id: int, status: Value, now: string)
    requires Valid(d) && PatchRequisition(d, id, status, now).Some?
    ensures Valid(PatchRequisition(d, id, status, now).value.0)
  {
    var i := Find(d.requisitions, IdPattern(id)).value;
    var r := SetStatus(d.requisitions[i], status, now);
    assert IdOf(r) == IdOf(d.requisitions[i]);
    IdsUpdate(d.requisitions, i, r);
    assert SideRows(d, Requisitions) == d.requisitions;
    SideShrinkKeepsValid(d, Requisitions, d.requisitions[i := r]);
  }

  /** Deleting leaves exactly the requisitions with another id, and changes
      nothing when no requisition has the id. */
  lemma DeleteRequisitionEffect(d: Data, id: int)
    ensures var d2 := DeleteRequisition(d, id);
      && (forall r :: r in d2.requisitions <==> r in d.requisitions && IdOf(r) != Num(id as real))
      && d2.nextId == d.nextId && d2.problems == d.problems
      && d2.materialPrices == d.materialPrices && (forall t :: d2.Get(t) == d.Get(t))
      && ((forall r :: r in d.requisitions ==> IdOf(r) != Num(id as real)) ==> d2 == d)
  {
    forall r ensures Matches(r, IdPattern(id)) <==> IdOf(r) == Num(id as real) {
      MatchesOne(r, "id", Num(id as real));
    }
    if forall r :: r in d.requisitions ==> IdOf(r) != Num(id as real) {
      RejectNone(d.requisitions, IdPattern(id));
    }
  }

  /** Deleting keeps ids global and distinct. */
  lemma DeleteRequisitionKeepsValid(d: Data, id: int)
    requires Valid(d)
    ensures Valid(DeleteRequisition(d, id))
  {
    IdsReject(d.requisitions, IdPattern(id));
    assert SideRows(d, Requisitions) == d.requisitions;
    SideShrinkKeepsValid(d, Requisitions, Reject(d.requisitions, IdPattern(id)));
  }

  /** The list holds exactly the requisitions of the queried order, or all of
      them when no order is asked for. */
  lemma ListRequisitionsSelects(d: Data, orderIdQ: string)
    ensures var res := ListRequisitions(d, orderIdQ);
      && |res| <= |d.requisitions|
      && (forall r :: r in res <==> r in d.requisitions && (orderIdQ == "" || ForOrder(r, orderIdQ)))
      && (orderIdQ == "" ==> multiset(res) == multiset(d.requisitions))
  {
    var sel := if orderIdQ == "" then d.requisitions else ByOrderId(d.requisitions, orderIdQ);
    var res := ListRequisitions(d, orderIdQ);
    ByOrderIdSelects(d.requisitions, orderIdQ);
    forall r ensures r in res <==> r in sel {
      assert r in res <==> r in multiset(res);
    }
  }

  /** Under the invariant the list is newest first: ids strictly decrease. */
  lemma ListRequisitionsNewestFirst(d: Data, orderIdQ: string)
    requires IdsBelow(d) && IdsDistinct(d)
    ensures NewestFirst(ListRequisitions(d, orderIdQ))
  {
    var sel := if orderIdQ == "" then d.requisitions else ByOrderId(d.requisitions, orderIdQ);
    SideTableIds(d, Requisitions);
    ByOrderIdSelects(d.requisitions, orderIdQ);
    assert Ids(sel) <= Ids(d.requisitions);
    forall r | r in sel ensures IdOf(r).Num? {
      IdIn(sel, r);
    }
    SortedNewestFirst(sel);
  }
}
