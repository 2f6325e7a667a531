# Production-order document store

This project models the in-memory document store behind the production-order server in `server.js`. Every request loads one JSON document, reads or changes it, and writes it back. The model is that document and the request handlers that act on it, without the file and HTTP layers. The document holds:

- three pairs of order and item tables, one pair per department: injection moulding (`injection`), slush moulding (`slush`) and spraying (`spray`);
- the problem reports, the material price list and the material requisitions;
- one `nextId` counter. Orders, items, problems and requisitions all draw their ids from it.

The model has these layers:

- `json.dfy`: the JavaScript values stored in the free-form records. It also has the coercions the handlers use: truthiness, `||`, unary `+`, `String`, `padStart`, `toLowerCase`, `startsWith`, `includes`, `slice` and `replace`.
- `records.dfy`: `filter`, `find` and `findIndex` with a strict-equality test, and the multiset of ids a table holds.
- `sorting.dfy`: `sort` with a numeric-difference comparator, used for newest-first lists and for item positions.
- `store.dfy`: the document (`Data`) and its invariant. Every id in every id-bearing table is a number below `nextId` and occurs only once. Every item belongs to an order of its own department.
- `orders.dfy`, `problems.dfy`, `requisitions.dfy` and `reports.dfy`: each handler as a function from the document before the request to the document after it, or to its answer. Each has lemmas stating what the handler promises.
- `server.dfy`: the class `Server.Doc`. It has one `seq` field per table and a `nextId` field. Each handler that writes is a method that changes those fields in place. Each method is proved to leave the document as the handler's function describes. Each method also keeps the invariant when the request carries no `id` key of its own. The loops of the material summary are methods proved against their functions.

Sources of input become parameters:

- the clock (`new Date().toISOString()`) becomes the `now` string;
- route parameters become the integer they denote;
- query strings and request bodies become plain values and records.

The requisition numbering follows the code, not the prose description of the system. The code pads the day's sequence number to at least three digits, so a day's 1000th requisition gets a four-digit suffix (`Requisitions.SuffixRoundTrip`). The material summary is listed in insertion order; the Left out section explains why that can differ from the code.

## Model

| member | source | states |
|---|---|---|
| Json.DecimalString | server.js:309 | `String(n)` is a non-empty string of decimal digits, one digit exactly below 10, with no leading zero |
| Json.DecimalRoundTrip | server.js:309 | reading the decimal spelling of `n` back gives `n` |
| Json.PadStart | server.js:309 | `padStart` gives the longer of the width and the input, ends with the input, and is padded in front with the pad character only |
| Json.LeadingZeros | server.js:309 | zeros put in front of a digit string keep it a digit string with the same value |
| Json.ToLower | server.js:241-246 | lower-casing keeps the length of the string |
| Json.Prefix | server.js:307 | `slice(0, k)` is the prefix of the string that is `k` long, or the whole string when it is shorter |
| Json.RemoveAll | server.js:307 | removing every dash leaves no dash and never lengthens the string |
| Json.RemoveAllConcat | server.js:307 | removing a character from two joined strings removes it from each in turn and keeps the rest in order |
| Json.RemoveAllAbsent | server.js:307 | a string without the character is left unchanged, and the character alone is removed entirely |
| Records.Select | server.js:176-177 | `filter` keeps exactly the records that match, and never more than it was given |
| Records.Reject | server.js:104-105 | the negated `filter` keeps exactly the records that do not match |
| Records.Find | server.js:89-90 | `findIndex` gives the first matching index, and -1 (None) exactly when nothing matches |
| Records.FindById | server.js:66 | looking up a route id finds the first record with that numeric id, and nothing exactly when no record has it |
| Records.IdsReject | server.js:104-105 | a filter never adds ids to a table |
| Records.IdsSelect | server.js:176-177 | a filter never adds ids to a table |
| Records.SelectAfterReject | server.js:93 | removing one order's items leaves the items of every other order exactly as they were, in order |
| Records.LookupAfterReject | server.js:104 | removing the orders with one id leaves `find` on any other id answering as before |
| Records.ByOrderIdSelects | server.js:299 | the `order_id` query filter keeps exactly the records whose `order_id` is the number queried, and adds no ids |
| Sorting.Insert | server.js:55 | inserting one record into the sorted part keeps every record, adding exactly the new one |
| Sorting.SortBy | server.js:55 | sorting is a permutation of the table |
| Sorting.SortByOrders | server.js:59 | with numeric keys, no record of the sorted table comes after one the comparator puts it before |
| Sorting.SortByOrdered | server.js:59 | sorting an already ordered table leaves it unchanged, so the sort is idempotent |
| Sorting.InsertOrdered | server.js:55 | inserting into an ordered table keeps it ordered |
| Sorting.IdsSortBy | server.js:55 | sorting keeps the multiset of ids |
| Sorting.StrictlyNewestFirst | server.js:55 | a table sorted by descending id whose ids are distinct numbers has strictly decreasing ids |
| Sorting.SortedNewestFirst | server.js:55 | sorting newest first a table of distinct numeric ids gives strictly decreasing ids |
| Sorting.NewestHeads | server.js:178 | in a newest-first list, the record with the largest id comes first |
| Store.PricesKeepValid | server.js:214-221 | replacing the price list keeps the id invariant, since prices carry no ids |
| Store.SideAppendKeepsValid | server.js:186-193 | appending a problem or requisition that takes `nextId`, then advancing the counter, keeps the invariant |
| Store.SideShrinkKeepsValid | server.js:342 | replacing the problems or requisitions by a table holding only some of their ids keeps the invariant |
| Store.SameIdsKeepValid | server.js:112 | changing records of one department without changing its ids or item owners keeps the invariant |
| Store.Minted | server.js:80 | the ids drawn in one run of `nextId++` are distinct, `n` of them, all in `[first, first + n)` |
| Store.MintingRunKeepsIds | server.js:75-81 | adding an order id and then `n` item ids, all drawn from the counter, keeps all ids distinct and below the new counter |
| Store.MintingKeepsIds | server.js:93-96 | keeping part of the old ids and adding distinct ids drawn between the old and new counter keeps all ids distinct and below it |
| Store.OrderTableIds | server.js:75 | under the invariant, a department's order ids are numbers below `nextId`, each held once |
| Store.SideTableIds | server.js:186 | under the invariant, every problem and requisition has a numeric id below `nextId`, held once |
| Store.OwnedWith | server.js:80 | replacing a department's tables by ones whose items all have an owning order keeps every item owned |
| Orders.NewItems | server.js:79-81 | the items pushed by the `forEach` are as many as the input items |
| Orders.NewItemFields | server.js:80 | a new item takes the assigned id, owner and position unless the caller's item supplies that key, and keeps every caller field |
| Orders.NewItemsIds | server.js:80 | without caller `id` keys, the new items carry exactly the next ids drawn from the counter |
| Orders.NewItemsOwned | server.js:80 | every new item belongs to the order it was made for and to no other |
| Orders.NewItemsOrdered | server.js:80 | the new items are already in `sort_order` |
| Orders.NewItemsAssign | server.js:79-81 | item k takes id `first + k`, the order's id as `order_id`, `sort_order` k, and keeps its own fields |
| Orders.CreateOrderAssigns | server.js:72-77 | the new order goes last, takes the old `nextId`, gets its header status or pending by default and the time as `created_at`; the counter grows by 1 + the number of items |
| Orders.CreateOrderAssignsItems | server.js:78-82 | the item table is the old items followed by one new item per input item, in input order |
| Orders.CreateOrderTables | server.js:72-85 | createOrder changes only its department's tables, appending the order and its items, and adds exactly their ids |
| Orders.CreateOrderReadBack | server.js:84 | `getOrderById` on the new id answers the new order with exactly the input items, in input order |
| Orders.CreateOrderFindsOrder | server.js:66 | under no prior holder of the next id, `find` on it answers the new order |
| Orders.CreateOrderFindsItems | server.js:68 | the items read back for the new order are exactly the new items |
| Orders.IdFromOwner | server.js:80 | under the invariant, every item's `order_id` is a number below `nextId` |
| Orders.CreateOrderIds | server.js:75-80 | createOrder adds exactly the order's id and the items' ids, all freshly drawn |
| Orders.CreateOrderOwners | server.js:76-80 | after createOrder every item still belongs to an order of its department |
| Orders.CreateOrderKeepsValid | server.js:72-85 | createOrder keeps every id distinct and below `nextId`, and every item owned |
| Orders.CreateOrderFreshIds | server.js:75-80 | the ids createOrder draws are fresh and below the new counter |
| Orders.UpdateOrderShape | server.js:87-100 | with the id present, the header merge and the optional item replacement give exactly this document |
| Orders.UpdateOrderMergesHeader | server.js:89-91 | null exactly when no order has the id; otherwise the first such order gets a shallow merge, with header fields overriding, missing fields kept and `updated_at` restamped, and no other order changes |
| Orders.UpdateOrderKeepsItems | server.js:92 | without an items array the item table and the counter stay as they were |
| Orders.ReplaceItemsEffect | server.js:93-96 | after replacement the order's items are exactly the new ones, in input order, and every other order's items are unchanged |
| Orders.UpdateOrderReplacesItems | server.js:92-99 | with an items array, the order reads back with exactly the new items, which carry fresh ids from the old counter; other orders' items are unchanged and the counter grows by their number |
| Orders.ReplacedKeepsValid | server.js:91-96 | merging the header and replacing the items keeps the invariant |
| Orders.UpdateOrderKeepsValid | server.js:87-100 | updateOrder keeps every id distinct and below `nextId`, and every item owned |
| Orders.DeleteOrderRemoves | server.js:102-107 | after a delete the id reads back as not found and none of its items remain; every other id reads back as before; other departments and the counter are unchanged |
| Orders.DeleteAbsentIsNoop | server.js:102-107 | with every item owned, deleting an id no order has leaves the document unchanged |
| Orders.DeleteOrderKeepsValid | server.js:102-107 | deleteOrder keeps the invariant, so no item is left without its order |
| Orders.UpdateStatusEffect | server.js:109-113 | the first order with the id gets the new status and `updated_at` and keeps every other field; nothing else changes, and nothing at all without such an order |
| Orders.UpdateStatusKeepsValid | server.js:109-113 | updateStatus keeps the invariant |
| Orders.PatchItem | server.js:160-164 | one update keeps the number of items |
| Orders.PatchItemEffect | server.js:159-165 | one update merges its fields, minus `id`, `order_id` and `sort_order`, into the first item with its id and the route's order id; every other item stays, and an unmatched update changes nothing |
| Orders.PatchItemsKeepServerFields | server.js:159-165 | the item patch never changes an item's id, owner or position, nor the number of items |
| Orders.PatchOnlyOwnItems | server.js:159-165 | a patch addressed to one order never touches another order's items |
| Orders.PatchKeepsValid | server.js:154-169 | the item patch keeps the invariant |
| Orders.ItemsOfSpec | server.js:59 | the items attached to an order are exactly the stored items it owns, each as often as stored, in `sort_order` when those are numbers |
| Orders.ItemsOfMembers | server.js:68 | a record is among an order's items exactly when it is stored and owned by that order |
| Orders.GetOrderByIdSpec | server.js:64-70 | not found exactly when no order has the id; otherwise the first order with the id, with its items |
| Orders.GetOrdersLists | server.js:53-61 | the list holds every order once, each with its own items |
| Orders.GetOrdersNewestFirst | server.js:55 | under the invariant the order list has strictly decreasing ids |
| Orders.ListedNewestFirst | server.js:55 | an order table of distinct numeric ids is listed with strictly decreasing ids |
| Problems.CreateProblemEffect | server.js:181-196 | a new problem takes the next id, copies the four text fields, stores the order id as a number or null, starts open and unresolved, and is appended; nothing else changes |
| Problems.NewProblemId | server.js:186 | the new problem's id is the drawn id |
| Problems.CreateProblemKeepsValid | server.js:181-196 | reporting a problem keeps the invariant |
| Problems.ResolveProblemEffect | server.js:198-206 | 404 exactly when no problem has the id; otherwise the first such problem is marked resolved at `now` and keeps every other field, and nothing else changes |
| Problems.ResolveAgain | server.js:198-206 | resolving an already resolved problem again only moves its resolution time |
| Problems.ResolveProblemKeepsValid | server.js:198-206 | resolving keeps the invariant |
| Problems.ListProblemsSelects | server.js:173-179 | the list holds exactly the problems of the queried type and order id, no more than are stored, and all of them when nothing is asked |
| Problems.ListProblemsNewestFirst | server.js:178 | under the invariant the problem list has strictly decreasing ids |
| Problems.ReportedProblemListedFirst | server.js:177-193 | a problem just reported against an order heads that order's problem list |
| Requisitions.DateStampDigits | server.js:307 | for a `YYYY-MM-DD…` clock string the stamp is exactly the eight characters `YYYYMMDD` |
| Requisitions.DayCount | server.js:308 | the day's count never exceeds the number of requisitions |
| Requisitions.DecimalLength | server.js:309 | numbers below 1000 have at most three digits, and from 100 on at least three |
| Requisitions.SuffixRoundTrip | server.js:309 | the sequence part is digits that read back as the count, at least three long and exactly three below 1000 |
| Requisitions.ReqNumberParts | server.js:312 | a requisition number starts with `LL-`, contains its date stamp, and distinct sequence numbers of one day give distinct numbers |
| Requisitions.NumberMentionsDay | server.js:308 | a requisition numbered for a day is counted for that day |
| Requisitions.DayCountAppend | server.js:308 | appending a requisition raises the day's count by one exactly when its number mentions the day |
| Requisitions.NewRequisitionServerFields | server.js:311-322 | a new requisition has the drawn id, the `LL-` number, status awaiting issue, no issue time and the creation time |
| Requisitions.NewRequisitionTextFields | server.js:315-319 | order number, material, applicant and notes are the body's values, or empty when falsy |
| Requisitions.NewRequisitionBodyFields | server.js:313-317 | the date defaults to the request's day; the requested weight is always a number; the order is a number or null, null when none is given |
| Requisitions.IssueAppends | server.js:310-324 | a new requisition takes the next id and is appended; nothing else changes |
| Requisitions.IssueKeepsValid | server.js:310-324 | making a requisition keeps the invariant |
| Requisitions.AsWrittenCounts | server.js:307-312 | as written, the number is the day's count plus one, and the new requisition raises the day's count by one |
| Requisitions.DeleteReusesNumber | server.js:303-345 | as written, after two same-day requisitions and the deletion of the first, the next one that day repeats the number of the second, which is still held |
| Requisitions.CreateIsIssue | server.js:303-328 | the corrected creation issues the number one past the day's largest held sequence |
| Requisitions.SequenceOfReqNumber | server.js:312 | a requisition number reads back as its sequence number |
| Requisitions.MaxSequenceBound | server.js:308 | no held requisition of the day carries a sequence above the maximum |
| Requisitions.CreateRequisitionFresh | server.js:307-312 | the corrected numbering never repeats the number of a held requisition |
| Requisitions.CreateRequisitionNumbers | server.js:307-312 | the corrected number is the day's next sequence, and the new requisition becomes the day's highest |
| Requisitions.FirstOfDay | server.js:307-312 | the first requisition of a day is number 001, as written and corrected alike |
| Requisitions.SameDayConsecutive | server.js:307-312 | two requisitions made one after the other on one day get consecutive, different numbers |
| Requisitions.PatchRequisitionEffect | server.js:330-338 | 404 exactly when no requisition has the id; otherwise the first such one takes the status, and `issued_at` is the request time for the issued status and unchanged otherwise; every other field and record stays |
| Requisitions.SetStatusFields | server.js:334-335 | the status patch sets the status, stamps `issued_at` for the issued status only, and keeps every other field |
| Requisitions.PatchRequisitionKeepsValid | server.js:330-338 | the status patch keeps the invariant |
| Requisitions.DeleteRequisitionEffect | server.js:340-345 | exactly the requisitions with another id remain, nothing else changes, and an absent id changes nothing |
| Requisitions.DeleteRequisitionKeepsValid | server.js:340-345 | deleting keeps the invariant |
| Requisitions.ListRequisitionsSelects | server.js:296-301 | the list holds exactly the requisitions of the queried order, or all of them when no order is asked for |
| Requisitions.ListRequisitionsNewestFirst | server.js:300 | under the invariant the requisition list has strictly decreasing ids |
| Reports.CountsCover | server.js:350-356 | the three status counts never exceed the total, and add up to it exactly when every order is in one of the three states |
| Reports.CountsConcat | server.js:350 | status counts over two tables add up |
| Reports.CreateOrderCounts | server.js:348-358 | createOrder adds one to its department's total, and one to its pending count exactly when the order arrives pending or without a status; other departments' counts stay |
| Reports.InMonth | server.js:274 | the month filter keeps exactly the orders dated in the month |
| Reports.PairsSpec | server.js:277-279 | the cost list visits each order exactly with the items that belong to it |
| Reports.InjectionCostsSpec | server.js:270-293 | every line comes from an order of the month and one of its items, and every such pair gives a line |
| Reports.InMonthConcat | server.js:274 | the month filter keeps the list order and each listed order as often as it is listed: two runs are filtered one after the other, and one order stays exactly when it is dated in the month |
| Reports.PairsSnoc | server.js:277-279 | appending an order appends its pairs after those of the earlier orders |
| Reports.PairsConcat | server.js:277-279 | the pairs of two runs of orders are those of the first run followed by those of the second |
| Reports.PairsOne | server.js:277-279 | one order is paired with each of its items in turn, as many pairs as it has items |
| Reports.CostRowsConcat | server.js:277-291 | the lines of two runs of orders are the lines of the first run followed by those of the second |
| Reports.CostRowsOne | server.js:277-291 | one order gives one line per item it owns, in `sort_order`, each built from the order and that item |
| Reports.ItemsOfCount | server.js:278 | an order has as many attached items as stored items it owns |
| Reports.CostRowsCount | server.js:277-291 | the cost list has one line per stored item of each listed order, counted as often as the order is listed |
| Reports.InjectionCostsCount | server.js:270-293 | the handler answers one line per stored item of each order of the month, or of each order when no month is given |
| Reports.InjectionCostsInMonth | server.js:274-283 | given a month, every line's date is a string in that month |
| Reports.Put | server.js:231 | `stats[k] = s` puts the entry under its material; a new key goes last, an existing one keeps its place |
| Reports.Seed | server.js:230-235 | the price pass gives a well-formed table: each key once, each entry under its own material |
| Reports.SeedKeys | server.js:230-235 | the price pass gives one entry per priced material, with zero totals |
| Reports.SeedLast | server.js:230-235 | each material's entry comes from the last price for it |
| Reports.SeedNumbered | server.js:230-235 | with each material priced once, the lines follow the price list and are numbered from 1 |
| Reports.AddItem | server.js:254-265 | one item keeps the table well-formed |
| Reports.AddItemKeys | server.js:255-262 | one item adds a line for its material exactly when it is counted and new, priced 0 with empty notes |
| Reports.AddItemNumbered | server.js:259 | a line made for a new material takes the next number |
| Reports.Accumulate | server.js:254-265 | the item pass keeps the table well-formed |
| Reports.AccumulateKeys | server.js:254-265 | the item pass keeps every line in place with its heading, adds one line per newly counted material, and keeps the numbering |
| Reports.AccumulateTotals | server.js:263-264 | every line ends holding its starting totals plus the reference totals of its material over the counted items |
| Reports.TotalNone | server.js:255-256 | skipped items, without a material or of a filtered-out order, add nothing |
| Reports.ValuesSpec | server.js:266 | the answer has one line per key, each entry once, materials distinct |
| Reports.MaterialStatsLines | server.js:224-267 | the summary has one line per priced or counted material, each material once |
| Reports.MaterialStatsTotals | server.js:254-266 | each line's weight and amount are the reference totals of its material over the counted items |
| Reports.MaterialStatsHeadings | server.js:230-261 | a priced material keeps the position, price and notes of its last price; any other is priced 0 with empty notes |
| Reports.MaterialStatsNumbered | server.js:230-266 | with each material priced once, the summary starts with the price list's materials in order and numbers its lines from 1 |
| Server.Doc.constructor | server.js:34-44 | `initData` gives empty tables, the given price list and `nextId` 1, which satisfies the invariant |
| Server.Doc.NumberItems | server.js:79-81 | the `forEach` numbers the items from the counter and advances it by their number, changing nothing else |
| Server.Doc.CreateOrder | server.js:72-85 | the document becomes createOrder's result and the answer is the new order read back; the invariant is kept |
| Server.Doc.UpdateOrder | server.js:87-100 | null and no change for an absent id; otherwise the document becomes updateOrder's result and the answer is the order read back; the invariant is kept |
| Server.Doc.ReplaceItems | server.js:93-96 | the order's items are dropped and the new ones numbered and pushed |
| Server.Doc.DeleteOrder | server.js:102-107 | the document becomes deleteOrder's result; the invariant is kept |
| Server.Doc.UpdateStatus | server.js:109-113 | the document becomes updateStatus's result; the invariant is kept |
| Server.Doc.PatchItems | server.js:154-169 | the updates are applied in turn as the item patch describes; the invariant is kept |
| Server.Doc.CreateProblem | server.js:181-196 | the document and the answer are those of problem creation; the invariant is kept |
| Server.Doc.ResolveProblem | server.js:198-206 | 404 and no change for an absent id; otherwise the document and answer of resolution; the invariant is kept |
| Server.Doc.ReplaceMaterialPrices | server.js:214-221 | the price list is replaced as sent and answered back; the invariant is kept |
| Server.Doc.LastSequence | server.js:307-312 | the corrected numbering's loop finds the largest sequence number of the day among held requisitions (line 308 counts them instead; see Findings) |
| Server.Doc.CreateRequisition | server.js:303-328 | the document and answer are those of the corrected creation; the invariant is kept |
| Server.Doc.CountDay | server.js:308 | the pass over held requisitions counts exactly those whose number mentions the day |
| Server.Doc.CreateRequisitionAsWritten | server.js:303-328 | the document and answer are those of the creation as written, numbered by the day's count; the invariant is kept |
| Server.Doc.Issue | server.js:310-326 | the requisition numbered as given takes the next id and is appended; the invariant is kept |
| Server.Doc.PatchRequisition | server.js:330-338 | 404 and no change for an absent id; otherwise the document and answer of the status patch; the invariant is kept |
| Server.Doc.DeleteRequisition | server.js:340-345 | the document becomes the deletion's result; the invariant is kept |
| Server.Doc.MaterialStats | server.js:224-267 | the three loops answer exactly the material summary |
| Server.Doc.PriceLines | server.js:230-235 | the price loop builds exactly the seeded table |
| Server.Doc.OrderIds | server.js:239-251 | the filter loop gives no filter without a month or search, and otherwise the ids of the passing injection orders |
| Server.Doc.AddItems | server.js:254-265 | the item loop builds exactly the accumulated table |
| Server.Doc.AddItem | server.js:255-264 | one pass of the loop leaves exactly the table the item makes: a new line for a counted new material, then its totals raised |
| Server.Doc.Lines | server.js:266 | the values loop answers the lines in key order |
| Server.EmptyValid | server.js:34-44 | the initial document satisfies the invariant |

## Left out

- Persistence is not modelled. That covers `loadData` and `saveData`, the temporary file and rename, the read of the default price file, and the fallback from a corrupt file to an empty document. The document is taken as already loaded, and the default price list is the constructor's parameter.
- The HTTP layer is not modelled: express routing, middleware, static files, status codes other than the 404 answers (modelled as `None`), and the `try`/`catch` that turns exceptions into 500. A request that would throw is outside the model. Examples are an `items` value that is not an array, and a `null` body field read as an object.
- The clock is the `now` parameter. The requisition date stamp is taken from its first ten characters.
- Concurrent requests are not modelled. Each handler's load, change and save is one atomic step, so the lost-update race between requests does not arise in the model.
- Startup is not modelled: `getLocalIP`, `listen` and the console output. `auto-sync.js` is not part of this model; it runs git and watches files.
- The `GET /api/material-prices` handler is not modelled. It only answers the stored list, or the default list, which is persistence.
- JavaScript numbers are exact reals. Floating-point rounding in the `+=` totals is not modelled.
- Reports.ValuesSpec: the answer is in insertion order. JavaScript lists integer-like keys first, so a material named by digits can come earlier in the real answer. Materials are kept as JSON values, not stringified keys, so `1` and `"1"` are two lines here but one in JavaScript.
- Json.StringToNumber: unary `+` is modelled on the empty string and on strings of decimal digits only. Whitespace, signs, fractions, exponents and hexadecimal read as NaN here, though JavaScript gives numbers for them.
- Json.ToLower: only ASCII letters are lowered, and the contract states only that the length is kept.
- Json.Text: a non-string truthy value, such as a numeric `date` or `order_number`, reads as the empty string, so the model skips that record in the filters. In JavaScript `.startsWith` (server.js:245, 274) and `.includes` (server.js:308) throw a TypeError on such a value, and the request fails with a 500. Only the concatenation at server.js:246 stringifies it.
- Reports.AddItem: a material named like a member of `Object.prototype` (`constructor`, `toString`, `__proto__`) gets a line of its own here. In JavaScript `stats[item.material]` at server.js:257 is already truthy for such a name, so no line is made and the totals are added to the inherited member.
- Route ids are integers. A route parameter that is a fraction or not a number matches nothing in the code, and is not a possible input here.
- Sorting.SortBy: the comparator's sort is modelled as a stable insertion sort. With non-numeric keys, JavaScript's order depends on the engine and is only a permutation. The model proves ordering only for numeric keys.
- Server.Doc.LastSequence: finds the day's largest held sequence, which the corrected numbering needs (see Findings); line 308 as written counts the day's requisitions instead, and that count is `Server.Doc.CountDay`.
- Server.Doc.CreateRequisition: issues requisition numbers with the corrected numbering (see Findings), one past the day's largest held sequence. The numbering as written is `Server.Doc.CreateRequisitionAsWritten`, whose counting loop `Server.Doc.CountDay` is proved equal to `Requisitions.DayCount`; its lemmas are stated on `Requisitions.CreateRequisitionAsWritten`.
- Problems.CreateProblemEffect: the `problems` table is always present. The `if (!data.problems)` initialisation is part of loading.

## Findings

| source | as written | input that shows it | evidently intended | confidence | as-written member | corrected member |
|---|---|---|---|---|---|---|
| server.js:307-312 | a new requisition's day sequence is the number of held requisitions whose number mentions the day, plus one | on one day create two requisitions (`LL-D-001`, `LL-D-002`), delete the first, then create a third that day: it is numbered `LL-D-002` again while the second still holds that number | the day's next number, one past the largest sequence still held that day, so no held number is issued twice | high, not executed | Requisitions.DeleteReusesNumber | Requisitions.CreateRequisitionFresh |
