# Billing report pipeline and API-key authorizer, in Dafny

This project models the two functions of a small AWS cost-reporting service.

**Billing handler** (`lambda_function.py`). It walks an object store whose keys are
laid out as `<root>/<month>/<report>/<file>.zip`. It picks the newest month prefix,
then the newest report prefix inside that month, then the newest `.zip` key inside
that report. "Newest" means lexicographically greatest. It then reads the archive's
CSV rows and adds up a chosen cost metric per row. It keeps a running total and a
total per usage day. It picks the "last complete day": the second-latest day when
there are two or more, the only day when there is one. Finally it may delete every
object under every report prefix of the month except the greatest one.

**Authorizer** (`authorizer_apikey.py`). It lets a request through only when its
`x-api-key` header is present, non-empty and equal to the configured key.

Modules, one per component:

- `LexOrder` (`lex_order.dfy`): Python's string order. It is proved a total order. It
  gives the greatest element of a set and `sorted(...)` of a set, and proves that
  sorted list is the only strictly ascending arrangement.
- `Text` (`text.dfy`): `split(c)[0]`, `split(c)[-1]`, `strip(c)` and `endswith`.
- `ObjectStore` (`object_store.dfy`): the store as a `Store` class holding a
  `map<string, Payload>`. It has the two listings the handler uses (keys under a
  prefix, and common prefixes up to the next `/`) and deletion by key.
- `Metric` (`metric.dfy`): the metric selector `get_metric_value`.
- `Aggregation` (`aggregation.dfy`): the row loop and the day selector.
- `Locate` (`locate.dfy`): the three-level "find latest" walk and its 404 errors.
- `Prune` (`prune.dfy`): the retention step. `PruneOldReports` re-lists and sorts the
  month's report prefixes. `DeleteReports` is the loop over all but the last of them.
  `DeleteAllUnder` is its inner loop, which deletes the keys under one prefix one by one.
- `BillingHandler` (`billing_handler.dfy`): the handler, from locating the archive to
  the response's figures.
- `Authorizer` (`authorizer.dfy`): the header check and the response builder.
- `Options` (`options.dfy`): `Option` and `Result`.

The handler's collaborators it cannot see are parameters:

- `parse`: the text-to-number conversion `float(...)`, as a partial function. `None`
  means the conversion raises.
- `readArchive`: unzipping an object body and reading the first CSV member's
  records. `None` means the archive cannot be opened or has no member.
- The configured API key of the authorizer.

Amounts are `real`.

## Model

| member | source | states |
|---|---|---|
| `LexOrder.LexLe` | lambda_function.py:63 | Python's `<=` on `str`: compare code points from the front; at the first difference the smaller character comes first, and a proper prefix comes before any longer string. |
| `LexOrder.LexLeReflexive` | lambda_function.py:63 | Every string is `<=` itself under Python's string order. |
| `LexOrder.LexLeAntisymmetric` | lambda_function.py:63 | Two strings each `<=` the other are equal. |
| `LexOrder.LexLeTransitive` | lambda_function.py:63 | The string order is transitive. |
| `LexOrder.LexLeTotal` | lambda_function.py:63 | Any two strings are comparable, so "greatest" and "sorted" are well defined. |
| `LexOrder.GreatestExists` | lambda_function.py:63 | Every non-empty set of strings has a member that no other member comes after. |
| `LexOrder.GreatestIsUnique` | lambda_function.py:63 | That greatest member is unique. |
| `LexOrder.Greatest` | lambda_function.py:63 | The result is a member of the set and every member is `<=` it. |
| `LexOrder.SortedList` | lambda_function.py:63 | `sorted(s)` has the same elements as `s`, one entry per element, in strictly ascending order. |
| `LexOrder.SortedListUnique` | lambda_function.py:63 | Any strictly ascending list with the elements of `s` is `sorted(s)`. |
| `LexOrder.LastOfSortedIsGreatest` | lambda_function.py:63 | `sorted(s)[-1]` is the greatest member of `s`. |
| `LexOrder.StrictlySortedAfter` | lambda_function.py:105-108 | In a sorted list, the elements after position `i` are exactly those strictly greater than the element at `i`. |
| `Text.BeforeFirst` | lambda_function.py:97 | `s.split(c)[0]` is a prefix of `s` with no `c`, followed in `s` by `c` unless it is all of `s`. |
| `Text.AfterLast` | lambda_function.py:71 | `s.split(c)[-1]` is a suffix of `s` with no `c`, preceded in `s` by `c` unless it is all of `s`. |
| `Text.AfterLastUnique` | lambda_function.py:71 | Any suffix with those properties is `s.split(c)[-1]`. |
| `Text.TrimStart` | lambda_function.py:71 | The leading-strip result is a suffix that does not start with `c`; only `c` was removed. |
| `Text.TrimEnd` | lambda_function.py:71 | The trailing-strip result is a prefix that does not end with `c`; only `c` was removed. |
| `Text.Strip` | lambda_function.py:71 | `s.strip(c)`: the leading and then the trailing run of `c` removed; the result is no longer than `s` and neither starts nor ends with `c`. |
| `Text.EndsWith` | lambda_function.py:75 | `s.endswith(t)`: `t` is no longer than `s` and equals the end of `s` of the same length. |
| `Text.LastSegment` | lambda_function.py:71 | `report_timestamp` contains no `/`. |
| `Text.LastSegmentOfChild` | lambda_function.py:71 | For a prefix `parent + seg + "/"`, where `parent` is empty or ends with `/` and `seg` is non-empty without `/`, the label is `seg`. |
| `ObjectStore.KeysUnder` | lambda_function.py:74 | The listing without a delimiter (also at line 120): every stored key that starts with the prefix. |
| `ObjectStore.ChildPrefix` | lambda_function.py:59 | A key's common prefix is the listed prefix, one `/`-free segment, then `/`, and it is a prefix of the key. |
| `ObjectStore.CommonPrefixes` | lambda_function.py:59 | The delimited listing (also at lines 66 and 117): for each stored key under `p` whose remainder holds `/`, `p` plus that remainder up to and including its first `/`. Every such prefix is one `/`-free segment and a `/` below `p`. The empty set stands for a response without `CommonPrefixes`. |
| `ObjectStore.CommonPrefixShape` | lambda_function.py:59-63 | Every listed common prefix lies one level below the listing prefix, and some stored key lies under it. |
| `ObjectStore.ChildPrefixOfKeyUnique` | lambda_function.py:117-122 | A key lies under at most one report prefix of a month, so deleting one report never touches another. |
| `ObjectStore.Store.DeleteObject` | lambda_function.py:122 | Deleting removes exactly that key from the store. |
| `Metric.FieldAmount` | lambda_function.py:24-34 | `float(row.get(f, 0) or 0)`: a missing or empty field gives 0, any other text goes to the number parser, whose failure is `None`. |
| `Metric.AmountOrZero` | lambda_function.py:37-38 | The `except` fallback: a failed conversion reads as 0, a successful one as its value. |
| `Metric.GetMetricValue` | lambda_function.py:21-38 | An unrecognised metric gives 0. Any parse failure gives 0. Otherwise the value is the metric's one field, or the product `UsageAmount × UnblendedRate` for `UnblendedRateCalc`. A missing or empty field reads as 0. |
| `Metric.MissingFieldGivesZero` | lambda_function.py:24-34 | For a recognised metric, a missing or empty column gives 0. For the rate product this holds when either column is missing or empty. |
| `Aggregation.DayKey` | lambda_function.py:95-97 | A row has a day exactly when its usage start is present and non-empty. The day is the usage start up to its first `T`. |
| `Aggregation.AddToDay` | lambda_function.py:95-98 | A row without a usage start leaves the totals as they are. Otherwise its value is added to its day's total, which starts at 0 when the day is new. |
| `Aggregation.DailyTotalsAreDaySums` | lambda_function.py:91-98 | The per-day totals have one key per day some row is booked on. Each total is the sum of the metric over the rows booked on that day. Rows without a start date appear under no day. |
| `Aggregation.AggregateStep` | lambda_function.py:92-98 | One more row adds its value to the total and to its own day only. |
| `Aggregation.AggregateRows` | lambda_function.py:88-98 | The loop's total is the sum over all rows. Its per-day totals are exactly the per-day sums above. |
| `Aggregation.SelectDay` | lambda_function.py:101-112 | No days gives `None` and 0. One day gives that day. Two or more days give a day after which exactly one other day comes, i.e. the second-latest. The spend is that day's total. |
| `Aggregation.SortedDaysFacts` | lambda_function.py:105-111 | In the sorted days, one day means the set is that day. With two or more, only the last day comes after the second-to-last. |
| `Aggregation.TwoDaysPickTheEarlier` | lambda_function.py:104-112 | With totals `{2025-09-01: 10, 2025-09-02: 5}` the chosen day is `2025-09-01` with spend 10. |
| `Locate.ErrorMessage` | lambda_function.py:61-77 | The three 404 texts, at lines 61, 68 and 77: "No monthly directories found", "No report subdirectories found" and "No CUR zip files found". |
| `Locate.ZipKeys` | lambda_function.py:75 | The keys under the report prefix that end with `.zip`. |
| `Locate.Latest` | lambda_function.py:60-63 | `sorted(listing)[-1]`, or `None` for an empty listing, which stands for the emptiness checks at lines 60, 67 and 76. A non-empty listing gives a member that every member is `<=`. |
| `Locate.LocateLatestReport` | lambda_function.py:58-79 | No month prefixes gives the first 404. An empty latest month gives the second. A latest report with no `.zip` key gives the third. On success each choice is the greatest of its listing, the archive key is stored, lies under the report prefix and ends with `.zip`, and the label has no `/`. |
| `Locate.LocatedPrefixesNest` | lambda_function.py:59-71 | The month prefix is one level below the root and the report prefix one level below the month. A non-empty report segment is the label. |
| `Locate.ThreeMonthsPickTheLast` | lambda_function.py:59-63 | Of month prefixes `A/`, `B/`, `C/`, the walk takes `C/`. |
| `Prune.WithoutOneMoreDir` | lambda_function.py:119-123 | Pruning one more prefix removes exactly the remaining keys under it. |
| `Prune.DeleteAllUnder` | lambda_function.py:120-122 | The inner loop leaves the store minus every key under the prefix. |
| `Prune.DeleteReports` | lambda_function.py:119-123 | The loop records every prefix it is given, in order. It leaves the store minus every key under one of them. |
| `Prune.PruneOldReports` | lambda_function.py:117-123 | The recorded prefixes are the sorted re-listing without its last element. The store afterwards is the old store minus every key under a recorded prefix. |
| `Prune.AllButLast` | lambda_function.py:119 | `xs[:-1]`: a prefix of `xs` one element shorter, and empty for an empty list. |
| `Prune.AllButLastOfSorted` | lambda_function.py:118-119 | `sorted(dirs)[:-1]` is ascending and holds exactly the prefixes that are not the greatest. |
| `Prune.PrunedPrefixes` | lambda_function.py:117-123 | `old_reports_deleted` is ascending and holds exactly the month's report prefixes other than the greatest. |
| `Prune.PruneEffect` | lambda_function.py:115-123 | Pruning only deletes. Objects outside the month stay, and so do objects under the greatest report prefix. Objects under every other report prefix of the month are gone. |
| `Prune.PruneEffectOn` | lambda_function.py:119-122 | The same three facts for any list holding exactly the non-greatest report prefixes. |
| `BillingHandler.LambdaHandler` | lambda_function.py:58-136 | A 404 with the source's message leaves the store unchanged, and so does an unreadable archive. Otherwise the response carries the total, the selected day and its spend, the metric, the archive key, the label and the pruned prefixes. The store loses exactly the objects under those prefixes. The processed report always survives, and with pruning off nothing is deleted and the list is empty. |
| `Authorizer.GenerateAuthResponse` | authorizer_apikey.py:30-40 | The response carries the decision as `isAuthorized` and the given principal. The decision defaults to allow, as `allow=True` does. |
| `Authorizer.ApiKey` | authorizer_apikey.py:16-17 | The `x-api-key` header: `None` when the event has no headers or the header is absent, otherwise its value. |
| `Authorizer.LambdaHandler` | authorizer_apikey.py:6-27 | A request is authorized exactly when the configured key is non-empty and the `x-api-key` header equals it. The principal is `AuthorizedUser` exactly when authorized, otherwise `Unauthorized`. |
| `Authorizer.EmptyConfiguredKeyAuthorizesNobody` | authorizer_apikey.py:16-25 | With an empty configured key no request is authorized, including one sending an empty key. |
| `Authorizer.MissingKeyIsDenied` | authorizer_apikey.py:16-21 | With no headers or no `x-api-key` header, the answer is deny as `Unauthorized`. |
| `Authorizer.NonEmptyKeyDecides` | authorizer_apikey.py:20-27 | A non-empty key is authorized exactly when it equals the configured key. |

## Left out

- Request parsing (lambda_function.py:45-56): reading `metric` from the event or from a JSON body. The handler takes the metric name as a parameter.
- The S3 client calls: bucket name, network failures, and pagination of `list_objects_v2` (which returns at most 1000 keys per call). Listings are modelled as complete sets computed from the store's map.
- Decompression and CSV parsing (lambda_function.py:82-86): `readArchive` stands for them. A failure is modelled as the `ArchiveFailure` response, which stands for the exception the source lets escape. The store is untouched then, since the exception comes before pruning.
- Floating point: amounts are exact reals. The `round(..., 2)` and `round(..., 3)` of the response (lambda_function.py:130-131) are not modelled.
- `float(...)`: its conversion of text to a number is a parameter. Only its failure, the `except` fallback to 0, is modelled.
- JSON serialisation of the response, its `message` text and its headers (lambda_function.py:127-142).
- Reading `VALID_API_KEY` from the environment (authorizer_apikey.py:4). It is a parameter. The `"context"` nesting of the authorizer's response is flattened to one `principalId` field.
- Concurrent invocations racing on the store. Each handler run is modelled as one sequential step on one store.
