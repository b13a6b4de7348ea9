# Sweepstake odds calculator — Dafny model

This project models the computation inside the `/api/calculate` handler of a
small proxy for a sweepstake platform, plus the `/api/competitions` lister.
Given a competition id and a number of entries you already hold, the handler
pages through the competition's participants and sums the entries they hold.
It then reads the competition's entry packages, projects them to
`{entries, price}` and sorts them by ascending price. Finally it reports
the current odds and one row per package. Each row gives the probability you
would have after buying that package, its "1 in N" figure, and the expected
cost of a win at that price.

The HTTP layer is replaced by inputs and a request log:

- the participant endpoint's answers are a sequence of `Result`s, where
  index k is the answer for page k + 1;
- the competition record is a `Result`;
- a thrown request error is a `Failure(message)`;
- `Calculate` returns the list of upstream requests it made, so the order
  of the page requests and the absence of requests are part of its contract.

Layout, one module per part of the handler:

- `wrappers.dfy`: `Option` and `Result`.
- `coercion.dfy`: `Number(x)` as `JsNumber` (finite or NaN), `Number(x) || 0` and truthiness.
- `participants.dfy`: the pagination loop (`SumParticipants`, a method with loop invariants) and the functions that specify it.
- `packages.dfy`: projection and the stable sort by price.
- `odds.dfy`: shares, `Math.round`, one-in figures, costs and rows, all exact `real` arithmetic; `Infinity` is `Extended.Unbounded`.
- `handlers.dfy`: the two endpoints.

The handler reports no prize fields: only the competition id, the entry
counts, the current odds and the package rows. It rounds the one-in figure
with `Math.round`, so a package of 50 entries at price 10, with 90 entries
held by others and 10 by you, gives one-in 3 and cost 30
(`Odds.ExampleFigures`).

## Model

| member | source | states |
|---|---|---|
| `Handlers.Calculate` | server.js:30-104 | A missing or empty compid gives a 400 "Missing compid parameter" and no upstream request. Otherwise pages 1..n are requested in order, where n is `PagesRequested`. The competition record is requested only if every page request succeeded. Any upstream error gives a 500 with its message and no figures. On success the body is the summary of the crawl total, your entries and the sorted packages. |
| `Handlers.ErrorMessage` | server.js:102 | The error body is never empty: it is the thrown message when that is non-empty, and "Failed to fetch data" when it is empty. |
| `Handlers.ListCompetitions` | server.js:13-27 | On success, one `{id, name}` per upstream record, in upstream order. On failure, a 500 with "Failed to fetch competitions". |
| `Participants.SumParticipants` | server.js:42-58 | The loop makes exactly `PagesRequested` page requests and yields `CrawlResult`: the first thrown error, or the sum of coerced entry counts over exactly the requested pages. |
| `Participants.StopFrom` | server.js:46-57 | If the search resumes at page k+1, the stop lies after page k and within the pages the upstream serves. |
| `Participants.PagesRequestedSpec` | server.js:42-58 | At least page 1 is requested. Every page before the last one was delivered. Each requested page p was within the page count known after page p-1. The loop stops at the first failure or the first page beyond the current count. |
| `Participants.PagesRequestedUnique` | server.js:46-57 | Those conditions fix the number of pages requested: any count that meets them equals `PagesRequested`. |
| `Participants.BoundWithin` | server.js:44-56 | The loop bound starts at 1 and only takes reported counts, so it never exceeds the pages the upstream serves. |
| `Participants.SinglePageWithoutCount` | server.js:44-56 | If page 1 reports no truthy page count, only page 1 is requested and the total is the sum over its items. |
| `Participants.NonNumericCountAddsNothing` | server.js:53 | A participant whose entry count is not a number adds nothing to the total. |
| `Participants.EmptyPageAddsNothing` | server.js:51-55 | A page with missing or empty `items` adds nothing to the total. |
| `Participants.ItemsTotalAppend` | server.js:52-54 | The sum over items splits over concatenation. |
| `Packages.SortByPrice` | server.js:69 | The result is sorted non-decreasing by price. It is a permutation of the input. For every price, the packages of that price keep their input order (stability). |
| `Packages.StableSortUnique` | server.js:69 | Two price-sorted lists with the same per-price subsequences are equal. So every stable sort with the comparator `a.price - b.price` gives the model's result. |
| `Packages.NonNumericPriceSortsFirst` | server.js:64-69 | A package whose price is not a number is listed with price 0 and its coerced entry count, ahead of every package with a positive price. |
| `Packages.SortedPackagesSpec` | server.js:64-69 | The package list has one entry per upstream package. It is a sorted, stable permutation of the coerced packages. |
| `Packages.InsertPermutes` | server.js:69 | Inserting a package adds exactly that package to the multiset. |
| `Packages.InsertSorted` | server.js:69 | Inserting into a sorted list keeps it sorted. |
| `Packages.InsertWithPrice` | server.js:69 | Insertion puts the package first among those of its price and leaves the other prices' subsequences unchanged. |
| `Odds.Round` | server.js:79 | `Math.round(x)` is the integer n with n - 1/2 <= x < n + 1/2 (ties round up). |
| `Odds.ShareIsProbability` | server.js:73-78 | For 0 <= part <= whole, the share is in [0, 1] and is 0 exactly when the part is 0. |
| `Odds.OneInSpec` | server.js:79 | The one-in figure is `Infinity` exactly when prob <= 0. Otherwise it is the integer within 1/2 of 1/prob, and it is at least 1 when prob <= 1. |
| `Odds.CostSpec` | server.js:78-80 | The cost of a win is `Infinity` exactly when the probability is not positive. For a positive probability and a non-negative price it is finite and within half a price of price / probability, the expected cost of one top-prize win. |
| `Odds.RowSpec` | server.js:75-89 | With non-negative counts, a row copies its package's entries and price and its probability is in [0, 1]. One-in and cost are `Infinity` exactly when you would hold no entries. Otherwise one-in is at least 1 and cost is one-in times price. |
| `Odds.ProbabilityMonotone` | server.js:76-78 | With non-negative counts, a package with more entries never gives a lower probability. |
| `Odds.SummarySpec` | server.js:71-98 | overallEntries is others + yours. currentOdds is 0 when overallEntries <= 0, otherwise your share of overallEntries, and it is in [0, 1] for non-negative counts. There is one row per package, in package order. |
| `Odds.RowsSortedByPrice` | server.js:75-89 | Sorted packages give rows sorted by price. |
| `Odds.ExampleFigures` | server.js:71-89 | 90 others and 10 yours give overallEntries 100 and currentOdds 0.1. A 50-entry package at price 10 gives probability 0.4, one-in 3 and cost 30. |

## Left out

- Express setup, static file serving, `app.listen` and console logging (server.js:1-10, 24, 101, 106-108) are framework plumbing.
- The axios requests, their URLs and the `Origin` header are replaced by the inputs and the `Call` log. A participant page body that is `null` throws when its `pageCount` is read (server.js:56), so it is represented as a `Failure` response. A `null` competition body does not throw (server.js:64 reads it with `?.` and `|| []`): it is `Success(CompetitionData([]))` and gives a reply with no package rows.
- IEEE-754 doubles are not modelled. All figures are exact `real`s, with no rounding error and no overflow to `Infinity`. NaN is modelled only where `|| 0` removes it. `Number(x)` of an upstream or query field is given as a `JsNumber` (a finite value or NaN), and string parsing is not modelled.
- `Participants.SumParticipants`: requires `PageCountsWithin`: the upstream serves page 1, and no page count it reports exceeds the number of pages it serves. Without such a bound the source loop can run forever if the upstream keeps raising `pageCount`.
- A `pageCount` that is not a number is not modelled. A non-numeric string, for example, is truthy, so server.js:56 takes it as the bound and `page <= "abc"` then ends the loop; the model's NaN would instead keep the old bound.
- A `compid` or `entries` query value given as an array (a repeated parameter) is not modelled. Items that are `null` are not modelled either; reading their `entryCount` would throw.
- The `/api/competitions` records are modelled with only the `id` and `name` they are projected to, both as strings; the other upstream fields are never read.
- `Odds.RowSpec`, `Odds.SummarySpec`, `Odds.ProbabilityMonotone`: the bounds to [0, 1] are proved only for non-negative counts. The source does not check signs, so a negative `entries` value or entry count can give a probability outside [0, 1].
