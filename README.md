# Workbook exporter: histogram builder and scrape collector

This project models the core of a Prometheus exporter for the Workbook
business-management system (`workbook_exporter.py`). On each scrape,
`WorkbookCollector.collect` reads currencies, companies, employees, hourly
prices, jobs and creditors from the Workbook API. It turns them into one
labelled histogram family per company and metric:

- profit ratio, hourly sale price and hourly cost, from each employee's price
  record in force;
- days since hire;
- days to the end date of each active job, split into billable and
  non-billable;
- remaining credit total and credit due.

`data_to_histogram` turns a list of observations and a list of bucket
boundaries into cumulative Prometheus buckets (`le` semantics, with a
mandatory `+Inf` bucket) and their sum.

The model has these modules:

- `Histogram` (`histogram.dfy`): `data_to_histogram` as the imperative
  method `DataToHistogram`. It fills a map of counters, then emits them in
  sorted key order. It is proved equal to the declarative `Buckets`/`Sum`
  specification. `build_histogram` is modelled too.
- `HistogramProperties`: what that specification guarantees.
  - The buckets are the boundaries, deduplicated and sorted, plus `+Inf`.
  - Counts never decrease from bucket to bucket.
  - The `+Inf` count is the number of observations.
  - Each count is the number of observations at or below its boundary.
  - No observations means every count and the sum are zero.
- `Records`: the Workbook records. It also models the dictionaries
  `collect` builds from them (company ids in dictionary order, the employee
  index where the last record with an id wins), Python truthiness of
  optional amounts, and `timedelta.days`.
- `Prices`: the price dictionary of lines 136-158, modelled as the
  imperative `ResolvePrices`, plus the record-selection rule it applies per
  employee (`Effective`) and the observation extraction of lines 161-175.
- `Observations`: days employed, job days split by the billable flag, and
  the creditor amounts of one company.
- `Decimal`: `str` of an integer company id, with a parse round trip.
- `Collector`: the scrape as a specification, `Scrape`, built from one
  function per section. The class `WorkbookCollector` has the field
  `companies` that `collect` assigns. Its method `Collect` runs the phases
  in the source's order, and is proved to return exactly `Scrape`.
- `CollectorProperties`:
  - When a scrape raises, and why.
  - How many histograms it emits, and for which companies.
  - When the error flag is set.
  - A company without prices gets three zero-valued price histograms.
  - No two emitted histograms share both family name and label values, so
    the exposition holds no duplicate series.

Inputs are values:

- Every call to the Workbook API is a `Fetch<T>` (records or a failure) held
  in a `WorkbookData`. The per-company calls are functions of the company id.
- Timestamps are integer microseconds.
- The clock is one parameter `now`.
- The text of a finite bucket boundary (Python `str(float)`) is a parameter
  `fmt`.

A raising `collect` is modelled as the outcome `Raised(cause)`, with no
histograms: an exception in a collector fails the whole exposition.

Behaviour of the code worth noting, which the model reproduces:

- Duplicate bucket boundaries are merged into one bucket, because the
  boundaries become dictionary keys (line 47).
- The first price record seen for an employee is stored unconditionally
  (line 158), even when it is dated in the future. The future check of
  line 154 applies only to replacements (`Prices.FutureFirstRecordSticks`).
  So which record wins depends on the order of the records
  (`Prices.OrderMatters`).
- A price whose employee is not in the active-employee index raises a
  `KeyError` at line 141, which ends the scrape.
- A price field that is missing or zero is left out of the observations
  (line 174).
- The job histogram, although its help text says "Days since job was
  created", observes the days from now to the job's end date (lines 252
  and 254).
- The `workbook_up` gauge lies after the bare `return` of line 318, so it
  is never emitted.

## Model

| member | source | states |
|---|---|---|
| Histogram.SortedKeys | workbook_exporter.py:63 | the returned sequence is strictly ascending and holds exactly the given keys (`sorted(buckets.keys())`) |
| Histogram.AscendingUnique | workbook_exporter.py:55 | two strictly ascending sequences with the same elements are equal, so the sorted key order is unique |
| Histogram.AddObservation | workbook_exporter.py:54-57 | one observation adds 1 to every bucket whose key is at or above it, and leaves the others and the key set unchanged |
| Histogram.ZeroCounts | workbook_exporter.py:47-51 | the counters are keyed by exactly the boundaries plus `+Inf`, added only when missing, and all start at zero |
| Histogram.CountObservations | workbook_exporter.py:54-57 | from zero counters, each counter ends up holding the number of observations at or below its key; the key set is unchanged |
| Histogram.ListBuckets | workbook_exporter.py:60-70 | one `[name, count]` pair per key in the given order, named by the boundary's text or `+Inf` |
| Histogram.DataToHistogram | workbook_exporter.py:38-72 | the returned bucket list is `Buckets(observations, bounds, fmt)`, one bucket per distinct boundary plus `+Inf` in ascending order, each counting the observations at or below it; the returned sum is the sum of the observations |
| Histogram.BuildHistogram | workbook_exporter.py:74-89 | the family carries the given name, help text, label names and label values, and the buckets and sum of `data_to_histogram` |
| HistogramProperties.BucketBoundsShape | workbook_exporter.py:47-51 | the bucket keys are ascending, are exactly the given boundaries plus `+Inf`, number one more than the distinct finite boundaries, and end with `+Inf` |
| HistogramProperties.AscendingCard | workbook_exporter.py:47 | an ascending sequence has as many distinct elements as positions |
| HistogramProperties.CountCoveredMonotone | workbook_exporter.py:54-57 | a larger boundary counts at least as many observations |
| HistogramProperties.CountCoveredInfinity | workbook_exporter.py:50-57 | the `+Inf` bucket counts every observation |
| HistogramProperties.CountCoveredIsCardinality | workbook_exporter.py:54-57 | a bucket's count is the number of observations at or below its boundary |
| HistogramProperties.BucketsShape | workbook_exporter.py:47-72 | the bucket list has one entry per distinct finite boundary plus `+Inf`; its counts never decrease; its last entry is `("+Inf", number of observations)`; with no observations every count and the sum are zero |
| HistogramProperties.BucketLabels | workbook_exporter.py:63-70 | only the last bucket is labelled `+Inf`, every other one by its boundary's text, and the labels are distinct when that text is |
| HistogramProperties.ExampleBuckets | workbook_exporter.py:38-72 | observations 10, 40 and 95 over boundaries 30, 60 and 90 give counts 1, 2, 2 and 3, and sum 145 |
| Decimal.IntTextRoundTrip | workbook_exporter.py:185 | the text of a company id is a well-formed decimal that parses back to the id |
| Decimal.IntTextInjective | workbook_exporter.py:185 | two company ids get the same label text exactly when they are equal |
| Records.Days | workbook_exporter.py:219 | `timedelta.days` is the floor of the difference in days |
| Records.TruthyValuesMembers | workbook_exporter.py:174-175 | the observations are exactly the present, non-zero values |
| Records.CompanyIds | workbook_exporter.py:104 | the company ids are distinct and are exactly the ids of the fetched companies |
| Records.CompanyNames | workbook_exporter.py:104 | the name dictionary has exactly the fetched ids as keys |
| Records.EmployeeIndex | workbook_exporter.py:107 | the employee index has exactly the fetched ids as keys, and maps each to a fetched employee with that id |
| Records.EmployeeIndexLastWins | workbook_exporter.py:107 | when an id occurs more than once, the index keeps the last record with it |
| Prices.Effective | workbook_exporter.py:143-158 | the stored record is one of the employee's records, dated no earlier than the first |
| Prices.EffectiveIsFirstLatest | workbook_exporter.py:143-158 | the stored record is the first-seen of the latest records that may replace the first one (not in the future), or the first record itself when none may |
| Prices.FirstLatestUnique | workbook_exporter.py:143-158 | that characterisation picks one position |
| Prices.EffectiveDeterminedBy | workbook_exporter.py:143-158 | any position meeting the characterisation holds the stored record |
| Prices.FutureFirstRecordSticks | workbook_exporter.py:154-158 | a first record dated in the future is never replaced |
| Prices.LatestNotInFuture | workbook_exporter.py:154-155 | when the first record is not in the future, the stored one is not either, and no record up to now is later |
| Prices.StoredDateNeverDecreases | workbook_exporter.py:154-155 | the stored `ValidFrom` never decreases as the scan proceeds |
| Prices.OrderMatters | workbook_exporter.py:145-158 | a future record and a past one: whichever is seen first is stored |
| Prices.ExampleResolution | workbook_exporter.py:145-158 | records dated 30 and 10 days ago and 5 days ahead: the one from 10 days ago is stored |
| Prices.SeenEmployeesFacts | workbook_exporter.py:138-158 | a company's inner dictionary has distinct keys, exactly the employees of the company with a price |
| Prices.ResolvedRowKeys | workbook_exporter.py:136-158 | each stored record is a fetched price of an employee of that company, one per employee, in first-appearance order |
| Prices.RowUnchanged | workbook_exporter.py:141-158 | a price of another company's employee leaves the company's row unchanged |
| Prices.RowUpdated | workbook_exporter.py:143-158 | a price of one of the company's employees replaces that employee's entry by the selection rule, or appends it when the employee has none |
| Prices.ResolvePrices | workbook_exporter.py:136-158 | fails exactly when a price's employee is not in the index or belongs to no listed company; otherwise has every company as a key, each mapped to its resolved row |
| Prices.PriceObservations | workbook_exporter.py:165-175 | the profit, hours-cost and hours-sale observations are the present, non-zero values of that field over the row, in row order |
| Prices.PriceObservationMembers | workbook_exporter.py:171-175 | a price observation is exactly a present, non-zero field value of a stored record of the company |
| Observations.TenureObservations | workbook_exporter.py:216-219 | one observation per employee, in order: the whole days from the hire date to now |
| Observations.JobObservations | workbook_exporter.py:240-254 | fails exactly when some job lacks its create or end date; otherwise gives the days to each job's end date, split by the billable flag, in order |
| Observations.JobsPartition | workbook_exporter.py:245-254 | every job lands in exactly one of the two lists: together they rearrange all the jobs' observations |
| Observations.JobDaysMembers | workbook_exporter.py:245-254 | the billable list holds exactly the observations of billable jobs, the other exactly those of the rest |
| Observations.CreditorsOf | workbook_exporter.py:290 | the company's creditors are exactly the fetched creditors with its id |
| Observations.CreditObservations | workbook_exporter.py:283-297 | the total and due observations are the present, non-zero amounts of the company's creditors, in order |
| Observations.CreditObservationMembers | workbook_exporter.py:289-297 | a credit observation is exactly a present, non-zero amount of a creditor of the company; other companies' creditors contribute nothing |
| Collector.AnyFailed | workbook_exporter.py:208-214 | the flag is set exactly when some company's call failed |
| Collector.JobSectionNoneExtends | workbook_exporter.py:245-249 | once a company's jobs raise, the whole scrape raises |
| Collector.EmitPriceHistograms | workbook_exporter.py:177-205 | one company's profit, hours-sale and hours-cost histograms, in that order and with the source's names, help texts and labels |
| Collector.EmitPrices | workbook_exporter.py:136-205 | fails exactly when a price lookup fails; otherwise emits the price section of every company in order |
| Collector.EmitTenure | workbook_exporter.py:207-228 | emits the tenure section, and reports a failure exactly when some company's employees could not be fetched |
| Collector.EmitJobs | workbook_exporter.py:230-272 | returns the job section, failing exactly as it does; when the section completes, the failure flag is set exactly when some company's jobs could not be fetched |
| Collector.EmitCredit | workbook_exporter.py:275-315 | emits the credit total and credit due histograms of every company in order |
| Collector.WorkbookCollector.constructor | workbook_exporter.py:94-96 | a new collector has no companies and no company names yet |
| Collector.WorkbookCollector.Collect | workbook_exporter.py:98-318 | the outcome is `Scrape` of the inputs; `companies` and `companyNames` are set to the dictionary's ids and names once currencies and companies are fetched, and are unchanged otherwise |
| CollectorProperties.FetchedIds | workbook_exporter.py:208-215 | the companies whose call succeeded, in order: distinct when the companies are, and all of them when no call failed |
| CollectorProperties.PriceSectionShape | workbook_exporter.py:161-205 | three price histograms per company, in company order, built from that company's resolved row |
| CollectorProperties.TenureSectionShape | workbook_exporter.py:207-228 | one days-employed histogram per company whose employees were fetched, in order |
| CollectorProperties.JobSectionRaises | workbook_exporter.py:245-249 | the job section raises exactly when some fetched job list holds a job without a create or end date |
| CollectorProperties.JobSectionShape | workbook_exporter.py:256-272 | otherwise, a billable and then a non-billable histogram per company whose jobs were fetched |
| CollectorProperties.CreditSectionShape | workbook_exporter.py:283-315 | a credit total and a credit due histogram per company, with or without creditors |
| CollectorProperties.ScrapeRaises | workbook_exporter.py:101-249 | the scrape raises on a failed currencies, companies or employees fetch; else on a price whose employee is unknown or belongs to no listed company; else on a fetched job without dates; and in no other case |
| CollectorProperties.ScrapeSize | workbook_exporter.py:98-318 | a completed scrape emits `3·companies` price histograms (when prices were fetched), one tenure histogram per company with fetched employees, two job histograms per company with fetched jobs, and `2·companies` credit histograms (when creditors were fetched); the error flag is set exactly when a guarded call failed |
| CollectorProperties.HealthyScrape | workbook_exporter.py:98-318 | when every call succeeds, a completed scrape emits eight histograms per company and the error flag is clear |
| CollectorProperties.NothingSeen | workbook_exporter.py:138-158 | a company none of whose employees has a price gets an empty inner dictionary |
| CollectorProperties.UnpricedCompany | workbook_exporter.py:136-205 | a company none of whose employees has a price still gets its three price histograms, each with all counts and the sum at zero |
| CollectorProperties.UniqueAcrossCompanies | workbook_exporter.py:161-315 | histograms of disjoint sets of companies, each list free of duplicate series, together hold none |
| CollectorProperties.UniqueAcrossFamilies | workbook_exporter.py:179-315 | two series lists, each free of duplicate series and with no family name in common, together hold none |
| CollectorProperties.PriceBlock | workbook_exporter.py:179-205 | one company's three price histograms have distinct family names and carry its `company_id` label |
| CollectorProperties.JobBlock | workbook_exporter.py:256-272 | one company's two job histograms share the family name but differ in the `billable` label, and carry its `company_id` label |
| CollectorProperties.CreditBlock | workbook_exporter.py:299-315 | one company's credit total and credit due histograms have distinct family names and carry its `company_id` label |
| CollectorProperties.FamilyNamesApart | workbook_exporter.py:179-315 | the price, days-employed, job and credit family names are pairwise different |
| CollectorProperties.SectionsUnique | workbook_exporter.py:179-315 | four sections, each free of duplicate series and drawn from pairwise disjoint family names, concatenate without a duplicate series |
| CollectorProperties.PriceSectionUnique | workbook_exporter.py:161-205 | no two price histograms share name and labels; every one carries a listed company's `company_id` label and a price family name |
| CollectorProperties.TenureSectionUnique | workbook_exporter.py:207-228 | no two days-employed histograms share labels; every one carries a listed company's `company_id` label |
| CollectorProperties.JobSectionUnique | workbook_exporter.py:230-272 | no two job histograms share labels; every one carries a listed company's `company_id` label |
| CollectorProperties.CreditSectionUnique | workbook_exporter.py:283-315 | no two credit histograms share name and labels; every one carries a listed company's `company_id` label and a credit family name |
| CollectorProperties.ScrapeSeriesUnique | workbook_exporter.py:179-315 | in every completed scrape, no two histograms share both family name and label values |

## Left out

- HTTP serving, the registry, the request-time summary, argument parsing and
  `main` (lines 9, 20-28, 607-673) are outside the collector's logic.
- The Workbook API client (`workbook_api`) is not part of this model. Each
  of its calls becomes an input value that holds either the records or a
  failure.
- The printed diagnostics of the `except` branches (lines 129, 213, 236,
  280) are I/O and are left out; only their effect on `wb_error` is
  modelled.
- `parse_date`: `strptime` on `"%Y-%m-%dT%H:%M:%S.%fZ"` strings is replaced
  by integer timestamps in microseconds. Malformed date strings, and missing
  `ValidFrom` or `HireDate` fields, which would raise, are not modelled.
- `datetime.now()` and `datetime.today()` are called anew for each record.
  The model uses one clock value `now` for the whole scrape.
- Records are typed. A missing field read with `[...]` (which would raise
  `KeyError`) is not modelled. A field read with `.get` is optional.
- Histogram.DataToHistogram: the observations, boundaries and sum are exact
  reals. The rounding of Python's float `sum` is not modelled, and nor is
  the text `str` gives a boundary, which is the parameter `fmt`.
- Collector.WorkbookCollector.Collect: a scrape that raises is modelled
  without the histograms the generator yielded before raising, because the
  exposition that was consuming them fails.
- Collector.WorkbookCollector.constructor: creating the API client from the
  URL and credentials (line 96) is not modelled.
- The currency dictionary built at line 101 and `reporting_currency_id` at
  line 122 are never used by the reachable code. Only the failure of the
  currencies fetch is modelled.
- Lines 319-604 come after the bare `return` of line 318 and cannot run.
  They hold the credit, debit, department, job, customer and employee gauges
  and the `workbook_up` indicator. So `wb_error` is computed but never
  emitted, and the model carries it only as a field of the outcome.
- `CreateDate` is parsed (line 247), which raises when it is missing, but its
  value is never used. Only its presence is modelled.
