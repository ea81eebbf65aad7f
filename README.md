# Request counters of vault/counters.go, modelled in Dafny

Vault keeps one live total of the requests it served in the current month
(`c.counters.requests`). The code in `vault/counters.go` does four things with it:

- `saveCurrentRequestCounters` writes the total as a JSON record `{"total": n}`
  under the month key `now.Format("2006/01")` ("YYYY/MM"). The key lives in
  the barrier view scoped to `counters/requests/`.
- `loadCurrentRequestCounters` restores the live total from the current
  month's record.
- `loadRequestCounters` reads and decodes one record.
- `loadAllRequestCounters` rebuilds the whole history, `AllRequestCounters`.
  It lists the year directories, sorts them, lists the months under each
  year, and reads each month's record.

The project is organised in these modules:

- `PeriodKey` (`period_key.dfy`) is the key codec. A month is a `Period`
  (year and month 1..12). `Format` writes a key as Go's layout "2006/01" does,
  with a sign and at least four year digits. `Parse` accepts exactly
  `DDDD/DD` with a month from 01 to 12, as `time.Parse` does.
- `Strings` (`strings.dfy`) holds Go's string order and `sort.Strings`.
- `StorageView` (`storage_view.dfy`) is the view as a value. It holds:
  - the stored bytes per key, either a record that decodes or bytes that do not;
  - the order in which the backend enumerates keys (first-write order, not
    necessarily sorted);
  - the paths at which `List`, `Get` or `Put` fail.

  `List(prefix)` returns the immediate children of `prefix`. A directory keeps
  its trailing '/'.
- `Counters` (`counters.dfy`) holds the source's types and error cases, and
  the specification functions of the reconstruction. The `Core` class holds
  the two fields the code updates: the live counter `requests` and the `view`.
  Its three methods are the code's three entry points:
  - `LoadAllRequestCounters` runs nested loops with invariants, and is proved
    equal to the specification function `History`.
  - `LoadCurrentRequestCounters` updates `requests`.
  - `SaveCurrentRequestCounters` replaces `view` with the view after the `Put`.
- `HistoryProperties` and `SaveProperties` prove what the history and the
  save promise.
- `Rollover` holds the month rollover that the reset test expects (see
  Findings).
- `Scenarios` replays the two tests of `vault/counters_test.go` on the model.

Three points are settled explicitly.

1. **Save does not reset the counter.** `Core.SaveCurrentRequestCounters` only
   reads the live counter, exactly as `vault/counters.go:100-119` does. A reset
   on a change of month happens only in the separate
   `Rollover.RolloverCoordinator.Save`.
2. **Month order.** The code sorts the year listing (`vault/counters.go:43`)
   but iterates the months in whatever order the backend lists them
   (`vault/counters.go:45-49`).
   - The model does not assume sorted listings.
   - `Counters.HistoryAsWritten` is the code as written.
   - `Counters.History` also sorts the months; `Core.LoadAllRequestCounters`
     implements it.
   - `HistoryProperties.AsWrittenAgreesWhenSorted` proves that the two agree
     whenever the backend lists in sorted order, and
     `HistoryProperties.AsWrittenAgreesWhenWrittenInOrder` whenever the months
     were written oldest first, as in both tests.

   The doc comment at `vault/counters.go:26-28` promises oldest first, and
   the code sorts only years. The model keeps both versions and names the
   difference under Findings.
3. **Nil dereferences.** `*counter.Total` at `vault/counters.go:75` panics
   when the stored record has a null total. The model returns the failure
   `NilDereference` instead and leaves the counter unchanged. The `*counter`
   at `vault/counters.go:61` would panic on a listed month with no record.
   `HistoryProperties.HistoryNeverDereferencesNil` proves that this cannot
   happen: such a name is a directory (it ends in '/'), so the `time.Parse`
   at line 56 rejects it first.

Go's `*RequestCounter` and `*AllRequestCounters` results become `Option`. An
`error` becomes the `Err` case of a `Result`, or `Fail` of an `Outcome`. A
listing with no names stands for Go's nil slice.

## Model

| member | source | states |
|---|---|---|
| Counters.LoadRequestCounters | vault/counters.go:80-98 | Succeeds exactly when the `Get` succeeds and any stored bytes decode. Nothing stored gives None, and not an error. A record returned is the one stored at that key. A failed `Get` gives its wrapped storage error; bytes that do not decode give the decode error. |
| Counters.Core.LoadAllRequestCounters | vault/counters.go:31-66 | The nested loops return exactly `History(view)`. That is the first failing List, Get, decode or parse error, or None for an empty root listing, or every month's entry with years and months in sorted order. |
| Counters.Core.LoadCurrentRequestCounters | vault/counters.go:68-78 | A read error is returned and the counter is kept. No record: success, counter kept. A record with a total: the counter becomes that total. A record with a null total: an explicit nil-dereference failure, counter kept. |
| Counters.Core.SaveCurrentRequestCounters | vault/counters.go:100-119 | The view becomes the result of one `Put` of `{"total": requests}` at `Format(now)`, or stays unchanged with the `Put` error returned. The live counter is unchanged. |
| Counters.HistoryAsWritten | vault/counters.go:31-66 | `loadAllRequestCounters` as written, that is `HistoryWith(v, false)`. Years come in sorted order, each year's months in listing order, and the first failing List, Get, decode or parse aborts. A failing root listing gives its wrapped error. The result is None exactly when the root lists nothing. |
| PeriodKey.Format | vault/counters.go:69-69 | The key "2006/01" gives a month: a minus sign exactly for a negative year, then at least four year digits, '/', and two digits spelling the month. A year in 0..9999 takes exactly four digits spelling it, so the key has seven characters. |
| PeriodKey.Parse | vault/counters.go:56-56 | It accepts only four digits, '/', and two digits from 01 to 12, with nothing left over. Any month it yields has a year in 0..9999. Every such month whose key is the input is what it yields. |
| PeriodKey.ParseFormat | vault/counters.go:56-56 | Parsing the key of a month gives that month back exactly when its year has four digits (0..9999). Otherwise parsing fails. |
| PeriodKey.FormatParse | vault/counters.go:56-56 | Every string `time.Parse` accepts is the key of the month it parses to, and that month has a four-digit year. |
| PeriodKey.FormatInjective | vault/counters.go:108-108 | Distinct months never share a key, whatever their years. |
| PeriodKey.FormatOrder | vault/counters.go:43-43 | For four-digit years, keys compare as strings exactly as their months compare in time. |
| Strings.Sort | vault/counters.go:43-43 | `sort.Strings` returns a sorted permutation of its input, strictly sorted when the input has no repeats. |
| Strings.SortOfSorted | vault/counters.go:43-43 | Sorting an already sorted listing leaves it unchanged. |
| StorageView.ChildOfKey | vault/counters.go:34-34 | Every key stored under a prefix contributes its next path segment to that prefix's listing. |
| StorageView.ChildSource | vault/counters.go:45-45 | Every name a listing returns is the next segment of some stored key under the prefix. |
| StorageView.PutOverwrites | vault/counters.go:114-114 | A second `Put` at a key leaves the view as if only the second had happened. |
| HistoryProperties.HistoryOkIffLoadable | vault/counters.go:34-59 | On a well-formed view, the reconstruction, as written or sorted, succeeds exactly when the root lists, every stored key is "YYYY/MM", and each key's record reads, decodes and lies in a listable year directory. Any single failure aborts it. |
| HistoryProperties.HistoryAbsentIffEmpty | vault/counters.go:38-40 | With a listable root, the history is absent, and not an error, exactly when nothing is stored. |
| HistoryProperties.HistoryNeverDereferencesNil | vault/counters.go:61-61 | On a well-formed view, the reconstruction never fails by dereferencing a missing record. |
| HistoryProperties.HistoryEntriesStored | vault/counters.go:49-61 | Every entry of a successful history is the record stored under its month's key, and that key reads back. |
| HistoryProperties.StoredKeyLoaded | vault/counters.go:44-61 | A successful reconstruction visits every stored key, and every stored key is a month key in a listable year directory. |
| HistoryProperties.HistoryOldestFirst | vault/counters.go:25-29 | The sorted reconstruction is strictly oldest first, as documented for `AllRequestCounters.Dated`. |
| HistoryProperties.HistoryExact | vault/counters.go:31-66 | For a readable, non-empty store, the history exists, is oldest first, has one entry per stored key and no other, and each entry is that key's record. |
| HistoryProperties.HistoryIsTheStoredMonths | vault/counters.go:31-66 | Any oldest-first sequence covering exactly the stored keys with their records is the history. The history is determined by what is stored. |
| HistoryProperties.AsWrittenAgreesWhenSorted | vault/counters.go:43-49 | When every listing comes back sorted, the as-written reconstruction equals the sorted one. |
| StorageView.ChildrenSorted | vault/counters.go:45-45 | A backend that enumerates its keys in ascending order lists every directory in ascending order. |
| HistoryProperties.AsWrittenAgreesWhenWrittenInOrder | vault/counters.go:43-49 | When the stored keys were written oldest first, the source's reconstruction, which does not sort months, gives the sorted history. |
| HistoryProperties.AsWrittenOutOfOrder | vault/counters.go:45-49 | A store whose backend lists February before January: the as-written history is [February, January] and not oldest first. The sorted history is [January, February]. |
| SaveProperties.SaveThenLoad | vault/counters.go:100-119 | After a save, loading that month's key gives back the saved total. |
| SaveProperties.SaveTouchesOnlyItsKey | vault/counters.go:108-116 | A save leaves what every other key loads unchanged. |
| SaveProperties.SaveLastWriterWins | vault/counters.go:108-114 | Two saves in one month do not accumulate. The store is as if only the later one had happened. |
| SaveProperties.SaveKeepsLoadable | vault/counters.go:100-119 | Saving a four-digit-year month into a readable store keeps it readable, provided that month's key and year directory can be read. |
| SaveProperties.HistoryAfterSave | vault/counters.go:100-119 | After such a save, the history is oldest first. It contains the saved month with the saved total and every previously stored month, each with its record as stored before. |
| Rollover.RolloverCoordinator.Save | vault/counters_test.go:110-119 | A save whose month differs from the previous save's resets the live counter to 0 before writing. A save in the same month, or the first save, does not. The write is the core's save. |
| Scenarios.Increment | vault/counters_test.go:100-100 | `atomic.AddUint64(&requests, 1)` adds one and wraps to 0 at 2^64. |
| Scenarios.SaveResetLoad | vault/counters_test.go:27-41 | Save, set the counter to 0, load: both calls succeed and the counter is back at the saved value. |
| Scenarios.SaveTwiceInOneMonth | vault/counters_test.go:98-108 | Two saves in one month with the counter changed in between: both succeed and the store holds only the later total. |
| Scenarios.HistoryOfOne | vault/counters_test.go:43-55 | A store holding one month's record has a history of exactly that entry, both by the source's reconstruction and by the sorted one. |
| Scenarios.HistoryOfTwo | vault/counters_test.go:67-76 | A store holding two months' records, written oldest first, has a history of both, oldest first, both by the source's reconstruction and by the sorted one. |
| Scenarios.RequestCounterStorage | vault/counters_test.go:14-77 | For any two months in order: the round trip restores 555, the first history is [first: 555], and the second is [first: 555, second: 333]. The source's reconstruction reads the same two histories. |
| Scenarios.RequestCounterResetAsWritten | vault/counters_test.go:79-138 | With the save as written, the counter is 556 after the same-month save and still 556 after the new-month save. The history is [556, 556], by the source's reconstruction too. |
| Scenarios.RequestCounterResetWithRollover | vault/counters_test.go:79-138 | With saves through the rollover coordinator, the counter is 556 and then 0, and the history is [556, 0], as the test expects, by the source's reconstruction too. |

## Left out

- Atomicity of `sync/atomic`, and concurrent increments. The live counter is a plain field, and increments happen outside `vault/counters.go`.
- `context.Context` and the `errwrap` message texts. An error carries only its cause: the failed storage call, the key that did not decode, the path that did not parse, or the nil dereference.
- The barrier and its `SubView` encryption. The view is the abstract `StorageView.View`, already scoped to `counters/requests/`.
- JSON internals.
  - A stored value either decodes to a `RequestCounter` or is undecodable bytes.
  - `logical.StorageEntryJSON` cannot fail on a struct holding one `*uint64`, so its error branch (`vault/counters.go:109-112`) is not modelled.
- The clock and time zones. A `time.Time` appears only as the calendar month it formats to. The history's `StartTime`, the first instant of the month, is that month.
- The backend's listing order. It is modelled as the order in which keys were first written. A real backend may use another unsorted order; the model's properties hold for any order of distinct keys.
- Counters.Core.LoadAllRequestCounters: it computes the corrected, month-sorted history. The source as written is `Counters.HistoryAsWritten`, and `HistoryProperties.AsWrittenAgreesWhenSorted` relates the two.
- Years outside 0..9999. `Format` writes them, but `time.Parse` rejects them, so a store holding one has no readable history. `PeriodKey.ParseFormat` states this.
- Scenarios.RequestCounterStorage, Scenarios.RequestCounterResetAsWritten, Scenarios.RequestCounterResetWithRollover: they replay the tests for any two months in order, not only the tests' December 2018 and January 2019.
- `ui/lib/replication/addon/components/replication-summary.js`: a user-interface component, not part of the counter logic.

## Findings

| source | as written | input that shows it | evidently intended | confidence | as-written member | corrected member |
|---|---|---|---|---|---|---|
| vault/counters.go:45-49 | Only the year listing is sorted; months are appended in the backend's listing order | A store whose backend lists "2019/" as ["02", "01"], February written first | Sort the months too, so `Dated` is oldest first as documented at lines 26-28 | not executed; shows only with a backend that does not list in sorted order | HistoryProperties.AsWrittenOutOfOrder | Counters.Core.LoadAllRequestCounters |
| vault/counters.go:100-119 | The save only reads the live counter and never resets it on a new month | vault/counters_test.go:79-138: 555 saved in December, one increment, a save in December, a save in January; the test expects the counter to be 0 after the January save | A save in a new month starts that month from 0 | not executed; the test as written cannot pass against this save | Scenarios.RequestCounterResetAsWritten | Rollover.RolloverCoordinator.Save |
