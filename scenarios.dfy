/** The two request-counter tests of vault/counters_test.go replayed on the
    model, plus the save/load round trip and the same-month overwrite they
    rely on, stated for any core. December 2018 and January 2019 are the
    months of the tests' timestamps. */
module Scenarios {
  import opened Wrappers
  import opened Strings
  import opened PeriodKey
  import opened StorageView
  import opened Counters
  import opened HistoryProperties
  import opened SaveProperties
  import opened Rollover

  /** A freshly unsealed core's counter view: nothing stored, nothing failing. */
  function EmptyStore(): (v: CounterView)
    ensures v.Valid() && Loadable(v) && v.entries == map[]
  {
    View(map[], [], NoFaults())
  }

  /** `atomic.AddUint64(&requests, 1)`: wraps around at 2^64. */
  function Increment(n: Uint64): (r: Uint64)
    ensures n < 0xFFFF_FFFF_FFFF_FFFF ==> r == n + 1
    ensures n == 0xFFFF_FFFF_FFFF_FFFF ==> r == 0
  {
    (n + 1) % 0x1_0000_0000_0000_0000
  }

  /** Save, clear the live counter, load: the counter is back at the saved
      value, and the store holds exactly that save. */
  method SaveResetLoad(core: Core, now: Period) returns (saved: Outcome<Error>, loaded: Outcome<Error>)
    requires core.Valid()
    requires Format(now) !in core.view.faults.put && Format(now) !in core.view.faults.get
    modifies core
    ensures core.Valid() && saved == Pass && loaded == Pass
    ensures core.requests == old(core.requests)
    ensures core.view == old(core.view).Put(Format(now), SavedRecord(old(core.requests))).value
  {
    ghost var live := core.requests;
    saved := core.SaveCurrentRequestCounters(now);
    SaveThenLoad(old(core.view), now, live);
    core.requests := 0;
    loaded := core.LoadCurrentRequestCounters(now);
  }

  /** Two saves in one month, the live counter changed in between: the
      store keeps only the later total. */
  method SaveTwiceInOneMonth(core: Core, now: Period, later: Uint64) returns (first: Outcome<Error>, second: Outcome<Error>)
    requires core.Valid() && Format(now) !in core.view.faults.put
    modifies core
    ensures core.Valid() && first == Pass && second == Pass && core.requests == later
    ensures core.view == old(core.view).Put(Format(now), SavedRecord(later)).value
  {
    first := core.SaveCurrentRequestCounters(now);
    core.requests := later;
    second := core.SaveCurrentRequestCounters(now);
    SaveLastWriterWins(old(core.view), now, old(core.requests), later);
  }

  /** A fault-free store holding only records of months with four-digit
      years can be read all the way through. */
  lemma RecordsLoadable(v: CounterView, dated: seq<DatedRequestCounter>)
    requires v.faults == NoFaults()
    requires forall k :: k in v.entries <==> k in Keys(dated)
    requires forall i | 0 <= i < |dated| :: Recorded(v, dated[i])
    ensures Loadable(v)
  {
    forall k | k in v.entries
      ensures Parse(k).Some? && v.entries[k].Encoded?
    {
      var i :| 0 <= i < |dated| && Keys(dated)[i] == k;
      assert Recorded(v, dated[i]);
      ParseFormat(dated[i].startTime);
    }
  }

  /** The history of a fault-free store holding exactly the given records. */
  lemma HistoryOfRecords(v: CounterView, dated: seq<DatedRequestCounter>)
    requires v.Valid() && v.faults == NoFaults() && dated != []
    requires Chronological(dated)
    requires forall k :: k in v.entries <==> k in Keys(dated)
    requires forall i | 0 <= i < |dated| :: Recorded(v, dated[i])
    ensures History(v) == Ok(Some(AllRequestCounters(dated)))
  {
    RecordsLoadable(v, dated);
    assert Keys(dated)[0] in v.entries;
    HistoryIsTheStoredMonths(v, dated);
  }

  /** A store holding the record of one month. */
  function OneMonth(a: DatedRequestCounter): CounterView {
    View(map[Format(a.startTime) := Encoded(a.counter)], [Format(a.startTime)], NoFaults())
  }

  /** A store holding the records of two months, written in that order. */
  function TwoMonths(a: DatedRequestCounter, b: DatedRequestCounter): CounterView {
    View(map[Format(a.startTime) := Encoded(a.counter), Format(b.startTime) := Encoded(b.counter)],
         [Format(a.startTime), Format(b.startTime)], NoFaults())
  }

  /** The first save into an empty store. */
  lemma SaveIntoEmpty(a: DatedRequestCounter)
    ensures EmptyStore().Put(Format(a.startTime), Encoded(a.counter)) == Ok(OneMonth(a))
  {
    assert [] + [Format(a.startTime)] == [Format(a.startTime)];
  }

  /** A second save in the same month replaces the month's record. */
  lemma SaveSameMonth(a: DatedRequestCounter, c: RequestCounter)
    ensures OneMonth(a).Put(Format(a.startTime), Encoded(c)) == Ok(OneMonth(DatedRequestCounter(a.startTime, c)))
  {
    assert map[Format(a.startTime) := Encoded(a.counter)][Format(a.startTime) := Encoded(c)]
        == map[Format(a.startTime) := Encoded(c)];
  }

  /** A save in another month adds that month after the first. */
  lemma SaveOtherMonth(a: DatedRequestCounter, b: DatedRequestCounter)
    requires a.startTime != b.startTime
    ensures OneMonth(a).Put(Format(b.startTime), Encoded(b.counter)) == Ok(TwoMonths(a, b))
  {
    DistinctKeys(a.startTime, b.startTime);
    assert Format(b.startTime) !in OneMonth(a).entries;
    assert [Format(a.startTime)] + [Format(b.startTime)] == [Format(a.startTime), Format(b.startTime)];
  }

  /** The backend of a two-month store written oldest first enumerates its
      keys in ascending order. */
  lemma TwoMonthsWrittenInOrder(a: DatedRequestCounter, b: DatedRequestCounter)
    requires InKeyRange(a.startTime) && InKeyRange(b.startTime) && Before(a.startTime, b.startTime)
    ensures Sorted(TwoMonths(a, b).order)
  {
    FormatOrder(a.startTime, b.startTime);
  }

  /** A store holding one month's record, read by the source's reconstruction
      and by the sorted one. */
  lemma HistoryOfOne(a: DatedRequestCounter)
    requires InKeyRange(a.startTime)
    ensures History(OneMonth(a)) == Ok(Some(AllRequestCounters([a])))
    ensures HistoryAsWritten(OneMonth(a)) == Ok(Some(AllRequestCounters([a])))
  {
    var v := OneMonth(a);
    AsWrittenAgreesWhenWrittenInOrder(v);
    assert Keys([a]) == [Format(a.startTime)];
    assert Recorded(v, [a][0]);
    HistoryOfRecords(v, [a]);
  }

  /** The sorted history of a store holding two months' records, written
      oldest first. */
  lemma SortedHistoryOfTwo(a: DatedRequestCounter, b: DatedRequestCounter)
    requires InKeyRange(a.startTime) && InKeyRange(b.startTime) && Before(a.startTime, b.startTime)
    ensures History(TwoMonths(a, b)) == Ok(Some(AllRequestCounters([a, b])))
  {
    var v := TwoMonths(a, b);
    DistinctKeys(a.startTime, b.startTime);
    assert Keys([a, b]) == [Format(a.startTime), Format(b.startTime)];
    assert Recorded(v, [a, b][0]) && Recorded(v, [a, b][1]);
    HistoryOfRecords(v, [a, b]);
  }

  /** A store holding two months' records, written oldest first, read by the
      source's reconstruction and by the sorted one. */
  lemma HistoryOfTwo(a: DatedRequestCounter, b: DatedRequestCounter)
    requires InKeyRange(a.startTime) && InKeyRange(b.startTime) && Before(a.startTime, b.startTime)
    ensures History(TwoMonths(a, b)) == Ok(Some(AllRequestCounters([a, b])))
    ensures HistoryAsWritten(TwoMonths(a, b)) == Ok(Some(AllRequestCounters([a, b])))
  {
    SortedHistoryOfTwo(a, b);
    TwoMonthsWrittenInOrder(a, b);
    AsWrittenAgreesWhenWrittenInOrder(TwoMonths(a, b));
  }

  /** vault/counters_test.go:14-77, for any two months in order (the test
      uses December 2018 and January 2019): save the first month's 555,
      clear the counter and load it back, read the history, then save the
      second month's 333 and read the history again. Each history is read
      both by `LoadAllRequestCounters` and by the source's reconstruction,
      which does not sort months, and the two agree. */
  method RequestCounterStorage(first: Period, second: Period)
      returns (restored: Uint64, one: Result<Option<AllRequestCounters>, Error>,
               both: Result<Option<AllRequestCounters>, Error>,
               oneAsWritten: Result<Option<AllRequestCounters>, Error>,
               bothAsWritten: Result<Option<AllRequestCounters>, Error>)
    requires InKeyRange(first) && InKeyRange(second) && Before(first, second)
    ensures restored == 555 && oneAsWritten == one && bothAsWritten == both
    ensures one == Ok(Some(AllRequestCounters([DatedRequestCounter(first, RequestCounter(Some(555)))])))
    ensures both == Ok(Some(AllRequestCounters([DatedRequestCounter(first, RequestCounter(Some(555))),
                                                DatedRequestCounter(second, RequestCounter(Some(333)))])))
  {
    var a := DatedRequestCounter(first, RequestCounter(Some(555)));
    var b := DatedRequestCounter(second, RequestCounter(Some(333)));
    var core := new Core(EmptyStore());
    core.requests := 555;
    SaveIntoEmpty(a);
    var saved, loaded := SaveResetLoad(core, first);
    restored := core.requests;
    HistoryOfOne(a);
    one := core.LoadAllRequestCounters();
    oneAsWritten := HistoryAsWritten(core.view);
    core.requests := 333;
    SaveOtherMonth(a, b);
    saved := core.SaveCurrentRequestCounters(second);
    HistoryOfTwo(a, b);
    both := core.LoadAllRequestCounters();
    bothAsWritten := HistoryAsWritten(core.view);
  }

  lemma DistinctKeys(p: Period, q: Period)
    requires p != q
    ensures Format(p) != Format(q)
  {
    if Format(p) == Format(q) {
      FormatInjective(p, q);
    }
  }

  /** vault/counters_test.go:79-138 against the save as written, for any two
      months in order: the first month's 555 is saved, the counter goes up by
      one and is saved again, then a save in the second month. The counter is
      still 556 after that save and the second month is stored as 556, where
      the test expects 0 for both. The source's reconstruction reads the
      same history. */
  method RequestCounterResetAsWritten(first: Period, second: Period)
      returns (afterFirst: Uint64, afterSecond: Uint64, all: Result<Option<AllRequestCounters>, Error>,
               allAsWritten: Result<Option<AllRequestCounters>, Error>)
    requires InKeyRange(first) && InKeyRange(second) && Before(first, second)
    ensures allAsWritten == all
    ensures afterFirst == 556 && afterSecond == 556
    ensures all == Ok(Some(AllRequestCounters([DatedRequestCounter(first, RequestCounter(Some(556))),
                                               DatedRequestCounter(second, RequestCounter(Some(556)))])))
  {
    var a := DatedRequestCounter(first, RequestCounter(Some(556)));
    var b := DatedRequestCounter(second, RequestCounter(Some(556)));
    var core := new Core(EmptyStore());
    core.requests := 555;
    ghost var a0 := DatedRequestCounter(first, RequestCounter(Some(555)));
    SaveIntoEmpty(a0);
    var saved := core.SaveCurrentRequestCounters(first);
    core.requests := Increment(core.requests);
    SaveSameMonth(a0, a.counter);
    saved := core.SaveCurrentRequestCounters(first);
    afterFirst := core.requests;
    SaveOtherMonth(a, b);
    saved := core.SaveCurrentRequestCounters(second);
    afterSecond := core.requests;
    HistoryOfTwo(a, b);
    all := core.LoadAllRequestCounters();
    allAsWritten := HistoryAsWritten(core.view);
  }

  /** The same test with every save going through the rollover coordinator:
      the save in the second month resets the counter, and the history is
      the one the test expects, 556 for the first month and 0 for the second,
      by `LoadAllRequestCounters` and by the source's reconstruction alike. */
  method RequestCounterResetWithRollover(first: Period, second: Period)
      returns (afterFirst: Uint64, afterSecond: Uint64, all: Result<Option<AllRequestCounters>, Error>,
               allAsWritten: Result<Option<AllRequestCounters>, Error>)
    requires InKeyRange(first) && InKeyRange(second) && Before(first, second)
    ensures allAsWritten == all
    ensures afterFirst == 556 && afterSecond == 0
    ensures all == Ok(Some(AllRequestCounters([DatedRequestCounter(first, RequestCounter(Some(556))),
                                               DatedRequestCounter(second, RequestCounter(Some(0)))])))
  {
    var a := DatedRequestCounter(first, RequestCounter(Some(556)));
    var b := DatedRequestCounter(second, RequestCounter(Some(0)));
    var core := new Core(EmptyStore());
    var coordinator := new RolloverCoordinator(core);
    core.requests := 555;
    ghost var a0 := DatedRequestCounter(first, RequestCounter(Some(555)));
    SaveIntoEmpty(a0);
    var reset, saved := coordinator.Save(first);
    core.requests := Increment(core.requests);
    SaveSameMonth(a0, a.counter);
    reset, saved := coordinator.Save(first);
    afterFirst := core.requests;
    SaveOtherMonth(a, b);
    reset, saved := coordinator.Save(second);
    afterSecond := core.requests;
    HistoryOfTwo(a, b);
    all := core.LoadAllRequestCounters();
    allAsWritten := HistoryAsWritten(core.view);
  }
}
