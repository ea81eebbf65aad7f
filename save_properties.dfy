/** What saving the live counter (vault/counters.go:100-119) does to the
    stored counters: it writes one key, the current month's, with the live
    total; the last save of a month wins; and the next history shows that
    month with that total and every other month as it was. */
module SaveProperties {
  import opened Wrappers
  import opened Strings
  import opened PeriodKey
  import opened StorageView
  import opened Counters
  import opened HistoryProperties

  /** Loading the month just saved gives back the saved total. */
  lemma SaveThenLoad(v: CounterView, now: Period, n: Uint64)
    requires v.Put(Format(now), SavedRecord(n)).Ok? && Format(now) !in v.faults.get
    ensures LoadRequestCounters(v.Put(Format(now), SavedRecord(n)).value, Format(now)) == Ok(Some(RequestCounter(Some(n))))
  {
    PutThenGet(v, Format(now), SavedRecord(n), Format(now));
  }

  /** A save leaves what every other key loads unchanged. */
  lemma SaveTouchesOnlyItsKey(v: CounterView, now: Period, n: Uint64, k: string)
    requires v.Put(Format(now), SavedRecord(n)).Ok? && k != Format(now)
    ensures LoadRequestCounters(v.Put(Format(now), SavedRecord(n)).value, k) == LoadRequestCounters(v, k)
  {
    PutThenGet(v, Format(now), SavedRecord(n), k);
  }

  /** Two saves in one month do not accumulate: the store is as if only the
      later one had happened. */
  lemma SaveLastWriterWins(v: CounterView, now: Period, first: Uint64, second: Uint64)
    requires v.Put(Format(now), SavedRecord(first)).Ok?
    ensures v.Put(Format(now), SavedRecord(first)).value.Put(Format(now), SavedRecord(second))
            == v.Put(Format(now), SavedRecord(second))
  {
    PutOverwrites(v, Format(now), SavedRecord(first), SavedRecord(second));
  }

  /** Saving a four-digit-year month into a loadable store, at a key that
      reads back inside a listable year directory, keeps it loadable. */
  lemma SaveKeepsLoadable(v: CounterView, now: Period, n: Uint64)
    requires v.Valid() && Loadable(v) && InKeyRange(now)
    requires v.Put(Format(now), SavedRecord(n)).Ok?
    requires Format(now) !in v.faults.get && Format(now)[..5] !in v.faults.list
    ensures v.Put(Format(now), SavedRecord(n)).value.Valid()
    ensures Loadable(v.Put(Format(now), SavedRecord(n)).value)
  {
    ParseFormat(now);
    PutKeepsValid(v, Format(now), SavedRecord(n));
  }

  /** After such a save the history holds the saved month with the saved
      total, and every other month exactly as it was stored before. */
  lemma HistoryAfterSave(v: CounterView, now: Period, n: Uint64)
    requires v.Valid() && Loadable(v) && InKeyRange(now)
    requires v.Put(Format(now), SavedRecord(n)).Ok?
    requires Format(now) !in v.faults.get && Format(now)[..5] !in v.faults.list
    ensures var w := v.Put(Format(now), SavedRecord(n)).value;
      && History(w).Ok? && History(w).value.Some?
      && var dated := History(w).value.value.dated;
      && Chronological(dated)
      && Format(now) in Keys(dated)
      && (forall k | k in v.entries :: k in Keys(dated))
      && forall i | 0 <= i < |dated| ::
           if dated[i].startTime == now then dated[i].counter == RequestCounter(Some(n))
           else Recorded(v, dated[i])
  {
    var w := v.Put(Format(now), SavedRecord(n)).value;
    SaveKeepsLoadable(v, now, n);
    assert Format(now) in w.entries;
    HistoryExact(w);
    var dated := History(w).value.value.dated;
    forall i | 0 <= i < |dated|
      ensures if dated[i].startTime == now then dated[i].counter == RequestCounter(Some(n))
              else Recorded(v, dated[i])
    {
      assert Recorded(w, dated[i]);
      if dated[i].startTime != now {
        if Format(dated[i].startTime) == Format(now) {
          FormatInjective(dated[i].startTime, now);
        }
        PutThenGet(v, Format(now), SavedRecord(n), Format(dated[i].startTime));
      }
    }
  }
}
