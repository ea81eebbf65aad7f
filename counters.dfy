/** The request-counter persistence of vault/counters.go: one live total of
    requests for the current month, saved under that month's key "YYYY/MM" in
    the "counters/requests/" view, read back for the current month, and
    rebuilt month by month for the whole history. */
module Counters {
  import opened Wrappers
  import opened Strings
  import opened PeriodKey
  import opened StorageView

  /** Go's uint64. */
  type Uint64 = x: int | 0 <= x < 0x1_0000_0000_0000_0000

  /** `RequestCounter`: the stored JSON `{"total": n}`; `total` is null when
      the document carries no number. */
  datatype RequestCounter = RequestCounter(total: Option<Uint64>)

  /** `DatedRequestCounter`: the counter of one month and the first instant of
      that month. */
  datatype DatedRequestCounter = DatedRequestCounter(startTime: Period, counter: RequestCounter)

  /** `AllRequestCounters`: one entry per stored month. */
  datatype AllRequestCounters = AllRequestCounters(dated: seq<DatedRequestCounter>)

  /** The documented order of `AllRequestCounters.Dated`: oldest first, one
      entry per month. */
  predicate Chronological(dated: seq<DatedRequestCounter>) {
    forall i, j | 0 <= i < j < |dated| :: Before(dated[i].startTime, dated[j].startTime)
  }

  datatype Error =
    | Storage(cause: StorageError)   // a failed List, Get or Put, wrapped by errwrap
    | DecodeFailed(key: string)      // DecodeJSON rejected the stored bytes
    | MalformedKey(path: string)     // time.Parse rejected a listed path
    | NilDereference(key: string)    // a nil pointer dereferenced: a Go panic

  type CounterView = View<RequestCounter>

  /** The record a save writes for the live total `n`: `{"total": n}`. */
  function SavedRecord(n: Uint64): Stored<RequestCounter> {
    Encoded(RequestCounter(Some(n)))
  }

  /** The view's result with its error wrapped as the counter code wraps it. */
  function ListIn(v: CounterView, prefix: string): Result<seq<string>, Error> {
    match v.List(prefix)
    case Err(e) => Err(Storage(e))
    case Ok(names) => Ok(names)
  }

  /** `loadRequestCounters`: the record stored at `datepath`, None when nothing
      is stored there. */
  function LoadRequestCounters(v: CounterView, datepath: string): (r: Result<Option<RequestCounter>, Error>)
    ensures r.Ok? <==> datepath !in v.faults.get && (datepath in v.entries ==> v.entries[datepath].Encoded?)
    ensures r.Ok? ==> (r.value.None? <==> datepath !in v.entries)
    ensures r.Ok? && r.value.Some? ==> v.entries[datepath] == Encoded(r.value.value)
    ensures r.Err? ==> r.error == if datepath in v.faults.get then Storage(GetFailed(datepath)) else DecodeFailed(datepath)
  {
    match v.Get(datepath)
    case Err(e) => Err(Storage(e))
    case Ok(None) => Ok(None)
    case Ok(Some(Garbled)) => Err(DecodeFailed(datepath))
    case Ok(Some(Encoded(c))) => Ok(Some(c))
  }

  function ParseKey(path: string): Result<Period, Error> {
    match Parse(path)
    case None => Err(MalformedKey(path))
    case Some(t) => Ok(t)
  }

  // ----- history reconstruction (loadAllRequestCounters) -----

  /** The entries of one year directory: for each listed month, in the order
      given, read the record at `year + month`, parse that path, and append. */
  function MonthEntries(v: CounterView, year: string, months: seq<string>): Result<seq<DatedRequestCounter>, Error> {
    if months == [] then Ok([])
    else
      var fullpath := year + months[0];
      var counter :- LoadRequestCounters(v, fullpath);
      var t :- ParseKey(fullpath);
      if counter.None? then Err(NilDereference(fullpath))
      else Prefixed([DatedRequestCounter(t, counter.value)], MonthEntries(v, year, months[1..]))
  }

  /** The entries of the year directories, in the order given. The source
      iterates the month listing as the backend returns it; the corrected
      reconstruction sorts it first (`sortMonths`). */
  function YearEntries(v: CounterView, years: seq<string>, sortMonths: bool): Result<seq<DatedRequestCounter>, Error> {
    if years == [] then Ok([])
    else
      var listed :- ListIn(v, years[0]);
      Then(MonthEntries(v, years[0], Arrange(listed, sortMonths)), YearEntries(v, years[1..], sortMonths))
  }

  /** The month listing of a year directory as the reconstruction iterates it. */
  function Arrange(listed: seq<string>, sortMonths: bool): seq<string> {
    if sortMonths then Sort(listed) else listed
  }

  /** The whole history: None when the view holds no year directory. */
  function HistoryWith(v: CounterView, sortMonths: bool): Result<Option<AllRequestCounters>, Error> {
    var datepaths :- ListIn(v, "");
    if datepaths == [] then Ok(None)
    else
      var dated :- YearEntries(v, Sort(datepaths), sortMonths);
      Ok(Some(AllRequestCounters(dated)))
  }

  /** `loadAllRequestCounters` as written: years sorted, months in listing
      order. A failing root listing fails the whole call with its error, and
      there is no history exactly when the root lists nothing. */
  function HistoryAsWritten(v: CounterView): (r: Result<Option<AllRequestCounters>, Error>)
    ensures ListIn(v, "").Err? ==> r == Err(ListIn(v, "").error)
    ensures r == Ok(None) <==> ListIn(v, "") == Ok([])
  {
    HistoryWith(v, false)
  }

  /** The history with both levels sorted, which keeps the documented
      oldest-first order; this is what `Core.LoadAllRequestCounters` computes. */
  function History(v: CounterView): Result<Option<AllRequestCounters>, Error> {
    HistoryWith(v, true)
  }

  /** `d` followed by the entries of `r`, or `r`'s error. */
  function Prefixed(d: seq<DatedRequestCounter>, r: Result<seq<DatedRequestCounter>, Error>): Result<seq<DatedRequestCounter>, Error> {
    match r
    case Err(e) => Err(e)
    case Ok(rest) => Ok(d + rest)
  }

  /** The entries of `a` then those of `b`, or the first error among them. */
  function Then(a: Result<seq<DatedRequestCounter>, Error>, b: Result<seq<DatedRequestCounter>, Error>): Result<seq<DatedRequestCounter>, Error> {
    match a
    case Err(e) => Err(e)
    case Ok(first) => Prefixed(first, b)
  }

  lemma PrefixedThen(d: seq<DatedRequestCounter>, x: seq<DatedRequestCounter>,
                     a: Result<seq<DatedRequestCounter>, Error>, b: Result<seq<DatedRequestCounter>, Error>)
    ensures Prefixed(d, Then(Prefixed(x, a), b)) == Prefixed(d + x, Then(a, b))
  {
    if a.Ok? && b.Ok? {
      assert d + (x + a.value + b.value) == d + x + (a.value + b.value);
    }
  }

  lemma PrefixedEmpty(r: Result<seq<DatedRequestCounter>, Error>)
    ensures Prefixed([], r) == r
  {
    if r.Ok? {
      assert [] + r.value == r.value;
    }
  }

  lemma HistoryUnfold(v: CounterView, listed: seq<string>)
    requires ListIn(v, "") == Ok(listed) && listed != []
    ensures History(v) == match YearEntries(v, Sort(listed), true)
                          case Err(e) => Err(e)
                          case Ok(dated) => Ok(Some(AllRequestCounters(dated)))
  {
  }

  /** One year directory's step of the reconstruction. */
  lemma YearStep(v: CounterView, years: seq<string>, i: nat, sortMonths: bool)
    requires i < |years|
    ensures ListIn(v, years[i]).Err? ==> YearEntries(v, years[i..], sortMonths) == Err(ListIn(v, years[i]).error)
    ensures ListIn(v, years[i]).Ok? ==>
      YearEntries(v, years[i..], sortMonths)
      == Then(MonthEntries(v, years[i], Arrange(ListIn(v, years[i]).value, sortMonths)), YearEntries(v, years[i + 1..], sortMonths))
  {
    assert years[i..][0] == years[i] && years[i..][1..] == years[i + 1..];
  }

  /** One month's step of the reconstruction. */
  lemma MonthStep(v: CounterView, year: string, months: seq<string>, j: nat)
    requires j < |months|
    ensures var fullpath := year + months[j];
      MonthEntries(v, year, months[j..])
      == match LoadRequestCounters(v, fullpath)
            case Err(e) => Err(e)
            case Ok(counter) =>
              match Parse(fullpath)
              case None => Err(MalformedKey(fullpath))
              case Some(t) =>
                if counter.None? then Err(NilDereference(fullpath))
                else Prefixed([DatedRequestCounter(t, counter.value)], MonthEntries(v, year, months[j + 1..]))
  {
    assert months[j..][0] == months[j] && months[j..][1..] == months[j + 1..];
  }

  /** The parts of `Core` the counter code touches: the live counter
      `c.counters.requests` and the system barrier view scoped to
      "counters/requests/". */
  class Core {
    var requests: Uint64
    var view: CounterView

    ghost predicate Valid()
      reads this
    {
      view.Valid()
    }

    constructor (view: CounterView)
      requires view.Valid()
      ensures Valid() && this.view == view && requests == 0
    {
      this.view := view;
      requests := 0;
    }

    /** `loadAllRequestCounters`, with the month listing sorted like the year
        listing. It aborts with the first failure and returns no partial
        history. */
    method LoadAllRequestCounters() returns (r: Result<Option<AllRequestCounters>, Error>)
      ensures r == History(view)
    {
      var listed := ListIn(view, "");
      if listed.Err? {
        return Err(listed.error);
      }
      if listed.value == [] {
        return Ok(None);
      }
      var datepaths := Sort(listed.value);
      ghost var whole := YearEntries(view, datepaths, true);
      HistoryUnfold(view, listed.value);
      PrefixedEmpty(whole);
      assert datepaths[0..] == datepaths;
      var dated: seq<DatedRequestCounter> := [];
      var i := 0;
      while i < |datepaths|
        invariant 0 <= i <= |datepaths|
        invariant whole == Prefixed(dated, YearEntries(view, datepaths[i..], true))
      {
        var datepath := datepaths[i];
        YearStep(view, datepaths, i, true);
        var sublisted := ListIn(view, datepath);
        if sublisted.Err? {
          return Err(sublisted.error);
        }
        var datesubpaths := Sort(sublisted.value);
        ghost var later := YearEntries(view, datepaths[i + 1..], true);
        assert datesubpaths[0..] == datesubpaths;
        var j := 0;
        while j < |datesubpaths|
          invariant 0 <= j <= |datesubpaths|
          invariant whole == Prefixed(dated, Then(MonthEntries(view, datepath, datesubpaths[j..]), later))
        {
          MonthStep(view, datepath, datesubpaths, j);
          var fullpath := datepath + datesubpaths[j];
          var counter := LoadRequestCounters(view, fullpath);
          if counter.Err? {
            return Err(counter.error);
          }
          var t := Parse(fullpath);
          if t.None? {
            return Err(MalformedKey(fullpath));
          }
          if counter.value.None? {
            return Err(NilDereference(fullpath));
          }
          var entry := DatedRequestCounter(t.value, counter.value.value);
          PrefixedThen(dated, [entry], MonthEntries(view, datepath, datesubpaths[j + 1..]), later);
          dated := dated + [entry];
          j := j + 1;
        }
        assert datesubpaths[j..] == [];
        PrefixedEmpty(later);
        i := i + 1;
      }
      assert datepaths[i..] == [];
      assert dated + [] == dated;
      return Ok(Some(AllRequestCounters(dated)));
    }

    /** `loadCurrentRequestCounters`: restores the live counter from the
        current month's record. Nothing stored leaves the counter as it is; a
        stored record whose total is null makes the source dereference a nil
        pointer. */
    method LoadCurrentRequestCounters(now: Period) returns (r: Outcome<Error>)
      modifies this`requests
      ensures match LoadRequestCounters(view, Format(now))
              case Err(e) => r == Fail(e) && requests == old(requests)
              case Ok(None) => r == Pass && requests == old(requests)
              case Ok(Some(c)) =>
                if c.total.Some? then r == Pass && requests == c.total.value
                else r == Fail(NilDereference(Format(now))) && requests == old(requests)
    {
      var datepath := Format(now);
      var counter := LoadRequestCounters(view, datepath);
      if counter.Err? {
        return Fail(counter.error);
      }
      if counter.value.Some? {
        if counter.value.value.total.None? {
          return Fail(NilDereference(datepath));
        }
        requests := counter.value.value.total.value;
      }
      return Pass;
    }

    /** `saveCurrentRequestCounters`: writes the live counter, whole, under
        the current month's key. The live counter itself is not changed. */
    method SaveCurrentRequestCounters(now: Period) returns (r: Outcome<Error>)
      requires Valid()
      modifies this`view
      ensures Valid() && requests == old(requests)
      ensures var saved := old(view).Put(Format(now), SavedRecord(requests));
              match saved
              case Ok(v) => r == Pass && view == v
              case Err(e) => r == Fail(Storage(e)) && view == old(view)
    {
      var localCounters := RequestCounter(Some(requests));
      var datepath := Format(now);
      var saved := view.Put(datepath, Encoded(localCounters));
      if saved.Err? {
        return Fail(Storage(saved.error));
      }
      PutKeepsValid(view, datepath, Encoded(localCounters));
      view := saved.value;
      return Pass;
    }
  }
}
